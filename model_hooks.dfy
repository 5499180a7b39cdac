/** The hook table of one Sequel::Model class and the instance-level triggers
    it installs: declaring hooks, registering blocks through a hook's class
    accessor, querying the table and dispatching a hook on an instance. */
module ModelHooks {
  import opened HookSpec

  /** Hooks that are safe for public use. */
  const PublicHooks: seq<HookName> :=
    ["after_initialize", "before_create", "after_create", "before_update",
     "after_update", "before_save", "after_save", "before_destroy", "after_destroy",
     "before_validation", "after_validation"]

  /** Hooks that are only for internal use. */
  const PrivateHooks: seq<HookName> := ["before_update_values", "before_delete"]

  /** Every hook a model class declares when it is set up. */
  const DefaultHooks: seq<HookName> := PublicHooks + PrivateHooks

  /** What the instance method named after a hook does: nothing (the empty
      placeholder, which returns nil) or call `run_hooks` for that hook. */
  datatype TriggerMode = Placeholder | RunsHooks

  /** What a hook's instance method returns: nil from the placeholder, false
      when a block aborted, otherwise the hook's list itself (the receiver of
      the `each` that `run_hooks` went through), which Ruby treats as true. */
  datatype TriggerValue = ReturnedNil | ReturnedFalse | ReturnedList(entries: seq<Entry>)

  predicate Truthy(v: TriggerValue)
  {
    v.ReturnedList?
  }

  /** The 13 default hook names are pairwise distinct, so the public and
      private lists do not overlap. */
  lemma DefaultHooksDistinct()
    ensures |DefaultHooks| == 13
    ensures forall i, j :: 0 <= i < j < |DefaultHooks| ==> DefaultHooks[i] != DefaultHooks[j]
    ensures forall name :: name in PublicHooks ==> name !in PrivateHooks
  {
  }

  class Model {
    /** `@hooks`: each declared hook's list of `[tag, block]` pairs. */
    var hooks: map<HookName, seq<Entry>>
    /** The instance method each declared hook currently has. */
    var triggers: map<HookName, TriggerMode>

    ghost predicate Valid()
      reads this
    {
      && hooks.Keys == triggers.Keys
      && forall name :: name in hooks ==> UniqueTags(hooks[name])
    }

    /** Setting up the class: every public and private hook is declared, with
        an empty list and the placeholder trigger. */
    constructor ()
      ensures Valid()
      ensures forall name :: name in hooks <==> name in DefaultHooks
      ensures forall name :: name in hooks ==> hooks[name] == [] && triggers[name] == Placeholder
    {
      hooks := map[];
      triggers := map[];
      new;
      for i := 0 to |DefaultHooks|
        invariant Valid()
        invariant forall name :: name in hooks <==> name in DefaultHooks[..i]
        invariant forall name :: name in hooks ==> hooks[name] == [] && triggers[name] == Placeholder
      {
        DefineHook(DefaultHooks[i]);
      }
    }

    /** `has_hooks?`: whether any block is registered for the hook. */
    function HasHooks(hook: HookName): (b: bool)
      reads this
      requires hook in hooks
      ensures b <==> |Blocks(hooks[hook])| > 0
    {
      hooks[hook] != []
    }

    /** `hook_blocks`: the blocks yielded, one by one, in stored order. */
    method HookBlocks(hook: HookName) returns (yielded: seq<Body>)
      requires hook in hooks
      ensures |yielded| == |hooks[hook]|
      ensures forall i :: 0 <= i < |yielded| ==> yielded[i] == hooks[hook][i].body
    {
      var h := hooks[hook];
      yielded := [];
      var i := 0;
      while i < |h|
        invariant 0 <= i <= |h|
        invariant yielded == Blocks(h)[..i]
      {
        yielded := yielded + [h[i].body];
        i := i + 1;
      }
    }

    /** `add_hook`: store a block (or, for a tag alone, a deferred call of
        the method the tag names) under the hook, replacing the block of an
        entry with the same non-nil tag or appending a new entry. */
    method AddHook(hook: HookName, tag: Option<Tag>, block: Option<Body>) returns (r: Outcome)
      requires Valid() && hook in hooks
      modifies this`hooks
      ensures Valid()
      ensures r.Fail? <==> tag.None? && block.None?
      ensures r.Fail? ==> r.error == NoHookMethodSpecified && hooks == old(hooks)
      ensures r.Pass? && block.Some? ==>
                hooks == old(hooks)[hook := Added(old(hooks)[hook], tag, block.value)]
      ensures r.Pass? && block.None? ==>
                tag.Some? && hooks == old(hooks)[hook := Added(old(hooks)[hook], tag, Send(tag.value))]
    {
      var body: Body;
      if block.None? {
        if tag.None? {
          return Fail(NoHookMethodSpecified);
        }
        body := Send(tag.value);
      } else {
        body := block.value;
      }
      var h := hooks[hook];
      var found := if tag.Some? then FindTag(h, tag.value) else None;
      if found.Some? {
        hooks := hooks[hook := h[found.value := h[found.value].(body := body)]];
      } else {
        hooks := hooks[hook := h + [Entry(tag, body)]];
      }
      AddedKeepsTagsUnique(h, tag, body);
      r := Pass;
    }

    /** `define_hook`: declare the hook with an empty list and give it the
        placeholder trigger, whatever it held before. */
    method DefineHook(hook: HookName)
      requires Valid()
      modifies this
      ensures Valid()
      ensures hooks == old(hooks)[hook := []]
      ensures triggers == old(triggers)[hook := Placeholder]
    {
      hooks := hooks[hook := []];
      triggers := triggers[hook := Placeholder];
    }

    /** `define_hook_instance_method`: the hook's instance method now calls
        `run_hooks`. */
    method DefineHookInstanceMethod(hook: HookName)
      requires Valid() && hook in hooks
      modifies this`triggers
      ensures Valid()
      ensures triggers == old(triggers)[hook := RunsHooks]
    {
      triggers := triggers[hook := RunsHooks];
    }

    /** The class method named after a declared hook: first switch the
        trigger to `run_hooks`, then register; the switch stays even when
        the registration raises. */
    method HookAccessor(hook: HookName, tag: Option<Tag>, block: Option<Body>) returns (r: Outcome)
      requires Valid() && hook in hooks
      modifies this
      ensures Valid()
      ensures triggers == old(triggers)[hook := RunsHooks]
      ensures r.Fail? <==> tag.None? && block.None?
      ensures r.Fail? ==> r.error == NoHookMethodSpecified && hooks == old(hooks)
      ensures r.Pass? && block.Some? ==>
                hooks == old(hooks)[hook := Added(old(hooks)[hook], tag, block.value)]
      ensures r.Pass? && block.None? ==>
                tag.Some? && hooks == old(hooks)[hook := Added(old(hooks)[hook], tag, Send(tag.value))]
    {
      DefineHookInstanceMethod(hook);
      r := AddHook(hook, tag, block);
    }

    /** `run_hooks`: evaluate the hook's blocks on the instance in order and
        return false at the first one whose result `== false`; `evaluated`
        lists the blocks evaluated, in order. */
    method RunHooks(hook: HookName, inst: Instance) returns (r: TriggerValue, evaluated: seq<Body>)
      requires hook in hooks
      ensures r == ReturnedFalse <==>
                exists i :: 0 <= i < |hooks[hook]| && Eval(inst, hooks[hook][i].body) == False
      ensures r != ReturnedFalse ==> r == ReturnedList(hooks[hook])
      ensures match FirstFalse(Blocks(hooks[hook]), inst)
              case Some(k) => evaluated == Blocks(hooks[hook])[..k + 1]
              case None => evaluated == Blocks(hooks[hook])
    {
      var h := hooks[hook];
      evaluated := [];
      var i := 0;
      while i < |h|
        invariant 0 <= i <= |h|
        invariant evaluated == Blocks(h)[..i]
        invariant forall j :: 0 <= j < i ==> Eval(inst, h[j].body) != False
      {
        var b := h[i].body;
        evaluated := evaluated + [b];
        if Eval(inst, b) == False {
          assert FirstFalse(Blocks(h), inst) == Some(i);
          return ReturnedFalse, evaluated;
        }
        i := i + 1;
      }
      assert evaluated == Blocks(h);
      r := ReturnedList(h);
    }

    /** Calling the instance method named after a hook: nil while it is the
        placeholder, otherwise whatever `run_hooks` returns. */
    method Trigger(hook: HookName, inst: Instance) returns (r: TriggerValue, evaluated: seq<Body>)
      requires Valid() && hook in hooks
      ensures triggers[hook] == Placeholder ==> r == ReturnedNil && evaluated == []
      ensures triggers[hook] == RunsHooks ==>
                (r == ReturnedFalse <==> FirstFalse(Blocks(hooks[hook]), inst).Some?) &&
                (r != ReturnedFalse ==> r == ReturnedList(hooks[hook]))
      ensures triggers[hook] == RunsHooks ==>
                match FirstFalse(Blocks(hooks[hook]), inst)
                case Some(k) => evaluated == Blocks(hooks[hook])[..k + 1]
                case None => evaluated == Blocks(hooks[hook])
    {
      if triggers[hook] == Placeholder {
        return ReturnedNil, [];
      }
      r, evaluated := RunHooks(hook, inst);
    }
  }

  /** Before any accessor call, a declared hook's instance method returns nil;
      after one, even one that raised, it dispatches, and with no blocks
      registered it returns a true value. */
  method TriggerBeforeAndAfterAccessor(m: Model, hook: HookName, inst: Instance)
    returns (before: TriggerValue, failed: Outcome, after: TriggerValue)
    requires m.Valid() && hook in m.hooks && m.hooks[hook] == [] && m.triggers[hook] == Placeholder
    modifies m
    ensures before == ReturnedNil
    ensures failed == Fail(NoHookMethodSpecified)
    ensures after == ReturnedList([]) && Truthy(after)
  {
    var none: seq<Body>;
    before, none := m.Trigger(hook, inst);
    failed := m.HookAccessor(hook, None, None);
    var all: seq<Body>;
    after, all := m.Trigger(hook, inst);
  }
}
