/** Values of Sequel::Model's lifecycle-hook registry and the pure functions
    that specify it: what `add_hook` does to one hook's list, which blocks
    `hook_blocks` yields, and where `run_hooks` stops. */
module HookSpec {

  datatype Option<T> = None | Some(value: T)

  /** A hook name such as "before_save" (a Ruby symbol). */
  type HookName = string

  /** A tag: the optional key of a registered block; also the name of the
      instance method that a tag-only registration calls. */
  type Tag = string

  /** Identity of a block passed to a hook accessor. */
  type BlockId = nat

  /** What is stored for one registration: either a block given by the caller,
      or the deferred `proc { send tag }` built for a tag-only registration. */
  datatype Body = Block(id: BlockId) | Send(name: Tag)

  /** One `[tag, block]` pair of a hook's list. */
  datatype Entry = Entry(tag: Option<Tag>, body: Body)

  /** The result of evaluating a body, as far as dispatch can tell:
      the literal `false`, `nil`, or any other object (`true` included). */
  datatype Value = False | Nil | Other

  /** The instance a hook runs on: the results of its zero-argument methods,
      by name, and the results of `instance_eval` of each block on it. */
  datatype Instance = Instance(callMethod: Tag -> Value, evalBlock: BlockId -> Value)

  /** Raised by `add_hook` when neither a tag nor a block is given. */
  datatype Error = NoHookMethodSpecified

  datatype Outcome = Pass | Fail(error: Error)

  /** Evaluating a body on an instance; a deferred body is resolved only now. */
  function Eval(inst: Instance, b: Body): Value
  {
    match b
    case Block(id) => inst.evalBlock(id)
    case Send(m) => inst.callMethod(m)
  }

  /** Non-nil tags occur at most once in a hook's list. */
  ghost predicate UniqueTags(h: seq<Entry>)
  {
    forall i, j :: 0 <= i < j < |h| && h[i].tag.Some? ==> h[i].tag != h[j].tag
  }

  /** `h.find { |x| x[0] == tag }`: the first entry carrying tag `t`. */
  function FindTag(h: seq<Entry>, t: Tag): (r: Option<nat>)
    ensures r.Some? ==> r.value < |h| && h[r.value].tag == Some(t)
    ensures r.Some? ==> forall j :: 0 <= j < r.value ==> h[j].tag != Some(t)
    ensures r.None? ==> forall j :: 0 <= j < |h| ==> h[j].tag != Some(t)
  {
    if h == [] then None
    else if h[0].tag == Some(t) then Some(0)
    else
      match FindTag(h[1..], t)
      case Some(i) => Some(i + 1)
      case None => None
  }

  /** The list after `add_hook` has stored `body` under `tag`: a non-nil tag
      already present has its block replaced where it stands, anything else
      is appended. */
  function Added(h: seq<Entry>, tag: Option<Tag>, body: Body): (r: seq<Entry>)
    ensures tag.None? || (forall i :: 0 <= i < |h| ==> h[i].tag != tag) ==>
              r == h + [Entry(tag, body)]
    ensures tag.Some? && (exists i :: 0 <= i < |h| && h[i].tag == tag) ==>
              |r| == |h| &&
              exists i :: 0 <= i < |h| && h[i].tag == tag &&
                          (forall j :: 0 <= j < i ==> h[j].tag != tag) &&
                          r == h[i := Entry(tag, body)]
  {
    if tag.None? then h + [Entry(tag, body)]
    else
      match FindTag(h, tag.value)
      case Some(i) => h[i := h[i].(body := body)]
      case None => h + [Entry(tag, body)]
  }

  /** Registering each body in turn without a tag. */
  function AddedUntagged(h: seq<Entry>, bodies: seq<Body>): seq<Entry>
    decreases |bodies|
  {
    if bodies == [] then h else AddedUntagged(Added(h, None, bodies[0]), bodies[1..])
  }

  /** The blocks of a hook's list, in stored order, without their tags. */
  function Blocks(h: seq<Entry>): (r: seq<Body>)
    ensures |r| == |h|
    ensures forall i :: 0 <= i < |h| ==> r[i] == h[i].body
  {
    if h == [] then [] else [h[0].body] + Blocks(h[1..])
  }

  /** Where `run_hooks` stops: the first body whose result `== false`. */
  function FirstFalse(bodies: seq<Body>, inst: Instance): (r: Option<nat>)
    ensures r.Some? ==> r.value < |bodies| && Eval(inst, bodies[r.value]) == False
    ensures r.Some? ==> forall j :: 0 <= j < r.value ==> Eval(inst, bodies[j]) != False
    ensures r.None? ==> forall j :: 0 <= j < |bodies| ==> Eval(inst, bodies[j]) != False
  {
    if bodies == [] then None
    else if Eval(inst, bodies[0]) == False then Some(0)
    else
      match FirstFalse(bodies[1..], inst)
      case Some(i) => Some(i + 1)
      case None => None
  }

  /** Replace-or-append keeps every non-nil tag unique within a list. */
  lemma AddedKeepsTagsUnique(h: seq<Entry>, tag: Option<Tag>, body: Body)
    requires UniqueTags(h)
    ensures UniqueTags(Added(h, tag, body))
  {
  }

  /** Registering a tag twice leaves one entry, where the first registration
      put it, holding the second block. */
  lemma ReRegisteringTagReplaces(h: seq<Entry>, t: Tag, b1: Body, b2: Body)
    ensures Added(Added(h, Some(t), b1), Some(t), b2) == Added(h, Some(t), b2)
  {
    var once := Added(h, Some(t), b1);
    match FindTag(h, t)
    case Some(i) =>
      assert once == h[i := Entry(Some(t), b1)];
      assert once[i].tag == Some(t);
      assert forall j :: 0 <= j < i ==> once[j] == h[j];
      assert FindTag(once, t) == Some(i);
    case None =>
      assert once == h + [Entry(Some(t), b1)];
      assert once[|h|].tag == Some(t);
      assert forall j :: 0 <= j < |h| ==> once[j] == h[j];
      assert FindTag(once, t) == Some(|h|);
  }

  /** Untagged registrations run in the order they were made. */
  lemma {:induction false} UntaggedBlocksInRegistrationOrder(h: seq<Entry>, bodies: seq<Body>)
    ensures Blocks(AddedUntagged(h, bodies)) == Blocks(h) + bodies
    decreases |bodies|
  {
    if bodies != [] {
      var h' := Added(h, None, bodies[0]);
      assert Blocks(h') == Blocks(h) + [bodies[0]];
      UntaggedBlocksInRegistrationOrder(h', bodies[1..]);
      assert [bodies[0]] + bodies[1..] == bodies;
    }
  }

  /** A tag-only registration dispatches to the instance method the tag names:
      if that method returns false, running the hook's blocks aborts. */
  lemma TagOnlyRegistrationCallsMethod(h: seq<Entry>, t: Tag, inst: Instance)
    requires inst.callMethod(t) == False
    ensures FirstFalse(Blocks(Added(h, Some(t), Send(t))), inst).Some?
  {
    var r := Added(h, Some(t), Send(t));
    var k: nat;
    if FindTag(h, t).Some? {
      k := FindTag(h, t).value;
      assert r == h[k := Entry(Some(t), Send(t))];
    } else {
      k := |h|;
      assert r == h + [Entry(Some(t), Send(t))];
    }
    assert Eval(inst, Blocks(r)[k]) == False;
  }
}
