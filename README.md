# Sequel::Model lifecycle hooks

This project models the hook registry and dispatcher of Sequel::Model
(`lib/sequel_model/hooks.rb`). Each model class has a table, `@hooks`, that
maps a hook name (such as `before_save`) to an ordered list of `[tag, block]`
pairs. Each declared hook also has a class-level accessor and an
instance-level trigger method.

- The accessor registers a block. A tag given without a block registers a
  deferred call of the instance method that the tag names. A non-nil tag
  that is already in the list has its block replaced in place. Anything else
  is appended.
- The trigger starts as an empty placeholder that returns `nil`. The first
  accessor call turns it into a call of `run_hooks`.
- `run_hooks` evaluates the blocks in order on the instance. It stops and
  returns `false` at the first block whose result `== false`. A `nil` result
  does not stop it.

Layout:

- `hook_spec.dfy`, module `HookSpec`: the values (entries, bodies, block
  results, the instance) and the pure functions that specify one hook's
  list. `Added` is what `add_hook` does to a list, `Blocks` is what
  `hook_blocks` yields, and `FirstFalse` is where `run_hooks` stops. The
  lemmas about them are here too.
- `model_hooks.dfy`, module `ModelHooks`: the default hook names, and the
  class `Model`. `Model` has two fields: `hooks`, the `@hooks` table, and
  `triggers`, which says for each declared hook whether its instance method
  is the placeholder or calls `run_hooks`. Its methods are `define_hook`,
  `define_hook_instance_method`, `add_hook`, the accessor, `has_hooks?`,
  `hook_blocks`, `run_hooks`, the trigger, and the constructor that runs the
  default-hook setup loop.

Points of the source's behaviour worth noting:

- When no block aborts, `run_hooks` returns the hook's list itself. This is
  the value of `each`, and Ruby treats it as true even when the list is
  empty. It does not return the literal `true`.
- The placeholder trigger returns `nil`, not `true`.
- Declaring a hook again resets its list to empty. It also resets its
  trigger to the placeholder, because `define_hook` always re-runs
  `class_eval("def hook; end")`.

## Model

| member | source | states |
|---|---|---|
| HookSpec.FindTag | lib/sequel_model/hooks.rb:32 | the result is the index of the first entry that carries the tag. None means that no entry carries it. |
| HookSpec.Added | lib/sequel_model/hooks.rb:23-36 | with a nil tag, or a tag that is not in the list, the entry `[tag, body]` is appended. Otherwise the length stays the same, and only the first entry with that tag changes: it keeps its position and tag and takes the new body. |
| HookSpec.AddedKeepsTagsUnique | lib/sequel_model/hooks.rb:32-35 | replace-or-append keeps each non-nil tag unique within a list |
| HookSpec.ReRegisteringTagReplaces | lib/sequel_model/hooks.rb:32-33 | registering a tag with b1 and then with b2 gives the same list as registering it with b2 once |
| HookSpec.UntaggedBlocksInRegistrationOrder | lib/sequel_model/hooks.rb:35 | untagged registrations are yielded in exactly the order in which they were made, after the blocks already there |
| HookSpec.TagOnlyRegistrationCallsMethod | lib/sequel_model/hooks.rb:27-29 | a tag-only registration stores a body that is resolved at dispatch as the instance method named by the tag. If that method returns false, dispatch aborts. |
| HookSpec.Blocks | lib/sequel_model/hooks.rb:17-19 | the blocks of a list in stored order, without tags: the same length, and the i-th block is the i-th entry's body |
| HookSpec.FirstFalse | lib/sequel_model/hooks.rb:71-75 | the index of the first body whose result is `false`, and every earlier result is not `false`. None means that no result is `false`. |
| ModelHooks.DefaultHooksDistinct | lib/sequel_model/hooks.rb:4-9 | there are 13 default hook names, they are pairwise distinct, and the public and private lists are disjoint |
| ModelHooks.Model.constructor | lib/sequel_model/hooks.rb:79-81 | after setup, exactly the 13 default hooks are declared, each with an empty list and the placeholder trigger |
| ModelHooks.Model.HasHooks | lib/sequel_model/hooks.rb:12-14 | true iff the hook has at least one block |
| ModelHooks.Model.HookBlocks | lib/sequel_model/hooks.rb:17-19 | yields exactly the hook's blocks, in stored order, without their tags |
| ModelHooks.Model.AddHook | lib/sequel_model/hooks.rb:26-37 | raises 'No hook method specified' iff there is neither a tag nor a block, and then leaves the table unchanged. Otherwise it stores the block, or `Send(tag)` for a tag alone, as `Added` says. Other hooks and the triggers do not change, and tags stay unique. |
| ModelHooks.Model.DefineHook | lib/sequel_model/hooks.rb:56-60 | the hook's list becomes empty and its trigger becomes the placeholder, whatever they were before. Other hooks do not change. |
| ModelHooks.Model.DefineHookInstanceMethod | lib/sequel_model/hooks.rb:63-65 | the hook's trigger becomes a call of `run_hooks`, and nothing else changes |
| ModelHooks.Model.HookAccessor | lib/sequel_model/hooks.rb:58 | the trigger becomes a call of `run_hooks` even when the registration then raises. The table changes exactly as in `AddHook`. |
| ModelHooks.Model.RunHooks | lib/sequel_model/hooks.rb:73-75 | returns false iff some block's result is `false`, and returns the hook's list otherwise. The blocks evaluated are exactly those up to and including the first `false` one, or all of them. |
| ModelHooks.Model.Trigger | lib/sequel_model/hooks.rb:58-64 | returns nil and evaluates nothing while the trigger is the placeholder. Otherwise it returns false iff some block's result is `false`, and returns the hook's list otherwise. It evaluates exactly the blocks up to and including the first `false` one, or all of them if none is `false`. |
| ModelHooks.TriggerBeforeAndAfterAccessor | lib/sequel_model/hooks.rb:58-64 | for a hook with no blocks, the trigger returns nil before any accessor call. An accessor call with neither a tag nor a block raises. Afterwards the trigger returns the empty list, which is a true value. |

## Left out

- Runtime method generation (`instance_eval`/`class_eval` of strings) is
  not modelled as such. It becomes the `triggers` field and the explicit
  `HookAccessor` and `Trigger` methods.
- `private_class_method` and `private` only control visibility, so they are
  not modelled.
- Where `@hooks` is first created, and what a subclass inherits, are not
  part of this model. The constructor starts from an empty table.
- Looking up a hook that was never declared raises `NoMethodError` in
  Ruby. Here that is a precondition (`hook in hooks`).
- Reflection (`send tag`, `instance_eval(&block)`) is not modelled. The
  instance is a pair of functions, one giving the result of each named
  method and one giving the result of each block. So a block's side effects
  on the instance cannot change what later blocks return, and exceptions
  raised inside blocks are not modelled.
- Changes to the table made by a block while its hook is being dispatched
  are not modelled.
- Hook names and tags are taken to be Ruby Symbols, and both are modelled
  as strings. Ruby does not treat the String `"x"` and the Symbol `:x` as
  the same key. `define_hook("x")` keys `@hooks` by the String, but the
  generated accessor and trigger look it up by `:x`, so registering raises
  `NoMethodError`. Tags `:x` and `"x"` are different tags, so registering
  both appends two entries. The model takes them to be the same in both
  cases.
- A tag of literal `false` is folded into "no tag". `add_hook` treats
  `false` like `nil` (`unless tag`, `if tag && ...`), and `hook_blocks`
  does not yield tags. The fold can be seen in one place: the list that
  `run_hooks` returns when nothing aborts. Ruby's list holds the pair
  `[false, block]`, and the model's holds `Entry(None, block)`.
- `hook_blocks` yields to a caller-supplied block. `HookBlocks` returns the
  sequence of blocks yielded instead.
