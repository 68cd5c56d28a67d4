# Ruler rule engine in Dafny

A model of `module Ruler` (lib/ruler.rb), a small forward-evaluation rule
engine for Ruby. A host opens a ruleset, declares facts (static values,
values computed once by a block, or dynamic facts whose block is called on
every reference), and declares rules, each of which is evaluated on the
spot: its guard facts are folded left to right and, if all are truthy, its
action runs. In a singletary ruleset (the default) the first rule whose
action returns a truthy value wins and every later rule just returns that
value; `default_rule` runs its action only if nothing truthy matched, and is
refused in a multi ruleset.

The engine's state is three thread-local slots (`:singletary`,
`:rulematched`, `:working_memory`). The model has:

- `RulerTypes` (ruler_types.dfy): Ruby values with Ruby truthiness (only
  `nil` and `false` are falsy), working-memory records `Static(value)` /
  `Dynamic(block)`, the errors, and an event log. A dynamic block is an
  oracle `answer(block, n)`: what the block returns on its (n+1)-th call, so
  blocks with side effects such as call counters are covered. The log
  records every block call, fact block and action that ran.
- `RulerSpec` (ruler_spec.dfy): the engine as a state machine, one function
  per public call, from the state before the call to its result and the
  state after it.
- `Ruler` (ruler_engine.dfy): class `Engine`, whose fields are the three
  slots and the log. Its methods overwrite the fields in place as the Ruby
  methods do, and each is proved to follow its `RulerSpec` step. `Rule` keeps
  the source's two loops: the debug trace over the guards, and the `inject`
  fold.
- `RulerProperties` (ruler_properties.dfy): what the engine promises. The
  fold is characterised guard by guard. Other lemmas give the call count of
  dynamic facts, when a rule or default rule fires, and the short-circuit.
  `Run` executes a ruleset's block as a list of statements (engine calls,
  nested `ruleset` calls and `@DEBUG` assignments). With it, singletary
  exclusivity is proved over a whole block that opens no nested ruleset; a
  nested `ruleset` clears the match, as `NestedRulesetUnlocks` shows.
- `RulerScenarios` (ruler_scenarios.dfy): the rulesets of
  spec/ruler_spec.rb, worked out on the model. The method
  `RulerScenarios.DynamicFactClient` drives the three-call ruleset of
  test_ten through `Engine` and gets the call log from the methods' contracts.

Where the code and its comments differ, the model follows the code:

- There is no scope stack. `ruleset` overwrites the slots, so a nested
  ruleset clobbers the outer one.
- There are no `BadFact` or `UnknownFact` classes. A guard naming an
  undeclared fact fails on `nil[:transient]` (a `NoMethodError`). The
  comment at lib/ruler.rb:117 says undefined facts are false, but the code
  raises. The same failure happens in `notf` and in the debug trace. The
  model raises `UndeclaredFact(name)` in all three places.
- The fold skips the guards after the first falsy one, so an undeclared
  name after a falsy guard is never looked up.
- `rule` stores its result in `:rulematched` in multi rulesets too.
- `default_rule` never stores its result.

## Model

| member | source | states |
|---|---|---|
| `Ruler.Engine.constructor` | lib/ruler.rb:20-21 | a thread with no ruleset yet: not singletary, nothing matched, empty memory, nothing logged |
| `Ruler.Engine.SetDebug` | lib/ruler.rb:120 | `@DEBUG = on` (the host's flag, read anew by each `rule`) switches tracing for later rules and leaves the engine slots as they were |
| `Ruler.Engine.Ruleset` | lib/ruler.rb:57-62 | `ruleset s` leaves memory empty, `rulematched` nil and `singletary == s`; the log is kept |
| `Ruler.Engine.MultiRuleset` | lib/ruler.rb:66-68 | `multi_ruleset` is `ruleset false` |
| `Ruler.Engine.Fact` | lib/ruler.rb:80-86 | stores `Static(dval)` for any non-nil `dval` (including false), else runs the block once (logged) and stores its result; only `name` changes in memory |
| `Ruler.Engine.DynamicFact` | lib/ruler.rb:90-92 | stores `Dynamic(block)` at `name` without calling it; log and match untouched |
| `Ruler.Engine.Notf` | lib/ruler.rb:98-104 | changes nothing; static fact with value v gives `!Truthy(v)`, dynamic fact raises `BadNotCall`, undeclared name fails the lookup |
| `Ruler.Engine.Resolve` | lib/ruler.rb:130 | `conditional_call`: a static value is returned as is; a dynamic block is called once, with the call logged |
| `Ruler.Engine.Trace` | lib/ruler.rb:119-126 | the debug loop resolves every guard in order and stops at the first undeclared one |
| `Ruler.Engine.Rule` | lib/ruler.rb:118-135 | trace (if debug), singletary short-circuit, `inject` fold, then `rulematched` := action result or nil, returned |
| `Ruler.Engine.DefaultRule` | lib/ruler.rb:140-147 | raises `BadDefaultRule` outside singletary mode; else runs the action iff nothing truthy matched; never changes `rulematched` |
| `RulerProperties.FoldFalsyInert` | lib/ruler.rb:131 | once the accumulator is falsy, no further guard is resolved and the fold stays falsy |
| `RulerProperties.FoldWalk` | lib/ruler.rb:130-131 | if the first k guards hold, the fold either fires (k = all), raises at undeclared guard k, or is falsy at guard k; only the dynamic references reached are called, once each, in order |
| `RulerProperties.FoldFiresIff` | lib/ruler.rb:130-133 | the fold is truthy iff every guard holds in turn (the empty list always fires); then each dynamic reference was called exactly once |
| `RulerProperties.FoldOnlyCalls` | lib/ruler.rb:130-131 | resolving guards changes nothing but the log, and adds only block calls to it |
| `RulerProperties.TraceWalk` | lib/ruler.rb:119-126 | the debug trace calls every dynamic guard once, without skipping, up to the first undeclared guard, where it raises |
| `RulerProperties.TraceOnlyCalls` | lib/ruler.rb:119-124 | the trace leaves memory, mode and match untouched and only appends block calls to the log |
| `RulerProperties.RuleFiresIff` | lib/ruler.rb:127-134 | with `@DEBUG` off, outside the short-circuit (multi ruleset or no truthy match yet): the action runs and its result is stored and returned iff all guards hold; otherwise `rulematched` becomes nil (unchanged on a lookup failure) and only block calls are logged |
| `RulerProperties.RuleShortCircuit` | lib/ruler.rb:127-128 | with `@DEBUG` off, singletary with a truthy match: `rule` returns it and changes nothing, with no guard resolved, no block called and no action run (with `@DEBUG` on see `TraceExtraCall`) |
| `RulerProperties.TraceExtraCall` | lib/ruler.rb:119-128 | with debug on, even a short-circuited rule calls each dynamic guard once |
| `RulerProperties.FalsyResultDoesNotLock` | lib/ruler.rb:127-133 | from an unlocked state, a rule whose result is nil/false leaves `rulematched` falsy, so later rules still run |
| `RulerProperties.NotfNegatesResolve` | lib/ruler.rb:98-104 | `notf` of a static fact is the negation of what a guard resolves it to; it raises `BadNotCall` exactly on dynamic facts; both fail on undeclared names |
| `RulerProperties.DefaultRuleRejectedInMulti` | lib/ruler.rb:141 | in a multi ruleset `default_rule` always raises `BadDefaultRule` and changes nothing |
| `RulerProperties.DefaultRuleFallback` | lib/ruler.rb:142-146 | in a singletary ruleset the action runs iff no truthy match is stored, and then it alone is logged; with a truthy match the stored match is returned and the state, log included, is unchanged; `rulematched` never changes |
| `RulerProperties.RulesetResets` | lib/ruler.rb:57-68 | reset on entry: empty memory, nil match, the given mode; `multi_ruleset` equals `ruleset false` |
| `RulerProperties.FactOverwrites` | lib/ruler.rb:80-86 | `fact` overwrites the record at `name` (false is kept, only nil falls back to the block), leaves every other entry and calls no dynamic block |
| `RulerProperties.DynamicFactStoresUncalled` | lib/ruler.rb:88-92 | `dynamic_fact` stores the block at `name` only and calls nothing |
| `RulerProperties.LockedStepIsInert` | lib/ruler.rb:127-128 | in a singletary ruleset with a truthy match, any statement but a nested `ruleset` keeps the match and runs no action; with `@DEBUG` off it calls no dynamic block |
| `RulerProperties.LockedBlockIsInert` | lib/ruler.rb:127-128 | in a singletary ruleset with a truthy match, for a block with no nested `ruleset` call: no later statement runs an action or changes the match, whatever `@DEBUG` is; if `@DEBUG` stays off, none calls a dynamic block either |
| `RulerProperties.NestedRulesetUnlocks` | lib/ruler.rb:57-62 | a nested `ruleset` call inside a block resets the slots, clearing the match, and the block goes on from the reset state |
| `RulerProperties.SingletaryExclusivity` | lib/ruler.rb:127-133 | with `@DEBUG` off for that rule and no nested `ruleset` in the rest of the block: when the first matching rule returns a truthy value, its action is the last one that runs in the block; if `@DEBUG` stays off, no dynamic block is called after it |
| `RulerScenarios.SimpleRuleThenDefault` | spec/ruler_spec.rb:10-23 | the rule fires with true and the default rule returns that match without running |
| `RulerScenarios.OnlyFirstMatchFires` | spec/ruler_spec.rb:25-40 | of two matching rules only the first action runs; the second returns the first's result |
| `RulerScenarios.FalseGuardThenMatch` | spec/ruler_spec.rb:42-60 | the rule with a false third guard returns nil without running; the next rule, all guards true, fires with true |
| `RulerScenarios.FactBlockRunsOnce` | spec/ruler_spec.rb:62-74 | a fact computed by a block runs the block once at declaration and can guard a rule |
| `RulerScenarios.DefaultRuleRespected` | spec/ruler_spec.rb:76-88 | a false guard gives nil; the default rule then runs and returns true |
| `RulerScenarios.NotfOfFalseFact` | spec/ruler_spec.rb:90-99 | `notf` of a false fact stores true and the rule on it fires |
| `RulerScenarios.MultiRulesetFiresAll` | spec/ruler_spec.rb:101-116 | in a multi ruleset both matching rules run their actions, in order |
| `RulerScenarios.DocumentedRuleFires` | spec/ruler_spec.rb:118-131 | a rule with a documentation string fires as usual: the block completes with the match stored and one action logged |
| `RulerScenarios.DefaultRuleInMultiRaises` | spec/ruler_spec.rb:133-139 | a default rule in a multi ruleset raises `BadDefaultRule` |
| `RulerScenarios.DynamicFactCalledPerReference` | spec/ruler_spec.rb:141-158 | `[:one, :wrong]` then `[:one, :one, :wrong]` call the dynamic block three times; both rules return nil |
| `RulerScenarios.NotfOnDynamicRaises` | spec/ruler_spec.rb:160-172 | `notf` on a dynamic fact raises `BadNotCall` before the default rule is reached |

## Left out

- RulerProperties.LockedBlockIsInert and RulerProperties.SingletaryExclusivity: stated for blocks without a nested `ruleset` call, which clears the match (`NestedRulesetUnlocks`); SingletaryExclusivity also assumes `@DEBUG` is off for the first firing rule, and the no-block-call part needs it off for the rest of the block (with it on, each dynamic guard is called by the trace, `TraceExtraCall`).
- Thread-local storage and thread isolation: the state is one `Engine` object.
- Output of the debug trace (`puts`): the trace's guard resolutions and their block calls are modelled; the printing is not.
- Ruby blocks as code: fact blocks, dynamic blocks and actions are abstracted to the values they return (an oracle for dynamic blocks). An action that calls back into the engine is not modelled, such as one that defines facts or opens a nested ruleset.
- `LocalJumpError` when `fact`, `rule` or `default_rule` needs its block and none was given: every call is given one.
- The return value of `ruleset` is the value of its block's last expression, which is host code. The engine calls return their results; `RulerProperties.Run` reports only whether the block completed.
- Ruler.Engine.constructor: starts from an empty memory, whereas in Ruby the slots are nil before the first `ruleset`, so `fact` (lib/ruler.rb:82, :84) and `dynamic_fact` (lib/ruler.rb:91) would raise on the nil memory; that failure is not modelled.
- The docstring argument of `rule`, which is ignored.
- Ruby values other than nil, booleans, integers and strings; error message texts and the `RulerError` superclass.
- bin/example.rb (host demo with console output and a floating-point comparison).
