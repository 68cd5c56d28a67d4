/**
 * What the Ruler engine promises, proved about the `RulerSpec` state machine:
 * how the guard fold walks the guard list, how often dynamic blocks are
 * called, when a rule or default rule fires, and that in a singletary
 * ruleset only the first truthy rule takes effect.
 */
module RulerProperties {
  import opened RulerTypes
  import opened RulerSpec

  /** The calls made by resolving every guard of `guards` once, in order. */
  function DynamicRefs(memory: map<Name, FactRecord>, guards: seq<Name>): (refs: seq<Event>)
    decreases |guards|
  {
    if guards == [] then [] else RefOf(memory, guards[0]) + DynamicRefs(memory, guards[1..])
  }

  /**
   * The first `k` guards are declared and each is truthy when resolved after
   * the ones before it: guard `i` sees the log extended by the calls of
   * guards `0 .. i-1`.
   */
  ghost predicate HoldsBefore(answer: Oracle, st: State, guards: seq<Name>, k: nat)
    requires k <= |guards|
  {
    forall i :: 0 <= i < k ==>
      guards[i] in st.memory &&
      Truthy(ValueAt(answer, st.memory, st.log + DynamicRefs(st.memory, guards[..i]), guards[i]))
  }

  /** Guard `k` stops the walk: it is undeclared, or falsy when reached. */
  ghost predicate StopsAt(answer: Oracle, st: State, guards: seq<Name>, k: nat)
    requires k < |guards|
  {
    guards[k] !in st.memory ||
    !Truthy(ValueAt(answer, st.memory, st.log + DynamicRefs(st.memory, guards[..k]), guards[k]))
  }

  lemma {:induction false} RefsCons(memory: map<Name, FactRecord>, guards: seq<Name>, i: nat)
    requires i < |guards|
    ensures DynamicRefs(memory, guards[..i + 1]) == RefOf(memory, guards[0]) + DynamicRefs(memory, guards[1..][..i])
  {
    assert guards[..i + 1][0] == guards[0];
    assert guards[..i + 1][1..] == guards[1..][..i];
  }

  /** Once the accumulator is falsy, the rest of the fold resolves nothing. */
  lemma {:induction false} FoldFalsyInert(answer: Oracle, st: State, acc: Value, guards: seq<Name>)
    requires !Truthy(acc)
    ensures Fold(answer, st, acc, guards) == Step(Ok(if guards == [] then acc else Bool(false)), st)
    decreases |guards|
  {
    if guards != [] {
      FoldFalsyInert(answer, st, Bool(false), guards[1..]);
    }
  }

  /** The log seen by guard `j + 1` of `guards` is the log seen by guard `j` of its tail, after the head. */
  lemma SeenShift(memory: map<Name, FactRecord>, log: seq<Event>, guards: seq<Name>, j: nat)
    requires j < |guards|
    ensures (log + RefOf(memory, guards[0])) + DynamicRefs(memory, guards[1..][..j])
         == log + DynamicRefs(memory, guards[..j + 1])
  {
    RefsCons(memory, guards, j);
    assert (log + RefOf(memory, guards[0])) + DynamicRefs(memory, guards[1..][..j])
        == log + (RefOf(memory, guards[0]) + DynamicRefs(memory, guards[1..][..j]));
  }

  /** If the first `k > 0` guards hold, the head holds and the next `k - 1` hold after it. */
  lemma HoldsTail(answer: Oracle, st: State, guards: seq<Name>, k: nat)
    requires 1 <= k <= |guards| && HoldsBefore(answer, st, guards, k)
    ensures guards[0] in st.memory && Truthy(ValueAt(answer, st.memory, st.log, guards[0]))
    ensures HoldsBefore(answer, st.(log := st.log + RefOf(st.memory, guards[0])), guards[1..], k - 1)
  {
    assert guards[..0] == [];
    assert st.log + DynamicRefs(st.memory, guards[..0]) == st.log;
    var st1 := st.(log := st.log + RefOf(st.memory, guards[0]));
    forall i | 0 <= i < k - 1
      ensures guards[1..][i] in st1.memory &&
        Truthy(ValueAt(answer, st1.memory, st1.log + DynamicRefs(st1.memory, guards[1..][..i]), guards[1..][i]))
    {
      SeenShift(st.memory, st.log, guards, i);
      assert guards[i + 1] == guards[1..][i];
    }
  }

  /**
   * The guard fold, case by case: if the first `k` guards hold, then either
   * all guards held and the fold is truthy, or guard `k` is undeclared and the
   * fold raises, or guard `k` is falsy and the fold is falsy; in each case
   * exactly the dynamic references reached have been called, once each, in order.
   */
  lemma {:induction false} FoldWalk(answer: Oracle, st: State, acc: Value, guards: seq<Name>, k: nat)
    requires Truthy(acc)
    requires k <= |guards| && HoldsBefore(answer, st, guards, k)
    ensures var f := Fold(answer, st, acc, guards);
            var seen := st.log + DynamicRefs(st.memory, guards[..k]);
            (k == |guards| ==> Fires(f) && f.state == st.(log := seen)) &&
            (k < |guards| && guards[k] !in st.memory ==>
               f == Step(Err(UndeclaredFact(guards[k])), st.(log := seen))) &&
            (k < |guards| && guards[k] in st.memory && !Truthy(ValueAt(answer, st.memory, seen, guards[k])) ==>
               f.result.Ok? && !Truthy(f.result.value) &&
               f.state == st.(log := st.log + DynamicRefs(st.memory, guards[..k + 1])))
    decreases |guards|
  {
    if guards == [] {
      assert guards[..k] == [];
      assert st.log + [] == st.log;
    } else if k == 0 {
      assert guards[..0] == [];
      assert st.log + [] == st.log;
      var r := Resolve(answer, st, guards[0]);
      if r.result.Ok? && !Truthy(r.result.value) {
        FoldFalsyInert(answer, r.state, r.result.value, guards[1..]);
        SeenShift(st.memory, st.log, guards, 0);
        assert guards[1..][..0] == [];
      }
    } else {
      HoldsTail(answer, st, guards, k);
      var r := Resolve(answer, st, guards[0]);
      FoldWalk(answer, r.state, r.result.value, guards[1..], k - 1);
      SeenShift(st.memory, st.log, guards, k - 1);
      if k < |guards| {
        assert guards[k] == guards[1..][k - 1];
        SeenShift(st.memory, st.log, guards, k);
      } else {
        assert guards[1..][..k - 1] == guards[1..];
      }
    }
  }

  /** The walk of the guards always stops somewhere: at the end or at a first failing guard. */
  lemma FirstStop(answer: Oracle, st: State, guards: seq<Name>) returns (k: nat)
    ensures k <= |guards| && HoldsBefore(answer, st, guards, k)
    ensures k < |guards| ==> StopsAt(answer, st, guards, k)
  {
    k := 0;
    while k < |guards| && !StopsAt(answer, st, guards, k)
      invariant k <= |guards| && HoldsBefore(answer, st, guards, k)
    {
      k := k + 1;
    }
  }

  /**
   * A rule's guard list is satisfied exactly when every guard holds in turn;
   * the empty list always is. When it is, each dynamic reference has been
   * called exactly once.
   */
  lemma FoldFiresIff(answer: Oracle, st: State, guards: seq<Name>)
    ensures Fires(Fold(answer, st, Bool(true), guards)) <==> HoldsBefore(answer, st, guards, |guards|)
    ensures HoldsBefore(answer, st, guards, |guards|) ==>
      Fold(answer, st, Bool(true), guards).state == st.(log := st.log + DynamicRefs(st.memory, guards))
  {
    var k := FirstStop(answer, st, guards);
    FoldWalk(answer, st, Bool(true), guards, k);
    assert guards[..|guards|] == guards;
  }

  /** Resolving guards never changes anything but the log, to which it only adds calls. */
  lemma {:induction false} FoldOnlyCalls(answer: Oracle, st: State, acc: Value, guards: seq<Name>)
    ensures var f := Fold(answer, st, acc, guards);
            f.state.singletary == st.singletary && f.state.rulematched == st.rulematched &&
            f.state.memory == st.memory && |st.log| <= |f.state.log| && f.state.log[..|st.log|] == st.log &&
            forall i :: |st.log| <= i < |f.state.log| ==> f.state.log[i].Invoked?
    decreases |guards|
  {
    if guards != [] {
      if !Truthy(acc) {
        FoldOnlyCalls(answer, st, Bool(false), guards[1..]);
      } else {
        var r := Resolve(answer, st, guards[0]);
        if r.result.Ok? {
          FoldOnlyCalls(answer, r.state, r.result.value, guards[1..]);
          var f := Fold(answer, r.state, r.result.value, guards[1..]);
          assert f.state.log[..|r.state.log|] == r.state.log;
          assert r.state.log[..|st.log|] == st.log;
        }
      }
    }
  }

  /**
   * The debug trace resolves every guard without skipping: it calls each
   * dynamic reference once, up to the first undeclared guard, where it raises.
   */
  lemma {:induction false} TraceWalk(answer: Oracle, st: State, guards: seq<Name>, k: nat)
    requires k <= |guards| && forall i :: 0 <= i < k ==> guards[i] in st.memory
    requires k == |guards| || guards[k] !in st.memory
    ensures Trace(answer, st, guards) ==
      if k == |guards| then Step(Ok(()), st.(log := st.log + DynamicRefs(st.memory, guards)))
      else Step(Err(UndeclaredFact(guards[k])), st.(log := st.log + DynamicRefs(st.memory, guards[..k])))
    decreases |guards|
  {
    if guards == [] {
      assert st.log + [] == st.log;
    } else if k == 0 {
      assert guards[..0] == [];
      assert st.log + [] == st.log;
    } else {
      var r := Resolve(answer, st, guards[0]);
      TraceWalk(answer, r.state, guards[1..], k - 1);
      RefsCons(st.memory, guards, k - 1);
      assert guards[1..][..k - 1] == guards[1..] ==> guards[..k] == guards;
      if k == |guards| {
        assert guards[..k] == guards && guards[1..][..k - 1] == guards[1..];
      }
    }
  }

  /**
   * Outside the singletary short-circuit (a multi ruleset, or nothing
   * truthy matched yet), with tracing off: the action runs iff every guard
   * holds, and then its result is stored and returned; otherwise no action
   * runs and `rulematched` becomes nil (or stays as it was on a lookup failure).
   */
  lemma RuleFiresIff(answer: Oracle, st: State, guards: seq<Name>, action: Value)
    requires !(st.singletary && Truthy(st.rulematched))
    ensures var s := RuleStep(answer, false, st, guards, action);
      (HoldsBefore(answer, st, guards, |guards|) ==>
         s == Step(Ok(action), st.(rulematched := action,
                                   log := st.log + DynamicRefs(st.memory, guards) + [ActionRan(action)]))) &&
      (!HoldsBefore(answer, st, guards, |guards|) ==>
         s.state.memory == st.memory && s.state.singletary == st.singletary &&
         (s.result.Ok? ==> s.result == Ok(Nil) && s.state.rulematched == Nil) &&
         (s.result.Err? ==> s.state.rulematched == st.rulematched) &&
         |st.log| <= |s.state.log| && s.state.log[..|st.log|] == st.log &&
         forall i :: |st.log| <= i < |s.state.log| ==> s.state.log[i].Invoked?)
  {
    FoldFiresIff(answer, st, guards);
    FoldOnlyCalls(answer, st, Bool(true), guards);
  }

  /**
   * The singletary short-circuit: once a truthy result is stored, a rule
   * returns it without resolving a guard, calling a block or running its action.
   */
  lemma RuleShortCircuit(answer: Oracle, st: State, guards: seq<Name>, action: Value)
    requires st.singletary && Truthy(st.rulematched)
    ensures RuleStep(answer, false, st, guards, action) == Step(Ok(st.rulematched), st)
  {
  }

  /**
   * With tracing on, a rule calls every dynamic guard once more, before and
   * whatever the matching does, even under the singletary short-circuit.
   */
  lemma TraceExtraCall(answer: Oracle, st: State, guards: seq<Name>, action: Value)
    requires forall i :: 0 <= i < |guards| ==> guards[i] in st.memory
    requires st.singletary && Truthy(st.rulematched)
    ensures RuleStep(answer, true, st, guards, action) ==
      Step(Ok(st.rulematched), st.(log := st.log + DynamicRefs(st.memory, guards)))
  {
    TraceWalk(answer, st, guards, |guards|);
  }

  /** A rule whose result is falsy (no match, or an action returning nil/false) does not lock the ruleset. */
  lemma FalsyResultDoesNotLock(answer: Oracle, debug: bool, st: State, guards: seq<Name>, action: Value)
    requires !Truthy(st.rulematched)
    ensures var s := RuleStep(answer, debug, st, guards, action);
      !Truthy(s.state.rulematched) <==> !(s.result.Ok? && Truthy(s.result.value))
  {
    var t := if debug then Trace(answer, st, guards) else Step(Ok(()), st);
    if debug {
      TraceOnlyCalls(answer, st, guards);
    }
    if t.result.Ok? {
      FoldOnlyCalls(answer, t.state, Bool(true), guards);
    }
  }

  /** The trace changes nothing but the log, to which it only adds block calls. */
  lemma {:induction false} TraceOnlyCalls(answer: Oracle, st: State, guards: seq<Name>)
    ensures var t := Trace(answer, st, guards);
            t.state.singletary == st.singletary && t.state.rulematched == st.rulematched &&
            t.state.memory == st.memory && |st.log| <= |t.state.log| && t.state.log[..|st.log|] == st.log &&
            forall i :: |st.log| <= i < |t.state.log| ==> t.state.log[i].Invoked?
    decreases |guards|
  {
    if guards != [] {
      var r := Resolve(answer, st, guards[0]);
      if r.result.Ok? {
        TraceOnlyCalls(answer, r.state, guards[1..]);
        var t := Trace(answer, r.state, guards[1..]);
        assert t.state.log[..|r.state.log|] == r.state.log;
        assert r.state.log[..|st.log|] == st.log;
      }
    }
  }

  /**
   * `notf` agrees with guard resolution: on a static fact it is the negation
   * of the value a guard would see, and neither changes the state; on a
   * dynamic fact it raises where a guard would call the block; an undeclared
   * name fails in both.
   */
  lemma NotfNegatesResolve(answer: Oracle, st: State, name: Name)
    ensures var n := Negate(st.memory, name);
            var r := Resolve(answer, st, name);
      (n.Ok? <==> name in st.memory && st.memory[name].Static?) &&
      (n.Ok? ==> r == Step(Ok(st.memory[name].value), st) && n.value == !Truthy(r.result.value)) &&
      (n == Err(BadNotCall) <==> name in st.memory && st.memory[name].Dynamic?) &&
      (n == Err(BadNotCall) ==> r.result.Ok? && r.state.log == st.log + [Invoked(st.memory[name].block)]) &&
      (name !in st.memory ==> n == Err(UndeclaredFact(name)) && r.result == Err(UndeclaredFact(name)))
  {
    if name in st.memory && st.memory[name].Static? {
      assert st.log + [] == st.log;
    }
  }

  /** `default_rule` in a multi ruleset always raises, whatever has matched. */
  lemma DefaultRuleRejectedInMulti(st: State, action: Value)
    requires !st.singletary
    ensures DefaultRuleStep(st, action) == Step(Err(BadDefaultRule), st)
  {
  }

  /**
   * `default_rule` in a singletary ruleset: its action runs exactly when no
   * truthy result is stored, and `rulematched` is never changed. With a
   * truthy match nothing runs and the state is left as it was.
   */
  lemma DefaultRuleFallback(st: State, action: Value)
    requires st.singletary
    ensures var d := DefaultRuleStep(st, action);
      d.state.rulematched == st.rulematched && d.state.memory == st.memory &&
      (!Truthy(st.rulematched) <==> d.state.log == st.log + [ActionRan(action)]) &&
      d.result == Ok(if Truthy(st.rulematched) then st.rulematched else action)
    ensures Truthy(st.rulematched) ==> DefaultRuleStep(st, action) == Step(Ok(st.rulematched), st)
    ensures !Truthy(st.rulematched) ==>
      DefaultRuleStep(st, action) == Step(Ok(action), st.(log := st.log + [ActionRan(action)]))
  {
  }

  /** `ruleset s` empties memory and clears the match; `multi_ruleset` is `ruleset false`. */
  lemma RulesetResets(st: State, s: bool)
    ensures var r := Ruleset(st, s);
      r.singletary == s && r.rulematched == Nil && r.memory == map[] && r.log == st.log
    ensures MultiRuleset(st) == Ruleset(st, false)
  {
  }

  /**
   * `fact` inserts or overwrites one record and leaves every other entry;
   * a `false` value is stored as is, only `nil` falls back to the block.
   */
  lemma FactOverwrites(st: State, name: Name, dval: Value, blk: Value, other: Name)
    requires other != name
    ensures var s := DeclareFact(st, name, dval, blk);
      s.memory[name] == Static(if dval == Nil then blk else dval) &&
      (other in s.memory <==> other in st.memory) &&
      (other in st.memory ==> s.memory[other] == st.memory[other]) &&
      s.rulematched == st.rulematched && s.singletary == st.singletary &&
      forall b :: Calls(s.log, b) == Calls(st.log, b)
  {
    forall b ensures Calls(DeclareFact(st, name, dval, blk).log, b) == Calls(st.log, b) {
      CallsAppend(st.log, [FactBlockRan(name)], b);
      assert st.log + [] == st.log;
    }
  }

  /** `dynamic_fact` stores the block and calls nothing. */
  lemma DynamicFactStoresUncalled(st: State, name: Name, block: BlockId, other: Name)
    requires other != name
    ensures var s := DeclareDynamic(st, name, block);
      s.memory[name] == Dynamic(block) && s.log == st.log &&
      (other in s.memory <==> other in st.memory) &&
      (other in st.memory ==> s.memory[other] == st.memory[other])
  {
  }

  // ----- A ruleset's block: a sequence of engine calls -----

  /**
   * One statement of a ruleset's block: an engine call, `fact name, notf(of)`
   * (`NotfFactStmt`), a nested `ruleset s` call (`RulesetStmt`), or an
   * assignment `@DEBUG = on` of the including object (`DebugStmt`).
   */
  datatype Stmt =
    | FactStmt(name: Name, dval: Value, blk: Value)
    | DynamicFactStmt(name: Name, block: BlockId)
    | NotfFactStmt(name: Name, of: Name)
    | RuleStmt(guards: seq<Name>, action: Value)
    | DefaultRuleStmt(action: Value)
    | RulesetStmt(singletary: bool)
    | DebugStmt(on: bool)

  /** One statement, with tracing set to `debug`; a nested ruleset (its own block empty) resets the slots. */
  function Exec(answer: Oracle, debug: bool, st: State, s: Stmt): (o: Step<()>) {
    match s
    case FactStmt(name, dval, blk) => Step(Ok(()), DeclareFact(st, name, dval, blk))
    case DynamicFactStmt(name, block) => Step(Ok(()), DeclareDynamic(st, name, block))
    case NotfFactStmt(name, of) =>
      (match Negate(st.memory, of)
       case Err(e) => Step(Err(e), st)
       case Ok(b) => Step(Ok(()), DeclareFact(st, name, Bool(b), Nil)))
    case RuleStmt(guards, action) =>
      var r := RuleStep(answer, debug, st, guards, action);
      Step(if r.result.Err? then Err(r.result.error) else Ok(()), r.state)
    case DefaultRuleStmt(action) =>
      var r := DefaultRuleStep(st, action);
      Step(if r.result.Err? then Err(r.result.error) else Ok(()), r.state)
    case RulesetStmt(singletary) => Step(Ok(()), Ruleset(st, singletary))
    case DebugStmt(_) => Step(Ok(()), st)
  }

  /** Runs the statements in order, tracing as `@DEBUG` says at each; the first error aborts the block. */
  function Run(answer: Oracle, debug: bool, st: State, body: seq<Stmt>): (o: Step<()>)
    decreases |body|
  {
    if body == [] then Step(Ok(()), st)
    else
      var o := Exec(answer, debug, st, body[0]);
      var next := if body[0].DebugStmt? then body[0].on else debug;
      if o.result.Err? then o else Run(answer, next, o.state, body[1..])
  }

  /** The block opens no nested ruleset. */
  predicate NoNestedRuleset(body: seq<Stmt>) {
    forall i :: 0 <= i < |body| ==> !body[i].RulesetStmt?
  }

  /** Tracing is off at the start and never switched on. */
  predicate Untraced(debug: bool, body: seq<Stmt>) {
    !debug && forall i :: 0 <= i < |body| ==> body[i] != DebugStmt(true)
  }

  /** A nested `ruleset` call clears the stored match, so what follows is unlocked again. */
  lemma NestedRulesetUnlocks(answer: Oracle, debug: bool, st: State, s: bool, body: seq<Stmt>)
    ensures Run(answer, debug, st, [RulesetStmt(s)] + body) == Run(answer, debug, Ruleset(st, s), body)
    ensures !Truthy(Ruleset(st, s).rulematched) && Ruleset(st, s).memory == map[]
  {
    assert ([RulesetStmt(s)] + body)[1..] == body;
  }

  /**
   * One statement other than a nested ruleset, run in a locked singletary
   * state: it keeps the lock and the stored match and runs no action; with
   * tracing off it calls no block either.
   */
  lemma LockedStepIsInert(answer: Oracle, debug: bool, st: State, s: Stmt)
    requires st.singletary && Truthy(st.rulematched) && !s.RulesetStmt?
    ensures var e := Exec(answer, debug, st, s);
      e.state.singletary && e.state.rulematched == st.rulematched &&
      |st.log| <= |e.state.log| && e.state.log[..|st.log|] == st.log &&
      (forall i :: |st.log| <= i < |e.state.log| ==> !e.state.log[i].ActionRan?) &&
      (!debug ==> forall i :: |st.log| <= i < |e.state.log| ==> e.state.log[i].FactBlockRan?)
  {
    if s.RuleStmt? && debug {
      TraceOnlyCalls(answer, st, s.guards);
    }
  }

  /**
   * In a singletary ruleset whose stored result is truthy, nothing that
   * follows in the block (short of a nested `ruleset`) runs an action or
   * changes the stored result; with `@DEBUG` off throughout, nothing calls a
   * dynamic block either: only fact blocks still run.
   */
  lemma {:induction false} LockedBlockIsInert(answer: Oracle, debug: bool, st: State, body: seq<Stmt>)
    requires st.singletary && Truthy(st.rulematched) && NoNestedRuleset(body)
    ensures var o := Run(answer, debug, st, body);
      o.state.singletary && o.state.rulematched == st.rulematched &&
      |st.log| <= |o.state.log| && o.state.log[..|st.log|] == st.log &&
      (forall i :: |st.log| <= i < |o.state.log| ==> !o.state.log[i].ActionRan?) &&
      (Untraced(debug, body) ==> forall i :: |st.log| <= i < |o.state.log| ==> o.state.log[i].FactBlockRan?)
    decreases |body|
  {
    if body != [] {
      var e := Exec(answer, debug, st, body[0]);
      LockedStepIsInert(answer, debug, st, body[0]);
      if e.result.Ok? {
        var next := if body[0].DebugStmt? then body[0].on else debug;
        assert NoNestedRuleset(body[1..]) by {
          forall i | 0 <= i < |body[1..]| ensures !body[1..][i].RulesetStmt? {
            assert body[1..][i] == body[i + 1];
          }
        }
        if Untraced(debug, body) {
          assert Untraced(next, body[1..]) by {
            assert body[0] != DebugStmt(true);
            forall i | 0 <= i < |body[1..]| ensures body[1..][i] != DebugStmt(true) {
              assert body[1..][i] == body[i + 1];
            }
          }
        }
        LockedBlockIsInert(answer, next, e.state, body[1..]);
        var o := Run(answer, next, e.state, body[1..]);
        assert o.state.log[..|e.state.log|] == e.state.log;
      }
    }
  }

  /**
   * Singletary exclusivity: when the first rule to match (untraced)
   * returns a truthy result, it is the only action of the block that runs from
   * then on, unless the block opens a nested ruleset; with `@DEBUG` off no
   * dynamic block is called after it either.
   */
  lemma SingletaryExclusivity(answer: Oracle, st: State, guards: seq<Name>, action: Value, body: seq<Stmt>)
    requires st.singletary && !Truthy(st.rulematched) && Truthy(action)
    requires HoldsBefore(answer, st, guards, |guards|) && NoNestedRuleset(body)
    ensures var o := Run(answer, false, st, [RuleStmt(guards, action)] + body);
      var fired := st.log + DynamicRefs(st.memory, guards) + [ActionRan(action)];
      o.state.rulematched == action &&
      |fired| <= |o.state.log| && o.state.log[..|fired|] == fired &&
      (forall i :: |fired| <= i < |o.state.log| ==> !o.state.log[i].ActionRan?) &&
      (Untraced(false, body) ==> forall i :: |fired| <= i < |o.state.log| ==> !o.state.log[i].Invoked?)
  {
    RuleFiresIff(answer, st, guards, action);
    var s1 := RuleStep(answer, false, st, guards, action).state;
    LockedBlockIsInert(answer, false, s1, body);
    assert ([RuleStmt(guards, action)] + body)[1..] == body;
  }
}
