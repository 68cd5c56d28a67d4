/**
 * `module Ruler` as an object: the thread-local slots become fields that
 * every call reads or overwrites in place. Each method is proved to do what
 * the matching `RulerSpec` step function says.
 */
module Ruler {
  import opened RulerTypes
  import RulerSpec

  class Engine {
    var singletary: bool
    var rulematched: Value
    var memory: map<Name, FactRecord>
    /** Everything the engine has done so far; counts the calls of each dynamic block. */
    var log: seq<Event>
    /** What the dynamic blocks return, call by call. */
    const answer: Oracle
    /** The including object's `@DEBUG` flag, which the host may set at any time. */
    var debug: bool

    /** The engine state as a value. */
    function Snapshot(): (s: RulerSpec.State)
      reads this
    {
      RulerSpec.State(singletary, rulematched, memory, log)
    }

    /**
     * A thread on which no ruleset has run yet. Ruby's slots are nil there, and a
     * `fact` or `dynamic_fact` would raise on the nil memory; the engine starts
     * from an empty memory instead.
     */
    constructor (answer: Oracle, debug: bool)
      ensures singletary == false && rulematched == Nil && memory == map[] && log == []
      ensures this.answer == answer && this.debug == debug
    {
      singletary, rulematched, memory, log := false, Nil, map[], [];
      this.answer, this.debug := answer, debug;
    }

    /** `@DEBUG = on`: switches the trace of later rules; the engine slots are untouched. */
    method SetDebug(on: bool)
      modifies this`debug
      ensures debug == on && Snapshot() == old(Snapshot())
    {
      debug := on;
    }

    /** `ruleset s`: resets the slots; the caller's block then issues the declarations. */
    method Ruleset(s: bool)
      modifies this`singletary, this`rulematched, this`memory, this`log
      ensures Snapshot() == RulerSpec.Ruleset(old(Snapshot()), s)
      ensures singletary == s && rulematched == Nil && memory == map[] && log == old(log)
    {
      singletary := s;
      rulematched := Nil;
      memory := map[];
    }

    /** `multi_ruleset`. */
    method MultiRuleset()
      modifies this`singletary, this`rulematched, this`memory, this`log
      ensures Snapshot() == RulerSpec.MultiRuleset(old(Snapshot()))
      ensures !singletary && rulematched == Nil && memory == map[] && log == old(log)
    {
      Ruleset(false);
    }

    /** `fact name, dval` or `fact name do blk end` (`blk` is what the block returns). */
    method Fact(name: Name, dval: Value, blk: Value)
      modifies this`singletary, this`rulematched, this`memory, this`log
      ensures Snapshot() == RulerSpec.DeclareFact(old(Snapshot()), name, dval, blk)
      ensures memory == old(memory)[name := Static(if dval == Nil then blk else dval)]
      ensures log == old(log) + (if dval == Nil then [FactBlockRan(name)] else [])
      ensures singletary == old(singletary) && rulematched == old(rulematched)
    {
      if dval == Nil {
        log := log + [FactBlockRan(name)];
        memory := memory[name := Static(blk)];
      } else {
        memory := memory[name := Static(dval)];
      }
    }

    /** `dynamic_fact name do ... end`: stores the block without calling it. */
    method DynamicFact(name: Name, block: BlockId)
      modifies this`singletary, this`rulematched, this`memory, this`log
      ensures Snapshot() == RulerSpec.DeclareDynamic(old(Snapshot()), name, block)
      ensures memory == old(memory)[name := Dynamic(block)]
      ensures log == old(log) && singletary == old(singletary) && rulematched == old(rulematched)
    {
      memory := memory[name := Dynamic(block)];
    }

    /** `notf name`: a query that changes nothing. */
    method Notf(name: Name) returns (r: Result<bool>)
      ensures r == RulerSpec.Negate(memory, name)
      ensures name !in memory ==> r == Err(UndeclaredFact(name))
      ensures name in memory && memory[name].Dynamic? ==> r == Err(BadNotCall)
      ensures name in memory && memory[name].Static? ==> r == Ok(!Truthy(memory[name].value))
    {
      if name !in memory {
        r := Err(UndeclaredFact(name));
      } else if memory[name].Dynamic? {
        r := Err(BadNotCall);
      } else {
        r := Ok(!Truthy(memory[name].value));
      }
    }

    /** `conditional_call.call(name)` (and the lookup of the debug lambda). */
    method Resolve(name: Name) returns (r: Result<Value>)
      modifies this`singletary, this`rulematched, this`memory, this`log
      ensures RulerSpec.Step(r, Snapshot()) == RulerSpec.Resolve(answer, old(Snapshot()), name)
    {
      if name !in memory {
        return Err(UndeclaredFact(name));
      }
      match memory[name]
      case Static(v) =>
        r := Ok(v);
      case Dynamic(b) =>
        r := Ok(answer(b, Calls(log, b)));
        log := log + [Invoked(b)];
    }

    /** The debug trace of `rule`: resolves every guard, in order. */
    method Trace(guards: seq<Name>) returns (r: Result<()>)
      modifies this`singletary, this`rulematched, this`memory, this`log
      ensures RulerSpec.Step(r, Snapshot()) == RulerSpec.Trace(answer, old(Snapshot()), guards)
    {
      var i := 0;
      while i < |guards|
        invariant 0 <= i <= |guards|
        invariant RulerSpec.Trace(answer, old(Snapshot()), guards)
               == RulerSpec.Trace(answer, Snapshot(), guards[i..])
      {
        assert guards[i..][0] == guards[i] && guards[i..][1..] == guards[i + 1..];
        var v := Resolve(guards[i]);
        if v.Err? {
          return Err(v.error);
        }
        i := i + 1;
      }
      r := Ok(());
    }

    /** `rule guards do action end` (`action` is what the block returns). */
    method Rule(guards: seq<Name>, action: Value) returns (r: Result<Value>)
      modifies this`singletary, this`rulematched, this`memory, this`log
      ensures RulerSpec.Step(r, Snapshot()) == RulerSpec.RuleStep(answer, debug, old(Snapshot()), guards, action)
    {
      if debug {
        var t := Trace(guards);
        if t.Err? {
          return Err(t.error);
        }
      }
      if singletary && Truthy(rulematched) {
        return Ok(rulematched);
      }
      ghost var start := Snapshot();
      var acc := Bool(true);
      var i := 0;
      while i < |guards|
        invariant 0 <= i <= |guards|
        invariant RulerSpec.Fold(answer, start, Bool(true), guards)
               == RulerSpec.Fold(answer, Snapshot(), acc, guards[i..])
      {
        assert guards[i..][0] == guards[i] && guards[i..][1..] == guards[i + 1..];
        if Truthy(acc) {
          var v := Resolve(guards[i]);
          if v.Err? {
            return Err(v.error);
          }
          acc := v.value;
        } else {
          acc := Bool(false);
        }
        i := i + 1;
      }
      if Truthy(acc) {
        log := log + [ActionRan(action)];
        rulematched := action;
      } else {
        rulematched := Nil;
      }
      r := Ok(rulematched);
    }

    /** `default_rule do action end`. */
    method DefaultRule(action: Value) returns (r: Result<Value>)
      modifies this`singletary, this`rulematched, this`memory, this`log
      ensures RulerSpec.Step(r, Snapshot()) == RulerSpec.DefaultRuleStep(old(Snapshot()), action)
      ensures !old(singletary) ==> r == Err(BadDefaultRule)
      ensures rulematched == old(rulematched) && memory == old(memory) && singletary == old(singletary)
    {
      if !singletary {
        return Err(BadDefaultRule);
      }
      if !Truthy(rulematched) {
        log := log + [ActionRan(action)];
        r := Ok(action);
      } else {
        r := Ok(rulematched);
      }
    }
  }
}
