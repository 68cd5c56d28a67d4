/** The rulesets of the engine's own test suite, evaluated on the model. */
module RulerScenarios {
  import opened RulerTypes
  import opened RulerSpec
  import opened RulerProperties
  import Ruler

  /** A thread that has not run a ruleset yet. */
  const Fresh: State := State(false, Nil, map[], [])

  /** Every dynamic block returns true (`checking_method` stubbed to return true). */
  function AlwaysTrue(b: BlockId, n: nat): Value { Bool(true) }

  /** A simple rule fires; the default rule then returns the stored match. */
  lemma SimpleRuleThenDefault()
    ensures var s := DeclareFact(Ruleset(Fresh, true), "firstone", Bool(true), Nil);
            var r := RuleStep(AlwaysTrue, false, s, ["firstone"], Bool(true));
            var d := DefaultRuleStep(r.state, Bool(false));
            r.result == Ok(Bool(true)) && d.result == Ok(Bool(true)) &&
            d.state.log == [ActionRan(Bool(true))]
  {
  }

  /** Only the first of two matching rules runs its action. */
  lemma OnlyFirstMatchFires()
    ensures var s := DeclareFact(Ruleset(Fresh, true), "firstone", Bool(true), Nil);
            var r1 := RuleStep(AlwaysTrue, false, s, ["firstone"], Str("this should be here"));
            var r2 := RuleStep(AlwaysTrue, false, r1.state, ["firstone"], Str("this should not be here"));
            r2.result == Ok(Str("this should be here")) &&
            r2.state.log == [ActionRan(Str("this should be here"))]
  {
  }

  /** The first rule fails on its false third guard and returns nil; the second fires. */
  lemma FalseGuardThenMatch()
    ensures var s0 := DeclareFact(DeclareFact(DeclareFact(Ruleset(Fresh, true),
                        "firstone", Bool(true), Nil), "secondone", Bool(true), Nil), "thirdone", Bool(false), Nil);
            var s := DeclareFact(DeclareFact(DeclareFact(s0,
                        "fourthone", Bool(true), Nil), "fifthone", Bool(true), Nil), "sixthone", Bool(true), Nil);
            var r1 := RuleStep(AlwaysTrue, false, s, ["firstone", "secondone", "thirdone", "fourthone", "fifthone"], Bool(false));
            var r2 := RuleStep(AlwaysTrue, false, r1.state, ["firstone", "secondone", "sixthone", "fourthone", "fifthone"], Bool(true));
            r1.result == Ok(Nil) && r2.result == Ok(Bool(true)) && r2.state.log == [ActionRan(Bool(true))]
  {
  }

  /** A fact computed by its block is computed once, at declaration, and can then guard a rule. */
  lemma FactBlockRunsOnce()
    ensures var s0 := DeclareFact(Ruleset(Fresh, true), "firstone", Nil, Bool(true));
            var s := DeclareFact(DeclareFact(s0, "secondone", Bool(true), Nil), "thirdone", Bool(true), Nil);
            var r := RuleStep(AlwaysTrue, false, s, ["firstone", "secondone", "thirdone"], Bool(true));
            r.result == Ok(Bool(true)) && r.state.log == [FactBlockRan("firstone"), ActionRan(Bool(true))]
  {
  }

  /** A falsy guard stops the first rule; the default rule then runs and its result is returned. */
  lemma DefaultRuleRespected()
    ensures var s := DeclareFact(Ruleset(Fresh, true), "firstone", Bool(false), Nil);
            var r := RuleStep(AlwaysTrue, false, s, ["firstone"], Bool(false));
            var d := DefaultRuleStep(r.state, Bool(true));
            r.result == Ok(Nil) && d.result == Ok(Bool(true)) && d.state.log == [ActionRan(Bool(true))]
  {
  }

  /** `fact :secondone, notf(:firstone)` with `firstone` false makes the rule on `secondone` fire. */
  lemma NotfOfFalseFact()
    ensures var s := DeclareFact(Ruleset(Fresh, true), "firstone", Bool(false), Nil);
            var o := Run(AlwaysTrue, false, s, [NotfFactStmt("secondone", "firstone")]);
            o.result == Ok(()) && o.state.memory["secondone"] == Static(Bool(true)) &&
            RuleStep(AlwaysTrue, false, o.state, ["secondone"], Bool(true)).result == Ok(Bool(true))
  {
  }

  /** A multi ruleset runs the actions of both matching rules, and the last returns true. */
  lemma MultiRulesetFiresAll()
    ensures var s := DeclareFact(DeclareFact(MultiRuleset(Fresh), "firstone", Bool(true), Nil), "secondone", Bool(true), Nil);
            var r1 := RuleStep(AlwaysTrue, false, s, ["firstone"], Bool(true));
            var r2 := RuleStep(AlwaysTrue, false, r1.state, ["secondone"], Bool(true));
            r1.result == Ok(Bool(true)) && r2.result == Ok(Bool(true)) &&
            r2.state.log == [ActionRan(Bool(true)), ActionRan(Bool(true))]
  {
  }

  /** A rule given a documentation string behaves as one without: the string is ignored. */
  lemma DocumentedRuleFires()
    ensures Run(AlwaysTrue, false, Ruleset(Fresh, true),
                [FactStmt("firstone", Bool(true), Nil), RuleStmt(["firstone"], Bool(true))])
            == Step(Ok(()), State(true, Bool(true), map["firstone" := Static(Bool(true))], [ActionRan(Bool(true))]))
  {
  }

  /** A default rule in a multi ruleset raises `BadDefaultRule`. */
  lemma DefaultRuleInMultiRaises()
    ensures Run(AlwaysTrue, false, MultiRuleset(Fresh), [DefaultRuleStmt(Bool(true))]).result == Err(BadDefaultRule)
  {
  }

  /**
   * The dynamic fact `one` is called once per reference: `[:one, :wrong]`
   * then `[:one, :one, :wrong]` call it three times and the last rule returns nil.
   */
  lemma DynamicFactCalledPerReference()
    ensures var s := DeclareFact(DeclareDynamic(Ruleset(Fresh, true), "one", 0), "wrong", Bool(false), Nil);
            var r1 := RuleStep(AlwaysTrue, false, s, ["one", "wrong"], Bool(false));
            var r2 := RuleStep(AlwaysTrue, false, r1.state, ["one", "one", "wrong"], Bool(false));
            r1.result == Ok(Nil) && r2.result == Ok(Nil) && Calls(r2.state.log, 0) == 3
  {
    var s := DeclareFact(DeclareDynamic(Ruleset(Fresh, true), "one", 0), "wrong", Bool(false), Nil);
    var r1 := RuleStep(AlwaysTrue, false, s, ["one", "wrong"], Bool(false));
    assert r1.state.log == [Invoked(0)];
    var r2 := RuleStep(AlwaysTrue, false, r1.state, ["one", "one", "wrong"], Bool(false));
    assert r2.state.log == [Invoked(0), Invoked(0), Invoked(0)];
    assert Calls([Invoked(0)], 0) == 1;
    assert Calls([Invoked(0), Invoked(0)], 0) == 2 by {
      assert [Invoked(0), Invoked(0)][1..] == [Invoked(0)];
    }
    assert [Invoked(0), Invoked(0), Invoked(0)][1..] == [Invoked(0), Invoked(0)];
  }

  /** `notf` on a dynamic fact raises `BadNotCall`, aborting the ruleset before its default rule. */
  lemma NotfOnDynamicRaises()
    ensures var o := Run(AlwaysTrue, false, Ruleset(Fresh, true),
                         [DynamicFactStmt("one", 0), NotfFactStmt("two", "one"), DefaultRuleStmt(Bool(true))]);
            o.result == Err(BadNotCall) && o.state.log == []
  {
  }

  /** The same ruleset driven through `Ruler.Engine`: its contracts give the three calls. */
  method DynamicFactClient()
  {
    var e := new Ruler.Engine(AlwaysTrue, false);
    e.Ruleset(true);
    e.DynamicFact("one", 0);
    e.Fact("wrong", Bool(false), Nil);
    ghost var s := e.Snapshot();
    assert s == DeclareFact(DeclareDynamic(Ruleset(Fresh, true), "one", 0), "wrong", Bool(false), Nil);
    var r1 := e.Rule(["one", "wrong"], Bool(false));
    var r2 := e.Rule(["one", "one", "wrong"], Bool(false));
    DynamicFactCalledPerReference();
    assert r1 == Ok(Nil) && r2 == Ok(Nil) && Calls(e.log, 0) == 3;
  }
}
