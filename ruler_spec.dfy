/**
 * The Ruler engine as a state machine: one function per public call of
 * `module Ruler`, each mapping the thread's engine state to the call's
 * result and the next state. The class `Ruler.Engine` is proved to follow it.
 */
module RulerSpec {
  import opened RulerTypes

  /**
   * The three thread-local slots `:singletary`, `:rulematched` and
   * `:working_memory`, plus the log of what the engine has done so far.
   */
  datatype State = State(
    singletary: bool,
    rulematched: Value,
    memory: map<Name, FactRecord>,
    log: seq<Event>)

  /** The outcome of one engine call: what it returned or raised, and the state after it. */
  datatype Step<T> = Step(result: Result<T>, state: State)

  /** A rule or default rule fired: it returned normally with a truthy value. */
  predicate Fires(s: Step<Value>) {
    s.result.Ok? && Truthy(s.result.value)
  }

  /** `ruleset singletary`: overwrite the three slots (there is no scope stack). */
  function Ruleset(st: State, singletary: bool): (next: State) {
    State(singletary, Nil, map[], st.log)
  }

  /** `multi_ruleset`. */
  function MultiRuleset(st: State): (next: State) {
    Ruleset(st, false)
  }

  /**
   * `fact name, dval`: a non-nil `dval` (including `false`) is stored as is;
   * otherwise the block is yielded to once and its result `blk` is stored.
   */
  function DeclareFact(st: State, name: Name, dval: Value, blk: Value): (next: State) {
    if dval == Nil then
      st.(memory := st.memory[name := Static(blk)], log := st.log + [FactBlockRan(name)])
    else
      st.(memory := st.memory[name := Static(dval)])
  }

  /** `dynamic_fact name`: the block is stored, not called. */
  function DeclareDynamic(st: State, name: Name, block: BlockId): (next: State) {
    st.(memory := st.memory[name := Dynamic(block)])
  }

  /** `notf name`: the negation of a static fact; reads nothing but memory. */
  function Negate(memory: map<Name, FactRecord>, name: Name): (r: Result<bool>) {
    if name !in memory then Err(UndeclaredFact(name))
    else match memory[name]
      case Dynamic(_) => Err(BadNotCall)
      case Static(v) => Ok(!Truthy(v))
  }

  /** The value `name` resolves to once `log` has happened (a static value, or the block's next answer). */
  function ValueAt(answer: Oracle, memory: map<Name, FactRecord>, log: seq<Event>, name: Name): (v: Value)
    requires name in memory
  {
    match memory[name]
    case Static(v) => v
    case Dynamic(b) => answer(b, Calls(log, b))
  }

  /** The events resolving one fact adds to the log: one call for a dynamic fact, none otherwise. */
  function RefOf(memory: map<Name, FactRecord>, name: Name): (refs: seq<Event>) {
    if name in memory && memory[name].Dynamic? then [Invoked(memory[name].block)] else []
  }

  /** `conditional_call`: look `name` up and, for a dynamic fact, call its block. */
  function Resolve(answer: Oracle, st: State, name: Name): (r: Step<Value>) {
    if name !in st.memory then Step(Err(UndeclaredFact(name)), st)
    else Step(Ok(ValueAt(answer, st.memory, st.log, name)),
              st.(log := st.log + RefOf(st.memory, name)))
  }

  /**
   * `vlist.inject(acc) {|k,v| k ? k && conditional_call.call(v) : false }`:
   * while the accumulator is truthy the next guard is resolved and becomes the
   * accumulator; once it is falsy the remaining guards are skipped (the fold
   * goes on with `false`). A lookup failure aborts the fold.
   */
  function Fold(answer: Oracle, st: State, acc: Value, guards: seq<Name>): (r: Step<Value>)
    decreases |guards|
  {
    if guards == [] then Step(Ok(acc), st)
    else if !Truthy(acc) then Fold(answer, st, Bool(false), guards[1..])
    else
      var r := Resolve(answer, st, guards[0]);
      if r.result.Err? then r
      else Fold(answer, r.state, r.result.value, guards[1..])
  }

  /** The debug trace: every guard is resolved (and printed), none skipped. */
  function Trace(answer: Oracle, st: State, guards: seq<Name>): (r: Step<()>)
    decreases |guards|
  {
    if guards == [] then Step(Ok(()), st)
    else
      var r := Resolve(answer, st, guards[0]);
      if r.result.Err? then Step(Err(r.result.error), r.state)
      else Trace(answer, r.state, guards[1..])
  }

  /**
   * `rule guards do action end`. With `debug` set the trace runs first. In a
   * singletary ruleset whose `rulematched` is truthy the stored result is
   * returned at once; otherwise the guards are folded and `rulematched` becomes
   * the action's result if the fold is truthy, and nil if it is not.
   */
  function RuleStep(answer: Oracle, debug: bool, st: State, guards: seq<Name>, action: Value): (r: Step<Value>) {
    var t := if debug then Trace(answer, st, guards) else Step(Ok(()), st);
    if t.result.Err? then Step(Err(t.result.error), t.state)
    else
      var s := t.state;
      if s.singletary && Truthy(s.rulematched) then Step(Ok(s.rulematched), s)
      else
        var f := Fold(answer, s, Bool(true), guards);
        if f.result.Err? then f
        else if Truthy(f.result.value) then
          Step(Ok(action), f.state.(rulematched := action, log := f.state.log + [ActionRan(action)]))
        else
          Step(Ok(Nil), f.state.(rulematched := Nil))
  }

  /**
   * `default_rule do action end`: refused outside singletary mode; runs the
   * action only when no truthy result is stored, and never stores its result.
   */
  function DefaultRuleStep(st: State, action: Value): (r: Step<Value>) {
    if !st.singletary then Step(Err(BadDefaultRule), st)
    else if !Truthy(st.rulematched) then Step(Ok(action), st.(log := st.log + [ActionRan(action)]))
    else Step(Ok(st.rulematched), st)
  }
}
