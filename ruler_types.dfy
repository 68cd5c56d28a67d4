/** Values, working-memory records, observable events and errors of the Ruler rule engine. */
module RulerTypes {

  /** A fact name (a Ruby symbol). */
  type Name = string

  /** Identity of a Ruby block passed to `dynamic_fact`. */
  type BlockId = nat

  /** The Ruby values a fact or an action can produce. */
  datatype Value = Nil | Bool(b: bool) | Int(i: int) | Str(s: string)

  /** Ruby truthiness: only `nil` and `false` are falsy. */
  predicate Truthy(v: Value) {
    v != Nil && v != Bool(false)
  }

  /** A working-memory record: `{:value => v}` or `{:transient => true, :block => b}`. */
  datatype FactRecord = Static(value: Value) | Dynamic(block: BlockId)

  /** What the engine did that a host can observe. */
  datatype Event =
    | Invoked(block: BlockId)     // a dynamic fact's block was called
    | FactBlockRan(name: Name)    // the block of `fact name do ... end` was yielded to
    | ActionRan(result: Value)    // the block of a rule or default rule was yielded to

  /** The failures an engine call can raise. */
  datatype Error =
    | BadNotCall                  // `notf` on a dynamic fact
    | BadDefaultRule              // `default_rule` outside a singletary ruleset
    | UndeclaredFact(name: Name)  // a lookup of a name missing from working memory (`nil[...]`)

  datatype Result<T> = Ok(value: T) | Err(error: Error)

  /**
   * The behaviour of the dynamic blocks: `answer(b, n)` is what block `b` returns
   * when it is called for the (n+1)-th time. Blocks with side effects, such as
   * call counters, are thereby covered.
   */
  type Oracle = (BlockId, nat) -> Value

  /** Number of calls of block `b` recorded in `log`. */
  function Calls(log: seq<Event>, b: BlockId): (n: nat) {
    if log == [] then 0
    else (if log[0] == Invoked(b) then 1 else 0) + Calls(log[1..], b)
  }

  lemma {:induction false} CallsAppend(a: seq<Event>, c: seq<Event>, b: BlockId)
    ensures Calls(a + c, b) == Calls(a, b) + Calls(c, b)
  {
    if a != [] {
      assert (a + c)[1..] == a[1..] + c;
      CallsAppend(a[1..], c, b);
    } else {
      assert a + c == c;
    }
  }
}
