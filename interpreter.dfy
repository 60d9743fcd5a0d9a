/**
 * Evaluation of blocks (the `evaluate` methods of classes.js): a single number x
 * is threaded through statements, loops and branches.
 *
 * The JavaScript the blocks carry as text is run by the host (`new Function`,
 * `eval`); here that host is the `Runtime` parameter. The for-loop has no
 * iteration bound in the source, so evaluation takes `fuel`: the number of passes
 * any one run of a for-loop may make. A for-loop that would need more gives None,
 * standing for a run that does not come back.
 */
module Interpreter {

  import opened Wrappers
  import opened Blocks

  /** WhileBlock's maxIterations. */
  const MaxIterations: nat := 10000

  /**
   * The host's evaluation of block text. None means the code threw.
   *  - statement(text, x): `new Function("x", text + "; return x;")(x)`; sees x only
   *  - condition(text, x): truthiness of `new Function("x", "return (" + text + ");")(x)`
   *  - loopCondition(text, x, i): truthiness of a direct `eval(text)` inside the for-loop,
   *    where both x and the counter i are in scope
   */
  datatype Runtime = Runtime(
    statement: (string, int) -> Option<int>,
    condition: (string, int) -> Option<bool>,
    loopCondition: (string, int, int) -> Option<bool>)

  /** CodeBlock.evaluate: a statement that throws leaves x unchanged. */
  function Exec(rt: Runtime, text: string, x: int): (y: int)
    ensures rt.statement(text, x).None? ==> y == x
    ensures rt.statement(text, x).Some? ==> y == rt.statement(text, x).value
  {
    match rt.statement(text, x)
    case Some(y) => y
    case None => x
  }

  /** ConditionBlock.evaluateCondition: a condition that throws is false. */
  predicate Holds(rt: Runtime, text: string, x: int) {
    rt.condition(text, x) == Some(true)
  }

  /**
   * The value a block's evaluate returns for input x. Header blocks lying in a
   * child list inherit CodeBlock.evaluate and run their label as a statement.
   */
  function Run(rt: Runtime, b: Block, x: int, fuel: nat): Option<int>
    decreases fuel, b, 0
  {
    match b.node
    case Print => Some(x)
    case Code(_) => Some(Exec(rt, Text(b), x))
    case Init(_) => Some(Exec(rt, Text(b), x))
    case Condition(_) => Some(Exec(rt, Text(b), x))
    case Inc(_) => Some(Exec(rt, Text(b), x))
    case ForLoop(h, ch) =>
      if h.init.None? || h.condition.None? || h.inc.None? then Some(x)
      else ForIter(rt, h.condition.value.value, h.inc.value.value, ch, h.init.value.value, x, fuel, fuel)
    case While(h, ch) =>
      if h.condition.None? then Some(x)
      else WhileIter(rt, h.condition.value.value, ch, 0, x, fuel)
    case IfElse(h, a, e) =>
      if h.condition.None? then Some(x)
      else if Holds(rt, h.condition.value.value, x) then RunSeq(rt, a, x, fuel)
      else RunSeq(rt, e, x, fuel)
  }

  /** Runs a child list left to right, each block getting the previous block's result. */
  function RunSeq(rt: Runtime, bs: seq<Block>, x: int, fuel: nat): Option<int>
    decreases fuel, bs, 0
  {
    if bs == [] then Some(x)
    else
      match Run(rt, bs[0], x, fuel)
      case None => None
      case Some(y) => RunSeq(rt, bs[1..], y, fuel)
  }

  /**
   * The for-loop from the current counter i on: the condition is checked against the
   * current x and i before every pass, and a pass adds the delta to i. A condition
   * that throws ends the loop through the catch, which returns the current x. `left`
   * is the number of passes the fuel still allows.
   */
  function ForIter(rt: Runtime, cond: string, delta: int, ch: seq<Block>, i: int, x: int, fuel: nat, left: nat): Option<int>
    decreases fuel, ch, left
  {
    if rt.loopCondition(cond, x, i) != Some(true) then Some(x)
    else if left == 0 then None
    else
      match RunSeq(rt, ch, x, fuel)
      case None => None
      case Some(y) => ForIter(rt, cond, delta, ch, i + delta, y, fuel, left - 1)
  }

  /** The while-loop after `count` passes: it stops when the condition fails or after MaxIterations passes. */
  function WhileIter(rt: Runtime, cond: string, ch: seq<Block>, count: nat, x: int, fuel: nat): Option<int>
    requires count <= MaxIterations
    decreases fuel, ch, MaxIterations - count + 1
  {
    if !Holds(rt, cond, x) then Some(x)
    else if count >= MaxIterations then Some(x)
    else
      match RunSeq(rt, ch, x, fuel)
      case None => None
      case Some(y) => WhileIter(rt, cond, ch, count + 1, y, fuel)
  }

  // ----- The evaluate methods -----

  /** evaluate(x) of every block class. */
  method Evaluate(rt: Runtime, b: Block, x: int, fuel: nat) returns (r: Option<int>)
    ensures r == Run(rt, b, x, fuel)
    decreases fuel, b, 0
  {
    match b.node {
      case Print =>
        r := Some(x);
      case Code(_) =>
        r := Some(Exec(rt, Text(b), x));
      case Init(_) =>
        r := Some(Exec(rt, Text(b), x));
      case Condition(_) =>
        r := Some(Exec(rt, Text(b), x));
      case Inc(_) =>
        r := Some(Exec(rt, Text(b), x));
      case ForLoop(h, ch) =>
        if h.init.None? || h.condition.None? || h.inc.None? {
          return Some(x);
        }
        var cond, delta := h.condition.value.value, h.inc.value.value;
        var i := h.init.value.value;
        var cur: int, left: nat := x, fuel;
        while rt.loopCondition(cond, cur, i) == Some(true)
          invariant left <= fuel
          invariant ForIter(rt, cond, delta, ch, i, cur, fuel, left) == Run(rt, b, x, fuel)
          decreases left
        {
          if left == 0 {
            return None;
          }
          var y := EvaluateChildren(rt, ch, cur, fuel);
          if y.None? {
            return None;
          }
          cur, i, left := y.value, i + delta, left - 1;
        }
        r := Some(cur);
      case While(h, ch) =>
        if h.condition.None? {
          return Some(x);
        }
        var cond := h.condition.value.value;
        var cur, count := x, 0;
        while Holds(rt, cond, cur) && count < MaxIterations
          invariant count <= MaxIterations
          invariant WhileIter(rt, cond, ch, count, cur, fuel) == Run(rt, b, x, fuel)
          decreases MaxIterations - count
        {
          var y := EvaluateChildren(rt, ch, cur, fuel);
          if y.None? {
            return None;
          }
          cur, count := y.value, count + 1;
        }
        r := Some(cur);
      case IfElse(h, a, e) =>
        if h.condition.None? {
          return Some(x);
        }
        if Holds(rt, h.condition.value.value, x) {
          r := EvaluateChildren(rt, a, x, fuel);
        } else {
          r := EvaluateChildren(rt, e, x, fuel);
        }
    }
  }

  /** The loop shared by every compound's evaluate: `for (child of children) x = child.evaluate(x)`. */
  method EvaluateChildren(rt: Runtime, bs: seq<Block>, x: int, fuel: nat) returns (r: Option<int>)
    ensures r == RunSeq(rt, bs, x, fuel)
    decreases fuel, bs, 1
  {
    var k, cur := 0, x;
    while k < |bs|
      invariant 0 <= k <= |bs|
      invariant RunSeq(rt, bs[k..], cur, fuel) == RunSeq(rt, bs, x, fuel)
    {
      assert bs[k..][0] == bs[k] && bs[k..][1..] == bs[k + 1..];
      var y := Evaluate(rt, bs[k], cur, fuel);
      if y.None? {
        return None;
      }
      cur, k := y.value, k + 1;
    }
    r := Some(cur);
  }

  // ----- Properties of evaluation -----

  /** Running two lists one after the other is running their concatenation. */
  lemma {:induction false} RunSeqAppend(rt: Runtime, a: seq<Block>, c: seq<Block>, x: int, fuel: nat)
    ensures RunSeq(rt, a + c, x, fuel) ==
              match RunSeq(rt, a, x, fuel)
              case None => None
              case Some(y) => RunSeq(rt, c, y, fuel)
  {
    if a == [] {
      assert a + c == c;
    } else {
      assert (a + c)[0] == a[0] && (a + c)[1..] == a[1..] + c;
      match Run(rt, a[0], x, fuel)
      case None =>
      case Some(y) => RunSeqAppend(rt, a[1..], c, y, fuel);
    }
  }

  /** A compound missing a header it needs returns x unchanged and runs none of its children. */
  lemma {:induction false} MissingHeaderIsNoOp(rt: Runtime, b: Block, x: int, fuel: nat)
    requires IsCompound(b)
    requires !HasHeader(HeaderOf(b), ConditionKind) ||
             (b.node.ForLoop? && (!HasHeader(HeaderOf(b), InitKind) || !HasHeader(HeaderOf(b), IncKind)))
    ensures Run(rt, b, x, fuel) == Some(x)
  {
  }

  /** Leaf blocks: a failing statement and a print block leave x as it is. */
  lemma {:induction false} LeafBlocks(rt: Runtime, b: Block, x: int, fuel: nat)
    requires !IsCompound(b)
    ensures b.node.Print? ==> Run(rt, b, x, fuel) == Some(x)
    ensures rt.statement(Text(b), x).None? ==> Run(rt, b, x, fuel) == Some(x)
    ensures !b.node.Print? && rt.statement(Text(b), x).Some? ==> Run(rt, b, x, fuel) == rt.statement(Text(b), x)
  {
  }

  /** An if/else with a condition runs exactly one section: the if-section when the condition holds, else the other. */
  lemma {:induction false} IfElseRunsOneSection(rt: Runtime, b: Block, x: int, fuel: nat)
    requires b.node.IfElse? && HasHeader(HeaderOf(b), ConditionKind)
    ensures Holds(rt, b.node.header.condition.value.value, x) ==> Run(rt, b, x, fuel) == RunSeq(rt, b.node.ifSection, x, fuel)
    ensures !Holds(rt, b.node.header.condition.value.value, x) ==> Run(rt, b, x, fuel) == RunSeq(rt, b.node.elseSection, x, fuel)
  {
  }

  /** The result of n passes of a body over x, every pass getting the previous pass's result. */
  function Repeat(rt: Runtime, ch: seq<Block>, x: int, n: nat, fuel: nat): Option<int> {
    if n == 0 then Some(x)
    else
      match Repeat(rt, ch, x, n - 1, fuel)
      case None => None
      case Some(y) => RunSeq(rt, ch, y, fuel)
  }

  /**
   * A for-loop whose condition holds before exactly its first n passes (checked on
   * the current x and on i = start + j * delta before pass j) makes those n passes
   * and returns their result, for every n the fuel allows: there is no other bound.
   */
  lemma {:induction false} ForLoopPasses(rt: Runtime, b: Block, x: int, fuel: nat, n: nat)
    requires b.node.ForLoop? && b.node.header.init.Some? && b.node.header.condition.Some? && b.node.header.inc.Some?
    requires n <= fuel
    requires forall j: nat :: j < n ==>
               Repeat(rt, b.node.children, x, j, fuel).Some? &&
               rt.loopCondition(b.node.header.condition.value.value, Repeat(rt, b.node.children, x, j, fuel).value,
                                b.node.header.init.value.value + j * b.node.header.inc.value.value) == Some(true)
    requires Repeat(rt, b.node.children, x, n, fuel).Some?
    requires rt.loopCondition(b.node.header.condition.value.value, Repeat(rt, b.node.children, x, n, fuel).value,
                              b.node.header.init.value.value + n * b.node.header.inc.value.value) != Some(true)
    ensures Run(rt, b, x, fuel) == Repeat(rt, b.node.children, x, n, fuel)
  {
    var h := b.node.header;
    ForIterFrom(rt, h.condition.value.value, h.inc.value.value, b.node.children, h.init.value.value, x, fuel, n, 0);
  }

  lemma {:induction false} ForIterFrom(rt: Runtime, cond: string, delta: int, ch: seq<Block>, start: int, x: int, fuel: nat, n: nat, k: nat)
    requires k <= n <= fuel
    requires forall j: nat :: j < n ==>
               Repeat(rt, ch, x, j, fuel).Some? &&
               rt.loopCondition(cond, Repeat(rt, ch, x, j, fuel).value, start + j * delta) == Some(true)
    requires Repeat(rt, ch, x, n, fuel).Some?
    requires rt.loopCondition(cond, Repeat(rt, ch, x, n, fuel).value, start + n * delta) != Some(true)
    ensures Repeat(rt, ch, x, k, fuel).Some?
    ensures ForIter(rt, cond, delta, ch, start + k * delta, Repeat(rt, ch, x, k, fuel).value, fuel, fuel - k) == Repeat(rt, ch, x, n, fuel)
    decreases n - k
  {
    if k < n {
      ForIterFrom(rt, cond, delta, ch, start, x, fuel, n, k + 1);
      assert start + k * delta + delta == start + (k + 1) * delta;
    }
  }

  /**
   * A for-loop whose condition always holds and whose body always finishes never
   * returns, however much fuel it is given: the source puts no cap on it.
   */
  lemma {:induction false} ForLoopHasNoCap(rt: Runtime, b: Block, x: int, fuel: nat)
    requires b.node.ForLoop? && b.node.header.init.Some? && b.node.header.condition.Some? && b.node.header.inc.Some?
    requires forall y: int, i: int :: rt.loopCondition(b.node.header.condition.value.value, y, i) == Some(true)
    requires forall y: int :: RunSeq(rt, b.node.children, y, fuel).Some?
    ensures Run(rt, b, x, fuel) == None
  {
    var h := b.node.header;
    ForIterDiverges(rt, h.condition.value.value, h.inc.value.value, b.node.children, h.init.value.value, x, fuel, fuel);
  }

  lemma {:induction false} ForIterDiverges(rt: Runtime, cond: string, delta: int, ch: seq<Block>, i: int, x: int, fuel: nat, left: nat)
    requires forall y: int, i': int :: rt.loopCondition(cond, y, i') == Some(true)
    requires forall y: int :: RunSeq(rt, ch, y, fuel).Some?
    ensures ForIter(rt, cond, delta, ch, i, x, fuel, left) == None
    decreases left
  {
    if left > 0 {
      ForIterDiverges(rt, cond, delta, ch, i + delta, RunSeq(rt, ch, x, fuel).value, fuel, left - 1);
    }
  }

  /**
   * A while-loop makes exactly n passes, n <= MaxIterations, when its condition holds
   * before each of the first n passes and either fails after them or n is the cap;
   * a condition false at the start gives n = 0 and x unchanged.
   */
  lemma {:induction false} WhileLoopPasses(rt: Runtime, b: Block, x: int, fuel: nat, n: nat)
    requires b.node.While? && b.node.header.condition.Some?
    requires n <= MaxIterations
    requires forall j: nat :: j < n ==>
               Repeat(rt, b.node.children, x, j, fuel).Some? &&
               Holds(rt, b.node.header.condition.value.value, Repeat(rt, b.node.children, x, j, fuel).value)
    requires Repeat(rt, b.node.children, x, n, fuel).Some?
    requires n == MaxIterations || !Holds(rt, b.node.header.condition.value.value, Repeat(rt, b.node.children, x, n, fuel).value)
    ensures Run(rt, b, x, fuel) == Repeat(rt, b.node.children, x, n, fuel)
  {
    WhileIterFrom(rt, b.node.header.condition.value.value, b.node.children, x, fuel, n, 0);
  }

  lemma {:induction false} WhileIterFrom(rt: Runtime, cond: string, ch: seq<Block>, x: int, fuel: nat, n: nat, k: nat)
    requires k <= n <= MaxIterations
    requires forall j: nat :: j < n ==>
               Repeat(rt, ch, x, j, fuel).Some? && Holds(rt, cond, Repeat(rt, ch, x, j, fuel).value)
    requires Repeat(rt, ch, x, n, fuel).Some?
    requires n == MaxIterations || !Holds(rt, cond, Repeat(rt, ch, x, n, fuel).value)
    ensures Repeat(rt, ch, x, k, fuel).Some?
    ensures WhileIter(rt, cond, ch, k, Repeat(rt, ch, x, k, fuel).value, fuel) == Repeat(rt, ch, x, n, fuel)
    decreases n - k
  {
    if k < n {
      WhileIterFrom(rt, cond, ch, x, fuel, n, k + 1);
    }
  }

  /** A while-loop whose condition always holds stops after exactly MaxIterations passes. */
  lemma {:induction false} WhileLoopStopsAtCap(rt: Runtime, b: Block, x: int, fuel: nat)
    requires b.node.While? && b.node.header.condition.Some?
    requires forall y: int :: Holds(rt, b.node.header.condition.value.value, y)
    requires forall y: int :: RunSeq(rt, b.node.children, y, fuel).Some?
    ensures Run(rt, b, x, fuel) == Repeat(rt, b.node.children, x, MaxIterations, fuel)
  {
    var ch := b.node.children;
    forall j: nat | j <= MaxIterations
      ensures Repeat(rt, ch, x, j, fuel).Some?
    {
      RepeatTerminates(rt, ch, x, j, fuel);
    }
    WhileLoopPasses(rt, b, x, fuel, MaxIterations);
  }

  lemma {:induction false} RepeatTerminates(rt: Runtime, ch: seq<Block>, x: int, n: nat, fuel: nat)
    requires forall y: int :: RunSeq(rt, ch, y, fuel).Some?
    ensures Repeat(rt, ch, x, n, fuel).Some?
  {
    if n > 0 {
      RepeatTerminates(rt, ch, x, n - 1, fuel);
    }
  }

  // ----- Fuel only bounds for-loops: more of it never changes a finished result -----

  lemma {:induction false} RunFuelMonotone(rt: Runtime, b: Block, x: int, f: nat, g: nat)
    requires f <= g && Run(rt, b, x, f).Some?
    ensures Run(rt, b, x, g) == Run(rt, b, x, f)
    decreases f, b, 0
  {
    match b.node
    case ForLoop(h, ch) =>
      if !(h.init.None? || h.condition.None? || h.inc.None?) {
        ForIterFuelMonotone(rt, h.condition.value.value, h.inc.value.value, ch, h.init.value.value, x, f, g, f, g);
      }
    case While(h, ch) =>
      if h.condition.Some? {
        WhileIterFuelMonotone(rt, h.condition.value.value, ch, 0, x, f, g);
      }
    case IfElse(h, a, e) =>
      if h.condition.Some? {
        if Holds(rt, h.condition.value.value, x) {
          RunSeqFuelMonotone(rt, a, x, f, g);
        } else {
          RunSeqFuelMonotone(rt, e, x, f, g);
        }
      }
    case _ =>
  }

  lemma {:induction false} RunSeqFuelMonotone(rt: Runtime, bs: seq<Block>, x: int, f: nat, g: nat)
    requires f <= g && RunSeq(rt, bs, x, f).Some?
    ensures RunSeq(rt, bs, x, g) == RunSeq(rt, bs, x, f)
    decreases f, bs, 0
  {
    if bs != [] {
      RunFuelMonotone(rt, bs[0], x, f, g);
      RunSeqFuelMonotone(rt, bs[1..], Run(rt, bs[0], x, f).value, f, g);
    }
  }

  lemma {:induction false} ForIterFuelMonotone(rt: Runtime, cond: string, delta: int, ch: seq<Block>, i: int, x: int,
                                               f: nat, g: nat, left: nat, left': nat)
    requires f <= g && left <= left' && ForIter(rt, cond, delta, ch, i, x, f, left).Some?
    ensures ForIter(rt, cond, delta, ch, i, x, g, left') == ForIter(rt, cond, delta, ch, i, x, f, left)
    decreases f, ch, left
  {
    if rt.loopCondition(cond, x, i) == Some(true) {
      RunSeqFuelMonotone(rt, ch, x, f, g);
      ForIterFuelMonotone(rt, cond, delta, ch, i + delta, RunSeq(rt, ch, x, f).value, f, g, left - 1, left' - 1);
    }
  }

  lemma {:induction false} WhileIterFuelMonotone(rt: Runtime, cond: string, ch: seq<Block>, count: nat, x: int, f: nat, g: nat)
    requires count <= MaxIterations
    requires f <= g && WhileIter(rt, cond, ch, count, x, f).Some?
    ensures WhileIter(rt, cond, ch, count, x, g) == WhileIter(rt, cond, ch, count, x, f)
    decreases f, ch, MaxIterations - count + 1
  {
    if Holds(rt, cond, x) && count < MaxIterations {
      RunSeqFuelMonotone(rt, ch, x, f, g);
      WhileIterFuelMonotone(rt, cond, ch, count + 1, RunSeq(rt, ch, x, f).value, f, g);
    }
  }
}
