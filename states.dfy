/**
 * The game state of states.js: a problem with its attempt counter and grading
 * rule, the player (inventory, progress, score), the order problems come in,
 * blocks built from tagged data, and the shop's price check.
 */
module States {

  import opened Wrappers
  import opened Blocks
  import opened Interpreter
  import opened Layout

  /** `block.constructor.name`, the key of Problem.maxBlockCounts. */
  function ClassName(b: Block): string {
    match b.node
    case Code(_) => "CodeBlock"
    case Print => "PrintBlock"
    case Init(_) => "InitBlock"
    case Condition(_) => "ConditionBlock"
    case Inc(_) => "IncBlock"
    case ForLoop(_, _) => "ForLoopBlock"
    case While(_, _) => "WhileBlock"
    case IfElse(_, _, _) => "IfElseBlock"
  }

  // ----- Problem -----

  /**
   * checkSolution's verdict: the custom criteria when one is set, otherwise a
   * match with the target, and never a match when there is no target.
   */
  predicate Verdict(criteria: Option<int -> bool>, target: Option<int>, result: int) {
    if criteria.Some? then criteria.value(result) else target == Some(result)
  }

  class Problem {
    const id: string
    const title: string
    const description: string
    const initialValue: int
    const targetValue: Option<int>
    var predefinedBlocks: seq<Block>
    var availableBlocks: seq<Block>
    var maxBlockCounts: map<string, int>
    var attemptsMade: nat
    var completionCriteria: Option<int -> bool>

    /** The source defaults initialValue to 1 and targetValue to null; callers here pass both. */
    constructor (id: string, title: string, description: string, initialValue: int, targetValue: Option<int>)
      ensures this.id == id && this.title == title && this.description == description
      ensures this.initialValue == initialValue && this.targetValue == targetValue
      ensures predefinedBlocks == [] && availableBlocks == [] && maxBlockCounts == map[]
      ensures attemptsMade == 0 && completionCriteria.None?
    {
      this.id := id;
      this.title := title;
      this.description := description;
      this.initialValue := initialValue;
      this.targetValue := targetValue;
      predefinedBlocks := [];
      availableBlocks := [];
      maxBlockCounts := map[];
      attemptsMade := 0;
      completionCriteria := None;
    }

    method AddPredefinedBlock(b: Block)
      modifies this
      ensures predefinedBlocks == old(predefinedBlocks) + [b]
      ensures availableBlocks == old(availableBlocks) && maxBlockCounts == old(maxBlockCounts)
      ensures attemptsMade == old(attemptsMade) && completionCriteria == old(completionCriteria)
    {
      predefinedBlocks := predefinedBlocks + [b];
    }

    /** The block joins the inventory; a limit, when given, is recorded under the block's class name. */
    method AddAvailableBlock(b: Block, maxCount: Option<int>)
      modifies this
      ensures availableBlocks == old(availableBlocks) + [b]
      ensures maxBlockCounts == if maxCount.Some? then old(maxBlockCounts)[ClassName(b) := maxCount.value] else old(maxBlockCounts)
      ensures predefinedBlocks == old(predefinedBlocks)
      ensures attemptsMade == old(attemptsMade) && completionCriteria == old(completionCriteria)
    {
      availableBlocks := availableBlocks + [b];
      if maxCount.Some? {
        maxBlockCounts := maxBlockCounts[ClassName(b) := maxCount.value];
      }
    }

    method SetCompletionCriteria(criteria: int -> bool)
      modifies this
      ensures completionCriteria == Some(criteria)
      ensures predefinedBlocks == old(predefinedBlocks) && availableBlocks == old(availableBlocks)
      ensures maxBlockCounts == old(maxBlockCounts) && attemptsMade == old(attemptsMade)
    {
      completionCriteria := Some(criteria);
    }

    /** Every check counts as one attempt, right or wrong. */
    method CheckSolution(result: int) returns (correct: bool)
      modifies this
      ensures attemptsMade == old(attemptsMade) + 1
      ensures correct == Verdict(completionCriteria, targetValue, result)
      ensures predefinedBlocks == old(predefinedBlocks) && availableBlocks == old(availableBlocks)
      ensures maxBlockCounts == old(maxBlockCounts) && completionCriteria == old(completionCriteria)
    {
      attemptsMade := attemptsMade + 1;
      if completionCriteria.Some? {
        return completionCriteria.value(result);
      }
      return targetValue.Some? && result == targetValue.value;
    }
  }

  /** Without custom criteria a problem with no target can never be solved, and one with a target only by hitting it. */
  lemma {:induction false} TargetVerdict(target: Option<int>, result: int)
    ensures !Verdict(None, None, result)
    ensures Verdict(None, target, result) <==> target.Some? && target.value == result
  {
  }

  // ----- Inventory -----

  /** A count as `!inventory[type]` reads it: a missing type counts 0. */
  function Stock(inv: map<string, int>, t: string): int {
    if t in inv then inv[t] else 0
  }

  /** addToInventory: a missing (or zero) entry starts at 0, then grows by quantity. */
  function Added(inv: map<string, int>, t: string, q: int): (r: map<string, int>)
    ensures Stock(r, t) == Stock(inv, t) + q
    ensures forall u :: u != t ==> Stock(r, u) == Stock(inv, u)
  {
    inv[t := Stock(inv, t) + q]
  }

  /** removeFromInventory: refused (None) when the type is missing, at zero, or short of quantity. */
  function Taken(inv: map<string, int>, t: string, q: int): (r: Option<map<string, int>>)
    ensures r.None? <==> Stock(inv, t) == 0 || Stock(inv, t) < q
    ensures r.Some? ==> Stock(r.value, t) == Stock(inv, t) - q && Stock(r.value, t) >= 0 &&
                        forall u :: u != t ==> Stock(r.value, u) == Stock(inv, u)
  {
    if Stock(inv, t) == 0 || Stock(inv, t) < q then None else Some(inv[t := inv[t] - q])
  }

  /** Taking back what was just added succeeds and restores every count, provided the count was not negative. */
  lemma {:induction false} AddThenTake(inv: map<string, int>, t: string, q: int, u: string)
    requires q > 0 && Stock(inv, t) >= 0
    ensures Taken(Added(inv, t, q), t, q).Some?
    ensures Stock(Taken(Added(inv, t, q), t, q).value, u) == Stock(inv, u)
  {
    var m := Added(inv, t, q);
    assert Stock(m, t) == Stock(inv, t) + q;
  }

  /** A count that has gone negative refuses the very quantity just added. */
  lemma {:induction false} NegativeStockRefusesRefund(inv: map<string, int>, t: string, q: int)
    requires q > 0 && Stock(inv, t) == -q
    ensures Taken(Added(inv, t, q), t, q).None?
  {
    assert Stock(Added(inv, t, q), t) == 0;
  }

  // ----- Initial layout of startProblem -----

  function Max(a: int, b: int): int {
    if a < b then b else a
  }

  /**
   * startProblem's array: NUM_LINES nulls, then each predefined block written at
   * the sum of the heights before it. Writing past the end extends the array up
   * to the block written, the gap reading as empty.
   */
  function Placement(ps: seq<Block>): (r: Slots)
    ensures |r| >= NumLines
  {
    var e := Expand(ps);
    var len := if ps == [] then NumLines else Max(NumLines, SumHeights(ps[..|ps| - 1]) + 1);
    PadTo(e, len)
  }

  /** The first len lines of t, blank past its end. */
  function PadTo(t: Slots, len: nat): (r: Slots)
    ensures |r| == len
    ensures forall i :: 0 <= i < len ==> r[i] == if i < |t| then t[i] else None
  {
    if len == 0 then [] else PadTo(t, len - 1) + [if len - 1 < |t| then t[len - 1] else None]
  }

  /** Writing one more block into the array startProblem builds. */
  lemma {:induction false} PlacementStep(ps: seq<Block>, j: nat)
    requires j < |ps|
    ensures var cur, at := Placement(ps[..j]), SumHeights(ps[..j]);
            && SumHeights(ps[..j + 1]) == at + Height(ps[j])
            && Placement(ps[..j + 1]) == if at < |cur| then cur[at := Some(ps[j])] else cur + Nulls(at - |cur|) + [Some(ps[j])]
  {
    var p, q := ps[..j], ps[..j + 1];
    assert q[..j] == p && q[j] == ps[j];
    SumHeightsAppend(p, [ps[j]]);
    assert p + [ps[j]] == q;
    assert [ps[j]][1..] == [];
    var cur, at := Placement(p), SumHeights(p);
    var e, e' := Expand(p), Expand(q);
    assert e' == e + [Some(ps[j])] + Nulls(Height(ps[j]) - 1);
    assert |e| == at;
    var next := Placement(q);
    var want := if at < |cur| then cur[at := Some(ps[j])] else cur + Nulls(at - |cur|) + [Some(ps[j])];
    assert |next| == |want|;
    forall i | 0 <= i < |next|
      ensures next[i] == want[i]
    {
    }
  }

  /** An array that cuts into the last block's lines ends with that block's first line and blank lines. */
  lemma {:induction false} PlacementCut(ps: seq<Block>)
    requires |Placement(ps)| < SumHeights(ps)
    ensures ps != [] && |Placement(ps)| > SumHeights(ps[..|ps| - 1])
    ensures var n := |ps| - 1;
            Placement(ps) == Expand(ps[..n]) + ([Some(ps[n])] + Nulls(|Placement(ps)| - SumHeights(ps[..n]) - 1))
  {
    var r, e := Placement(ps), Expand(ps);
    var n := |ps| - 1;
    var init := ps[..n];
    assert ps == init + [ps[n]];
    assert e == Expand(init) + [Some(ps[n])] + Nulls(Height(ps[n]) - 1);
  }

  /** An array long enough for every line of every block is those lines followed by blank ones. */
  lemma {:induction false} PlacementPadded(ps: seq<Block>)
    requires |Placement(ps)| >= SumHeights(ps)
    ensures Placement(ps) == Expand(ps) + Nulls(|Placement(ps)| - SumHeights(ps))
  {
  }

  /** startProblem places every predefined block, in order. */
  lemma {:induction false} PlacementKeepsProgram(ps: seq<Block>)
    ensures Present(Placement(ps)) == ps
  {
    var len := |Placement(ps)|;
    if len >= SumHeights(ps) {
      PlacementPadded(ps);
      PresentExpand(ps);
      PresentAppend(Expand(ps), Nulls(len - SumHeights(ps)));
      PresentNulls(len - SumHeights(ps));
    } else {
      PlacementCutKeepsProgram(ps);
    }
  }

  lemma {:induction false} PlacementCutKeepsProgram(ps: seq<Block>)
    requires |Placement(ps)| < SumHeights(ps)
    ensures Present(Placement(ps)) == ps
  {
    PlacementCut(ps);
    var n := |ps| - 1;
    var r := Placement(ps);
    var ei := Expand(ps[..n]);
    var rest := [Some(ps[n])] + Nulls(|r| - SumHeights(ps[..n]) - 1);
    assert r == ei + rest;
    PresentAppend(ei, rest);
    PresentExpand(ps[..n]);
    PresentLead(ps[n], |r| - SumHeights(ps[..n]) - 1);
    assert Present(r) == ps[..n] + [ps[n]];
    assert ps[..n] + [ps[n]] == ps;
  }

  /** One block followed by blank lines. */
  lemma {:induction false} PresentLead(b: Block, k: nat)
    ensures Present([Some(b)] + Nulls(k)) == [b]
  {
    PresentAppend([Some(b)], Nulls(k));
    PresentSingle(b);
    PresentNulls(k);
  }

  /** When the predefined blocks fit, startProblem lays them out exactly as shiftBlocksUp would. */
  lemma {:induction false} PlacementLaidOut(ps: seq<Block>)
    requires SumHeights(ps) <= NumLines
    ensures Placement(ps) == Compact(Placement(ps)) == Fit(Expand(ps))
    ensures LaidOut(Placement(ps))
  {
    var r := Placement(ps);
    if ps != [] {
      var n := |ps| - 1;
      SumHeightsAppend(ps[..n], [ps[n]]);
      assert ps[..n] + [ps[n]] == ps;
      assert [ps[n]][1..] == [];
    }
    assert |r| == NumLines;
    assert r == Fit(Expand(ps));
    PlacementKeepsProgram(ps);
  }

  /** The placement loop of startProblem: each block written at the running sum of the heights before it. */
  method PlaceBlocks(ps: seq<Block>) returns (blocks: Slots)
    ensures blocks == Placement(ps)
  {
    blocks := Nulls(NumLines);
    var lineIndex := 0;
    var j := 0;
    assert ps[..0] == [];
    while j < |ps|
      invariant 0 <= j <= |ps|
      invariant lineIndex == SumHeights(ps[..j])
      invariant blocks == Placement(ps[..j])
    {
      PlacementStep(ps, j);
      if lineIndex < |blocks| {
        blocks := blocks[lineIndex := Some(ps[j])];
      } else {
        blocks := blocks + Nulls(lineIndex - |blocks|) + [Some(ps[j])];
      }
      lineIndex := lineIndex + Height(ps[j]);
      j := j + 1;
    }
    assert ps[..j] == ps;
  }

  /**
   * The run loop of submitSolution: x starts at the initial value and each
   * non-empty slot in turn evaluates it. None when some block does not finish.
   */
  method RunProgram(blocks: Slots, initialValue: int, rt: Runtime, fuel: nat) returns (r: Option<int>)
    ensures r == RunSeq(rt, Present(blocks), initialValue, fuel)
  {
    var x := initialValue;
    var k := 0;
    assert blocks[..0] == [];
    while k < |blocks|
      invariant 0 <= k <= |blocks|
      invariant RunSeq(rt, Present(blocks[..k]), initialValue, fuel) == Some(x)
    {
      var here := blocks[..k + 1];
      assert here[..k] == blocks[..k] && here[k] == blocks[k];
      if blocks[k].Some? {
        var b := blocks[k].value;
        assert Present(here) == Present(blocks[..k]) + [b];
        RunSeqAppend(rt, Present(blocks[..k]), [b], initialValue, fuel);
        assert [b][1..] == [];
        var y := Evaluate(rt, b, x, fuel);
        if y.None? {
          assert RunSeq(rt, Present(here), initialValue, fuel) == None;
          PresentAppend(here, blocks[k + 1..]);
          assert here + blocks[k + 1..] == blocks;
          RunSeqAppend(rt, Present(here), Present(blocks[k + 1..]), initialValue, fuel);
          return None;
        }
        x := y.value;
      } else {
        assert Present(here) == Present(blocks[..k]);
      }
      k := k + 1;
    }
    assert blocks[..k] == blocks;
    return Some(x);
  }

  // ----- User -----

  datatype Submission = Submission(result: int, isCorrect: bool, attemptsMade: nat)

  /** The points a correct submission earns: 100 less 10 per attempt, with no floor. */
  function Award(attempts: nat): int {
    100 - attempts * 10
  }

  class User {
    const id: string
    const name: string
    var inventory: map<string, int>
    var completedProblems: set<string>
    var currentProblem: Option<string>
    var currentBlocks: seq<Block>
    var score: int

    constructor (id: string, name: string)
      ensures this.id == id && this.name == name
      ensures inventory == map[] && completedProblems == {} && currentProblem.None?
      ensures currentBlocks == [] && score == 0
    {
      this.id := id;
      this.name := name;
      inventory := map[];
      completedProblems := {};
      currentProblem := None;
      currentBlocks := [];
      score := 0;
    }

    method AddToInventory(t: string, quantity: int)
      modifies this
      ensures inventory == Added(old(inventory), t, quantity)
      ensures completedProblems == old(completedProblems) && currentProblem == old(currentProblem)
      ensures currentBlocks == old(currentBlocks) && score == old(score)
    {
      if Stock(inventory, t) == 0 {
        inventory := inventory[t := 0];
      }
      inventory := inventory[t := inventory[t] + quantity];
    }

    method RemoveFromInventory(t: string, quantity: int) returns (ok: bool)
      modifies this
      ensures ok == Taken(old(inventory), t, quantity).Some?
      ensures inventory == if ok then Taken(old(inventory), t, quantity).value else old(inventory)
      ensures completedProblems == old(completedProblems) && currentProblem == old(currentProblem)
      ensures currentBlocks == old(currentBlocks) && score == old(score)
    {
      if t !in inventory || inventory[t] == 0 || inventory[t] < quantity {
        return false;
      }
      inventory := inventory[t := inventory[t] - quantity];
      return true;
    }

    /**
     * startProblem: the problem becomes current, its predefined blocks become the
     * current blocks and are laid out line by line; the inventory is handed back.
     */
    method StartProblem(problem: Problem) returns (blocks: Slots, available: seq<Block>)
      modifies this
      ensures currentProblem == Some(problem.id) && currentBlocks == problem.predefinedBlocks
      ensures blocks == Placement(problem.predefinedBlocks)
      ensures available == problem.availableBlocks
      ensures inventory == old(inventory) && completedProblems == old(completedProblems) && score == old(score)
    {
      currentProblem := Some(problem.id);
      currentBlocks := problem.predefinedBlocks;
      blocks := PlaceBlocks(problem.predefinedBlocks);
      available := problem.availableBlocks;
    }

    /**
     * submitSolution: x starts at the problem's initial value and passes through
     * the non-empty slots in order. A run that does not finish (None) never
     * reaches the grading, so nothing changes. Otherwise the problem counts an
     * attempt, and a correct result marks the problem completed and adds the award.
     */
    method SubmitSolution(blocks: Slots, problem: Problem, rt: Runtime, fuel: nat) returns (r: Option<Submission>)
      modifies this, problem
      ensures var run := RunSeq(rt, Present(blocks), problem.initialValue, fuel);
              && (r.None? <==> run.None?)
              && (r.Some? ==> r.value.result == run.value)
      ensures r.None? ==> problem.attemptsMade == old(problem.attemptsMade) &&
                          score == old(score) && completedProblems == old(completedProblems)
      ensures r.Some? ==> problem.attemptsMade == old(problem.attemptsMade) + 1 && r.value.attemptsMade == problem.attemptsMade &&
                          r.value.isCorrect == Verdict(problem.completionCriteria, problem.targetValue, r.value.result)
      ensures r.Some? && r.value.isCorrect ==>
                score == old(score) + Award(problem.attemptsMade) && completedProblems == old(completedProblems) + {problem.id}
      ensures r.Some? && !r.value.isCorrect ==> score == old(score) && completedProblems == old(completedProblems)
      ensures inventory == old(inventory) && currentProblem == old(currentProblem) && currentBlocks == old(currentBlocks)
      ensures problem.predefinedBlocks == old(problem.predefinedBlocks) && problem.availableBlocks == old(problem.availableBlocks)
      ensures problem.maxBlockCounts == old(problem.maxBlockCounts) && problem.completionCriteria == old(problem.completionCriteria)
    {
      var run := RunProgram(blocks, problem.initialValue, rt, fuel);
      if run.None? {
        return None;
      }
      var x := run.value;
      var correct := problem.CheckSolution(x);
      if correct {
        completedProblems := completedProblems + {problem.id};
        score := score + Award(problem.attemptsMade);
      }
      return Some(Submission(x, correct, problem.attemptsMade));
    }
  }

  // ----- ProblemManager -----

  /** `indexOf`: the first position of id, |order| when it is absent. */
  function Position(order: seq<string>, id: string): (k: nat)
    ensures k <= |order| && (k < |order| ==> order[k] == id)
    ensures forall j :: 0 <= j < k ==> order[j] != id
  {
    if order == [] then 0 else if order[0] == id then 0 else 1 + Position(order[1..], id)
  }

  /** The id after the first occurrence of id; None for an unknown id and for the last one. */
  function NextId(order: seq<string>, id: string): (r: Option<string>)
    ensures r.Some? <==> Position(order, id) + 1 < |order|
    ensures r.Some? ==> r.value == order[Position(order, id) + 1]
  {
    var k := Position(order, id);
    if k >= |order| - 1 then None else Some(order[k + 1])
  }

  /** Appending a new id makes it follow the id that was last, and nothing follows it. */
  lemma {:induction false} NextAfterAppend(order: seq<string>, id: string)
    requires order != [] && id !in order
    requires order[|order| - 1] !in order[..|order| - 1]
    ensures NextId(order + [id], order[|order| - 1]) == Some(id)
    ensures NextId(order + [id], id) == None
  {
    var o := order + [id];
    var last := |order| - 1;
    assert o[last] == order[last] && o[|order|] == id;
    assert forall j :: 0 <= j < last ==> o[j] == order[..last][j];
    assert forall j :: 0 <= j < |order| ==> o[j] == order[j];
  }

  class ProblemManager {
    var problems: map<string, Problem>
    var problemOrder: seq<string>

    constructor ()
      ensures problems == map[] && problemOrder == []
    {
      problems := map[];
      problemOrder := [];
    }

    /** addProblem: a problem with an id already present replaces it in the map and appears twice in the order. */
    method AddProblem(p: Problem)
      modifies this
      ensures problems == old(problems)[p.id := p]
      ensures problemOrder == old(problemOrder) + [p.id]
    {
      problems := problems[p.id := p];
      problemOrder := problemOrder + [p.id];
    }

    function GetProblem(id: string): (r: Option<Problem>)
      reads this
      ensures r.Some? <==> id in problems
      ensures r.Some? ==> r.value == problems[id]
    {
      if id in problems then Some(problems[id]) else None
    }

    /**
     * getNextProblem: the problem whose id follows the first occurrence of
     * currentId in the order; None (null or undefined) for an unknown or
     * missing id, for the last one, and for an id with no problem stored.
     */
    function GetNextProblem(currentId: Option<string>): (r: Option<Problem>)
      reads this
      ensures currentId.None? ==> r.None?
      ensures currentId.Some? ==>
                (r.Some? <==> NextId(problemOrder, currentId.value).Some? && NextId(problemOrder, currentId.value).value in problems)
      ensures r.Some? ==> r.value == problems[NextId(problemOrder, currentId.value).value]
    {
      if currentId.None? then None
      else
        match NextId(problemOrder, currentId.value)
        case None => None
        case Some(next) => GetProblem(next)
    }
  }

  // ----- createBlockFromData -----

  /** The `headerBlocks` object of block data; init and inc carry the number their text denotes. */
  datatype HeaderData = HeaderData(initBlock: Option<int>, conditionBlock: Option<string>, incBlock: Option<int>)

  /** Block data as the problem file gives it: `type`, `text`, `headerBlocks`, `isLocked`. */
  datatype BlockData = BlockData(kind: string, text: string, value: int, headerBlocks: Option<HeaderData>, isLocked: Option<bool>)

  /** The header a for-loop is given: every listed kind, in init, condition, inc order. */
  function ForHeader(hd: HeaderData, next: nat): (r: (Header, nat))
    ensures r.1 >= next
  {
    var (init, n1) := if hd.initBlock.Some? then (Some(Slot(next, false, hd.initBlock.value)), next + 1) else (None, next);
    var (cond, n2) := if hd.conditionBlock.Some? then (Some(Slot(n1, false, hd.conditionBlock.value)), n1 + 1) else (None, n1);
    var (inc, n3) := if hd.incBlock.Some? then (Some(Slot(n2, false, hd.incBlock.value)), n2 + 1) else (None, n2);
    (Header(init, cond, inc), n3)
  }

  /** The header a while or if/else is given: only a listed condition. */
  function ConditionHeader(hd: Option<HeaderData>, next: nat): (r: (Header, nat))
    ensures r.1 >= next
  {
    if hd.Some? && hd.value.conditionBlock.Some? then (Header(None, Some(Slot(next, false, hd.value.conditionBlock.value)), None), next + 1)
    else (EmptyHeader, next)
  }

  /**
   * createBlockFromData: None for an unknown type. The new block takes id next,
   * the header blocks it is given the ids after it; the second component is the
   * first id left unused. isLocked is copied onto the block when present.
   */
  function CreateBlockFromData(data: BlockData, next: nat): (r: (Option<Block>, nat))
    ensures r.1 >= next
  {
    var made: Option<(Node, nat)> :=
      match data.kind
      case "code" => Some((Code(data.text), next + 1))
      case "for" =>
        if data.headerBlocks.Some? then
          var (h, n) := ForHeader(data.headerBlocks.value, next + 1);
          Some((ForLoop(h, []), n))
        else Some((ForLoop(EmptyHeader, []), next + 1))
      case "while" =>
        var (h, n) := ConditionHeader(data.headerBlocks, next + 1);
        Some((While(h, []), n))
      case "ifelse" =>
        var (h, n) := ConditionHeader(data.headerBlocks, next + 1);
        Some((IfElse(h, [], []), n))
      case "print" => Some((Print, next + 1))
      case "condition" => Some((Condition(data.text), next + 1))
      case "init" => Some((Init(data.value), next + 1))
      case "inc" => Some((Inc(data.value), next + 1))
      case _ => None;
    match made
    case None => (None, next)
    case Some((node, n)) =>
      var locked := if data.isLocked.Some? then data.isLocked.value else false;
      (Some(Block(next, locked, node)), n)
  }

  /** The data types createBlockFromData knows. */
  predicate KnownKind(kind: string) {
    kind in {"code", "for", "while", "ifelse", "print", "condition", "init", "inc"}
  }

  /**
   * createBlockFromData builds a block exactly for the known types; the block is
   * locked exactly when the data says so, and a compound gets exactly the header
   * kinds its data lists and its class takes.
   */
  lemma {:induction false} CreateBlockFromDataSpec(data: BlockData, next: nat)
    ensures var (b, n) := CreateBlockFromData(data, next);
            && (b.Some? <==> KnownKind(data.kind))
            && (b.Some? ==> b.value.id == next && b.value.isLocked == (data.isLocked == Some(true)))
            && (b.Some? && data.kind == "code" ==> b.value.node == Code(data.text))
            && (b.Some? && data.kind == "print" ==> b.value.node == Print)
            && (b.Some? && data.kind == "condition" ==> b.value.node == Condition(data.text))
            && (b.Some? && data.kind == "init" ==> b.value.node == Init(data.value))
            && (b.Some? && data.kind == "inc" ==> b.value.node == Inc(data.value))
            && (b.Some? && data.kind == "while" ==> b.value.node.While? && b.value.node.children == [])
            && (b.Some? && data.kind == "ifelse" ==>
                  b.value.node.IfElse? && b.value.node.ifSection == [] && b.value.node.elseSection == [])
            && (b.Some? && data.kind == "for" ==>
                  b.value.node.ForLoop? && b.value.node.children == [] &&
                  var h, hd := b.value.node.header, data.headerBlocks;
                  (h.init.Some? <==> hd.Some? && hd.value.initBlock.Some?) &&
                  (h.condition.Some? <==> hd.Some? && hd.value.conditionBlock.Some?) &&
                  (h.inc.Some? <==> hd.Some? && hd.value.incBlock.Some?) &&
                  (h.init.Some? ==> h.init.value.value == hd.value.initBlock.value) &&
                  (h.condition.Some? ==> h.condition.value.value == hd.value.conditionBlock.value) &&
                  (h.inc.Some? ==> h.inc.value.value == hd.value.incBlock.value))
            && (b.Some? && (data.kind == "while" || data.kind == "ifelse") ==>
                  var h, hd := b.value.node.header, data.headerBlocks;
                  IsCompound(b.value) && !b.value.node.ForLoop? && Height(b.value) == (if data.kind == "while" then 1 else 2) &&
                  h.init.None? && h.inc.None? &&
                  (h.condition.Some? <==> hd.Some? && hd.value.conditionBlock.Some?) &&
                  (h.condition.Some? ==> h.condition.value.value == hd.value.conditionBlock.value))
            && (b.Some? ==> WellFormed(b.value))
  {
    var (b, n) := CreateBlockFromData(data, next);
    if b.Some? && (data.kind == "while" || data.kind == "ifelse") {
      assert SumHeights([]) == 0;
    }
  }

  /** The ids createBlockFromData hands out are the fresh ones from next on, one per block it builds. */
  lemma {:induction false} CreateBlockFromDataFresh(data: BlockData, next: nat, u: BlockId)
    ensures var (b, n) := CreateBlockFromData(data, next);
            && (b.None? ==> n == next)
            && (b.Some? ==> Count(u, b.value) <= 1 && (Count(u, b.value) == 1 <==> next <= u < n))
  {
    var (b, n) := CreateBlockFromData(data, next);
    if b.Some? {
      assert CountSeq(u, []) == 0;
      match b.value.node
      case ForLoop(h, _) =>
        var hd := data.headerBlocks;
        if hd.Some? {
          var (init, n1) := if hd.value.initBlock.Some? then (Some(Slot(next + 1, false, hd.value.initBlock.value)), next + 2) else (None, next + 1);
          var (cond, n2) := if hd.value.conditionBlock.Some? then (Some(Slot(n1, false, hd.value.conditionBlock.value)), n1 + 1) else (None, n1);
          assert InnerCount(u, b.value) == SlotCount(u, h.init) + SlotCount(u, h.condition) + SlotCount(u, h.inc);
        }
      case _ =>
    }
  }

  // ----- Shop -----

  /** What a call returns, or the error it throws. */
  datatype Outcome = Returned(value: int) | Threw(error: string)

  class Shop {
    var contents: map<string, int>

    constructor (contents: map<string, int>)
      ensures this.contents == contents
    {
      this.contents := contents;
    }

    /** The price of a product as `contents[productType]` reads it, 0 when it has none. */
    function Price(productType: string): int
      reads this
    {
      if productType in contents then contents[productType] else 0
    }

    /**
     * buy with `this.contents`: -1 when the product has no price or the score
     * does not cover quantity * price, otherwise the score left after paying.
     */
    function Buy(score: int, productType: string, quantity: int): (r: int)
      reads this
      ensures (Price(productType) == 0 || score < quantity * Price(productType)) ==> r == -1
      ensures !(Price(productType) == 0 || score < quantity * Price(productType)) ==>
                r >= 0 && r + quantity * Price(productType) == score
    {
      if Price(productType) == 0 || score < quantity * Price(productType) then -1
      else score - quantity * Price(productType)
    }

    /**
     * buy as written reads an undeclared global `contents`; it is given here as
     * the global environment's binding, None when nothing declares it.
     */
    function BuyAsWritten(global: Option<map<string, int>>, score: int, productType: string, quantity: int): (r: Outcome)
      ensures global.None? ==> r.Threw?
    {
      match global
      case None => Threw("ReferenceError: contents is not defined")
      case Some(c) =>
        var price := if productType in c then c[productType] else 0;
        Returned(if price == 0 || score < quantity * price then -1 else score - quantity * price)
    }
  }

  /** initializeDefaultShop: a for block costs 5. */
  method InitializeDefaultShop() returns (shop: Shop)
    ensures fresh(shop) && shop.contents == map["forblock" := 5]
  {
    shop := new Shop(map[]);
    shop.contents := map["forblock" := 5];
  }

  /**
   * The default shop as written cannot sell anything: no script declares a
   * global `contents`, so buy throws where the intended price check returns
   * the score left.
   */
  lemma {:induction false} DefaultShopBuyThrows(shop: Shop)
    requires shop.contents == map["forblock" := 5]
    ensures shop.Buy(10, "forblock", 1) == 5
    ensures shop.Buy(4, "forblock", 1) == -1
    ensures shop.BuyAsWritten(None, 10, "forblock", 1).Threw?
  {
    assert shop.Price("forblock") == 5;
  }
}
