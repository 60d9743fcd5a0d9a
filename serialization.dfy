/**
 * The plain-object form of blocks: `serialize()` of every block class and the
 * global `deserialize(obj)` (classes.js). A user's saved program goes through
 * both (User.serialize / User.deserialize in states.js).
 *
 * As written, serialize reads fields no block ever sets (a compound keeps its
 * header blocks in its header map, not in `init`, `cond` and `inc`), and
 * deserialize puts an if/else's bodies into fields nothing reads. The functions
 * below model that; the `Full` variants keep the header and both sections and
 * carry the round trip the format was evidently meant to have.
 */
module Serialization {

  import opened Wrappers
  import opened Blocks
  import Interpreter

  /** A serialized block. The optional fields are the ones a block may leave undefined. */
  datatype Data =
    | CodeData(text: string)
    | PrintData
    | CondData(text: string)
    | InitData(text: string)
    | IncData(text: string)
    | WhileData(cond: Option<string>, body: seq<Data>)
    | IfElseData(cond: Option<string>, ifBody: seq<Data>, elseBody: seq<Data>)
    | ForData(init: Option<string>, cond: Option<string>, inc: Option<string>, body: seq<Data>)
    | UnknownData(tag: string)   // an object whose type deserialize does not know
    | NullData                   // null, or any other falsy value

  // ----- As written -----

  /** serialize(): compounds write their legacy `init`/`cond`/`inc` fields, which are never set. */
  function Serialize(b: Block): (d: Data)
    ensures IsCompound(b) ==> d.ForData? || d.WhileData? || d.IfElseData?
    ensures d.ForData? ==> d.init.None? && d.cond.None? && d.inc.None?
    ensures d.WhileData? ==> d.cond.None?
    ensures d.IfElseData? ==> d.cond.None?
  {
    match b.node
    case Code(t) => CodeData(t)
    case Print => PrintData
    case Init(v) => InitData(InitLabel(v))
    case Condition(t) => CondData(t)
    case Inc(v) => IncData(IncLabel(v))
    case ForLoop(_, ch) => ForData(None, None, None, SerializeSeq(ch))
    case While(_, ch) => WhileData(None, SerializeSeq(ch))
    case IfElse(_, a, e) => IfElseData(None, SerializeSeq(a), SerializeSeq(e))
  }

  /** `children.map(b => b.serialize())` */
  function SerializeSeq(bs: seq<Block>): (ds: seq<Data>)
    ensures |ds| == |bs|
  {
    if bs == [] then [] else [Serialize(bs[0])] + SerializeSeq(bs[1..])
  }

  /**
   * deserialize(obj): a block, or None where the source returns null. New blocks
   * take the ids next, next + 1, ...; the second component is the first id left
   * unused. Only the `code`, `print`, `while`, `ifelse` and `for` types are known.
   */
  function Deserialize(d: Data, next: nat): (r: (Option<Block>, nat))
    ensures r.1 >= next
    ensures r.0.Some? <==> d.CodeData? || d.PrintData? || d.WhileData? || d.IfElseData? || d.ForData?
  {
    match d
    case CodeData(t) => (Some(Block(next, false, Code(t))), next + 1)
    case PrintData => (Some(Block(next, false, Print)), next + 1)
    case WhileData(_, body) =>
      var (ch, n) := DeserializeSeq(body, next + 1);
      (Some(Block(next, false, While(EmptyHeader, ch))), n)
    case IfElseData(_, _, _) =>
      // the bodies go to fields that neither evaluation nor layout reads
      (Some(NewIfElse(next)), next + 1)
    case ForData(_, _, _, body) =>
      var (ch, n) := DeserializeSeq(body, next + 1);
      (Some(Block(next, false, ForLoop(EmptyHeader, ch))), n)
    case _ => (None, next)
  }

  /** `body.map(deserialize)`, keeping the blocks (a null entry is dropped). */
  function DeserializeSeq(ds: seq<Data>, next: nat): (r: (seq<Block>, nat))
    ensures r.1 >= next
    ensures |r.0| <= |ds|
  {
    if ds == [] then ([], next)
    else
      var (b, n) := Deserialize(ds[0], next);
      var (rest, n') := DeserializeSeq(ds[1..], n);
      if b.Some? then ([b.value] + rest, n') else (rest, n')
  }

  /** Every block deserialize builds is a new object: any id it holds is one of the fresh ones from next on. */
  lemma {:induction false} DeserializeFresh(d: Data, next: nat, u: BlockId)
    ensures var (b, n) := Deserialize(d, next);
            b.Some? && Count(u, b.value) > 0 ==> next <= u < n
    decreases d, 1
  {
    match d
    case WhileData(_, body) =>
      DeserializeSeqFresh(body, next + 1, u);
      var b := Deserialize(d, next).0.value;
      assert Count(u, b) == (if next == u then 1 else 0) + HeaderCount(u, EmptyHeader) + CountSeq(u, b.node.children);
    case ForData(_, _, _, body) =>
      DeserializeSeqFresh(body, next + 1, u);
      var b := Deserialize(d, next).0.value;
      assert Count(u, b) == (if next == u then 1 else 0) + HeaderCount(u, EmptyHeader) + CountSeq(u, b.node.children);
    case IfElseData(_, _, _) =>
      assert CountSeq(u, []) == 0 && HeaderCount(u, EmptyHeader) == 0;
      assert InnerCount(u, NewIfElse(next)) == 0;
    case CodeData(t) =>
      assert InnerCount(u, Block(next, false, Code(t))) == 0;
    case PrintData =>
      assert InnerCount(u, Block(next, false, Print)) == 0;
    case _ =>
  }

  lemma {:induction false} DeserializeSeqFresh(ds: seq<Data>, next: nat, u: BlockId)
    ensures var (bs, n) := DeserializeSeq(ds, next);
            CountSeq(u, bs) > 0 ==> next <= u < n
    decreases ds, 0
  {
    if ds != [] {
      var (b, n) := Deserialize(ds[0], next);
      DeserializeFresh(ds[0], next, u);
      DeserializeSeqFresh(ds[1..], n, u);
      var rest := DeserializeSeq(ds[1..], n).0;
      if b.Some? {
        assert ([b.value] + rest)[1..] == rest;
      }
    }
  }

  // ----- Comparing blocks up to identity -----

  function EraseHeader(h: Header): Header {
    Header(
      if h.init.Some? then Some(Slot(0, false, h.init.value.value)) else None,
      if h.condition.Some? then Some(Slot(0, false, h.condition.value.value)) else None,
      if h.inc.Some? then Some(Slot(0, false, h.inc.value.value)) else None)
  }

  /**
   * The block with every id set to 0 and every lock cleared: what survives of a
   * block in its serialized form, which records neither.
   */
  function Erase(b: Block): Block {
    Block(0, false,
      match b.node
      case ForLoop(h, ch) => ForLoop(EraseHeader(h), EraseSeq(ch))
      case While(h, ch) => While(EraseHeader(h), EraseSeq(ch))
      case IfElse(h, a, e) => IfElse(EraseHeader(h), EraseSeq(a), EraseSeq(e))
      case n => n)
  }

  function EraseSeq(bs: seq<Block>): (r: seq<Block>)
    ensures |r| == |bs|
  {
    if bs == [] then [] else [Erase(bs[0])] + EraseSeq(bs[1..])
  }

  // ----- What a reload keeps, as written -----

  /** A header block is written with a type deserialize does not know: it does not come back. */
  lemma {:induction false} HeaderBlockIsLost(b: Block, next: nat)
    requires IsHeaderBlock(b)
    ensures Deserialize(Serialize(b), next).0 == None
  {
  }

  /** Code and print blocks come back as they were, up to identity and lock. */
  lemma {:induction false} StatementRoundTrip(b: Block, next: nat)
    requires b.node.Code? || b.node.Print?
    ensures Deserialize(Serialize(b), next).0.Some?
    ensures Erase(Deserialize(Serialize(b), next).0.value) == Erase(b)
  {
  }

  /**
   * A compound comes back of the same class but with an empty header, and an
   * if/else with both sections empty; a loop's children come back as
   * ReloadedSeq says.
   */
  lemma {:induction false} CompoundLosesHeader(b: Block, next: nat)
    requires IsCompound(b)
    ensures Deserialize(Serialize(b), next).0.Some?
    ensures var r := Deserialize(Serialize(b), next).0.value;
              IsCompound(r) && HeaderOf(r) == EmptyHeader &&
              r.node.ForLoop? == b.node.ForLoop? && r.node.While? == b.node.While? && r.node.IfElse? == b.node.IfElse? &&
              (r.node.IfElse? ==> r.node.ifSection == [] && r.node.elseSection == []) &&
              (r.node.ForLoop? || r.node.While? ==> EraseSeq(r.node.children) == ReloadedSeq(b.node.children))
  {
    if b.node.ForLoop? || b.node.While? {
      ReloadSeqErased(b.node.children, next + 1);
    }
  }

  /**
   * What a save and a load give back, up to identity and locks, stated block
   * by block: a statement as it was, a header block nothing, a loop an empty
   * header over what its children give back, an if/else an empty block.
   */
  function Reloaded(b: Block): (r: Option<Block>)
    ensures r.Some? <==> !IsHeaderBlock(b)
    decreases b, 1
  {
    match b.node
    case Code(_) => Some(Erase(b))
    case Print => Some(Erase(b))
    case ForLoop(_, ch) => Some(Block(0, false, ForLoop(EmptyHeader, ReloadedSeq(ch))))
    case While(_, ch) => Some(Block(0, false, While(EmptyHeader, ReloadedSeq(ch))))
    case IfElse(_, _, _) => Some(Block(0, false, IfElse(EmptyHeader, [], [])))
    case _ => None
  }

  /** The children that come back, in order; header blocks among them are gone. */
  function ReloadedSeq(bs: seq<Block>): (r: seq<Block>)
    ensures |r| <= |bs|
    decreases bs, 0
  {
    if bs == [] then []
    else
      var rest := ReloadedSeq(bs[1..]);
      if Reloaded(bs[0]).Some? then [Reloaded(bs[0]).value] + rest else rest
  }

  /** deserialize(serialize(b)) is Reloaded(b), at any depth, whatever ids it hands out. */
  lemma {:induction false} ReloadErased(b: Block, next: nat)
    ensures var r := Deserialize(Serialize(b), next).0;
            (r.Some? <==> Reloaded(b).Some?) && (r.Some? ==> Erase(r.value) == Reloaded(b).value)
    decreases b, 1
  {
    match b.node
    case ForLoop(_, ch) => ReloadSeqErased(ch, next + 1);
    case While(_, ch) => ReloadSeqErased(ch, next + 1);
    case _ =>
  }

  lemma {:induction false} ReloadSeqErased(bs: seq<Block>, next: nat)
    ensures EraseSeq(DeserializeSeq(SerializeSeq(bs), next).0) == ReloadedSeq(bs)
    decreases bs, 0
  {
    if bs != [] {
      var ds := SerializeSeq(bs);
      assert ds[0] == Serialize(bs[0]) && ds[1..] == SerializeSeq(bs[1..]);
      ReloadErased(bs[0], next);
      ReloadSeqErased(bs[1..], Deserialize(ds[0], next).1);
    }
  }

  /** A body without header blocks comes back with as many blocks as it had. */
  lemma {:induction false} ReloadedKeepsLength(bs: seq<Block>)
    requires forall j :: 0 <= j < |bs| ==> !IsHeaderBlock(bs[j])
    ensures |ReloadedSeq(bs)| == |bs|
  {
    if bs != [] {
      ReloadedKeepsLength(bs[1..]);
    }
  }

  /** A loop whose children are all statements gets them back, in order and unchanged up to identity. */
  lemma {:induction false} StatementsReload(bs: seq<Block>)
    requires forall j :: 0 <= j < |bs| ==> bs[j].node.Code? || bs[j].node.Print?
    ensures ReloadedSeq(bs) == EraseSeq(bs)
  {
    if bs != [] {
      StatementsReload(bs[1..]);
    }
  }

  /** Every compound that comes back from a reload evaluates as the identity. */
  lemma {:induction false} ReloadedCompoundIsInert(rt: Interpreter.Runtime, b: Block, next: nat, x: int, fuel: nat)
    requires IsCompound(b)
    ensures Deserialize(Serialize(b), next).0.Some?
    ensures Interpreter.Run(rt, Deserialize(Serialize(b), next).0.value, x, fuel) == Some(x)
  {
    CompoundLosesHeader(b, next);
    Interpreter.MissingHeaderIsNoOp(rt, Deserialize(Serialize(b), next).0.value, x, fuel);
  }

  /**
   * An input that shows the loss: an if/else whose condition holds and whose
   * if-section adds one to x returns 1 on 0, and 0 once saved and loaded.
   */
  lemma {:induction false} ReloadChangesResult()
    ensures var rt := Interpreter.Runtime((t, x) => Some(x + 1), (t, x) => Some(true), (t, x, i) => Some(false));
            var b := Block(0, false, IfElse(Header(None, Some(Slot(1, false, "x < 10")), None), [Block(2, false, Code("x += 1;"))], []));
            Interpreter.Run(rt, b, 0, 0) == Some(1) &&
            Deserialize(Serialize(b), 0).0.Some? &&
            Interpreter.Run(rt, Deserialize(Serialize(b), 0).0.value, 0, 0) == Some(0)
  {
    var rt := Interpreter.Runtime((t, x) => Some(x + 1), (t, x) => Some(true), (t, x, i) => Some(false));
    var c := Block(2, false, Code("x += 1;"));
    var b := Block(0, false, IfElse(Header(None, Some(Slot(1, false, "x < 10")), None), [c], []));
    assert Interpreter.Run(rt, c, 0, 0) == Some(1);
    assert Interpreter.RunSeq(rt, [c], 0, 0) == Some(1) by {
      assert [c][1..] == [];
    }
    ReloadedCompoundIsInert(rt, b, 0, 0, 0);
  }

  // ----- With the header and both sections kept -----

  /** serialize() writing what each compound holds: its header labels and both if/else sections. */
  function SerializeFull(b: Block): (d: Data)
    ensures IsCompound(b) ==> d.ForData? || d.WhileData? || d.IfElseData?
  {
    match b.node
    case Code(t) => CodeData(t)
    case Print => PrintData
    case Init(v) => InitData(InitLabel(v))
    case Condition(t) => CondData(t)
    case Inc(v) => IncData(IncLabel(v))
    case ForLoop(h, ch) =>
      ForData(
        if h.init.Some? then Some(InitLabel(h.init.value.value)) else None,
        if h.condition.Some? then Some(h.condition.value.value) else None,
        if h.inc.Some? then Some(IncLabel(h.inc.value.value)) else None,
        SerializeFullSeq(ch))
    case While(h, ch) =>
      WhileData(if h.condition.Some? then Some(h.condition.value.value) else None, SerializeFullSeq(ch))
    case IfElse(h, a, e) =>
      IfElseData(if h.condition.Some? then Some(h.condition.value.value) else None, SerializeFullSeq(a), SerializeFullSeq(e))
  }

  function SerializeFullSeq(bs: seq<Block>): (ds: seq<Data>)
    ensures |ds| == |bs|
  {
    if bs == [] then [] else [SerializeFull(bs[0])] + SerializeFullSeq(bs[1..])
  }

  /** A header slot read back from its label, under a fresh id. */
  function InitSlot(t: Option<string>, id: BlockId): Option<Slot<int>> {
    if t.Some? && ParseInitLabel(t.value).Some? then Some(Slot(id, false, ParseInitLabel(t.value).value)) else None
  }

  function IncSlot(t: Option<string>, id: BlockId): Option<Slot<int>> {
    if t.Some? && ParseIncLabel(t.value).Some? then Some(Slot(id, false, ParseIncLabel(t.value).value)) else None
  }

  function CondSlot(t: Option<string>, id: BlockId): Option<Slot<string>> {
    if t.Some? then Some(Slot(id, false, t.value)) else None
  }

  /**
   * deserialize(obj) restoring headers, header blocks and both if/else sections.
   * A compound takes the id next and reserves next + 1 .. next + 3 for its header
   * blocks; its children follow.
   */
  function DeserializeFull(d: Data, next: nat): (r: (Option<Block>, nat))
    ensures r.1 >= next
    ensures r.0.Some? <==> !(d.UnknownData? || d.NullData? || (d.InitData? && ParseInitLabel(d.text).None?) ||
                             (d.IncData? && ParseIncLabel(d.text).None?))
  {
    match d
    case CodeData(t) => (Some(Block(next, false, Code(t))), next + 1)
    case PrintData => (Some(Block(next, false, Print)), next + 1)
    case CondData(t) => (Some(Block(next, false, Condition(t))), next + 1)
    case InitData(t) =>
      if ParseInitLabel(t).Some? then (Some(Block(next, false, Init(ParseInitLabel(t).value))), next + 1) else (None, next)
    case IncData(t) =>
      if ParseIncLabel(t).Some? then (Some(Block(next, false, Inc(ParseIncLabel(t).value))), next + 1) else (None, next)
    case WhileData(c, body) =>
      var (ch, n) := DeserializeFullSeq(body, next + 4);
      (Some(Block(next, false, While(Header(None, CondSlot(c, next + 2), None), ch))), n)
    case IfElseData(c, ifBody, elseBody) =>
      var (a, n) := DeserializeFullSeq(ifBody, next + 4);
      var (e, n') := DeserializeFullSeq(elseBody, n);
      (Some(Block(next, false, IfElse(Header(None, CondSlot(c, next + 2), None), a, e))), n')
    case ForData(i, c, s, body) =>
      var (ch, n) := DeserializeFullSeq(body, next + 4);
      (Some(Block(next, false, ForLoop(Header(InitSlot(i, next + 1), CondSlot(c, next + 2), IncSlot(s, next + 3)), ch))), n)
    case _ => (None, next)
  }

  function DeserializeFullSeq(ds: seq<Data>, next: nat): (r: (seq<Block>, nat))
    ensures r.1 >= next
  {
    if ds == [] then ([], next)
    else
      var (b, n) := DeserializeFull(ds[0], next);
      var (rest, n') := DeserializeFullSeq(ds[1..], n);
      if b.Some? then ([b.value] + rest, n') else (rest, n')
  }

  lemma {:induction false} HeaderRoundTrip(h: Header, id: nat)
    ensures EraseHeader(Header(
              InitSlot(if h.init.Some? then Some(InitLabel(h.init.value.value)) else None, id + 1),
              CondSlot(if h.condition.Some? then Some(h.condition.value.value) else None, id + 2),
              IncSlot(if h.inc.Some? then Some(IncLabel(h.inc.value.value)) else None, id + 3))) == EraseHeader(h)
  {
    if h.init.Some? {
      InitLabelRoundTrip(h.init.value.value);
    }
    if h.inc.Some? {
      IncLabelRoundTrip(h.inc.value.value);
    }
  }

  /** Every well-formed block survives a save and a load whole, up to identity and locks. */
  lemma {:induction false} FullRoundTrip(b: Block, next: nat)
    requires WellFormed(b)
    ensures DeserializeFull(SerializeFull(b), next).0.Some?
    ensures Erase(DeserializeFull(SerializeFull(b), next).0.value) == Erase(b)
    decreases b, 1
  {
    match b.node
    case Init(v) => InitLabelRoundTrip(v);
    case Inc(v) => IncLabelRoundTrip(v);
    case ForLoop(_, _) => ForRoundTrip(b, next);
    case While(_, _) => WhileRoundTrip(b, next);
    case IfElse(_, _, _) => IfElseRoundTrip(b, next);
    case Code(_) =>
    case Print =>
    case Condition(_) =>
  }

  lemma {:induction false} ForRoundTrip(b: Block, next: nat)
    requires b.node.ForLoop? && WellFormed(b)
    ensures DeserializeFull(SerializeFull(b), next).0.Some?
    ensures Erase(DeserializeFull(SerializeFull(b), next).0.value) == Erase(b)
    decreases b, 0
  {
    var h, ch := b.node.header, b.node.children;
    HeaderRoundTrip(h, next);
    FullSeqRoundTrip(ch, next + 4);
  }

  lemma {:induction false} WhileRoundTrip(b: Block, next: nat)
    requires b.node.While? && WellFormed(b)
    ensures DeserializeFull(SerializeFull(b), next).0.Some?
    ensures Erase(DeserializeFull(SerializeFull(b), next).0.value) == Erase(b)
    decreases b, 0
  {
    var h, ch := b.node.header, b.node.children;
    HeaderRoundTrip(h, next);
    FullSeqRoundTrip(ch, next + 4);
  }

  lemma {:induction false} IfElseRoundTrip(b: Block, next: nat)
    requires b.node.IfElse? && WellFormed(b)
    ensures DeserializeFull(SerializeFull(b), next).0.Some?
    ensures Erase(DeserializeFull(SerializeFull(b), next).0.value) == Erase(b)
    decreases b, 0
  {
    var h, a, e := b.node.header, b.node.ifSection, b.node.elseSection;
    HeaderRoundTrip(h, next);
    FullSeqRoundTrip(a, next + 4);
    FullSeqRoundTrip(e, DeserializeFullSeq(SerializeFullSeq(a), next + 4).1);
  }

  lemma {:induction false} FullSeqRoundTrip(bs: seq<Block>, next: nat)
    requires WellFormedSeq(bs)
    ensures EraseSeq(DeserializeFullSeq(SerializeFullSeq(bs), next).0) == EraseSeq(bs)
    decreases bs, 0
  {
    if bs != [] {
      var ds := SerializeFullSeq(bs);
      assert ds[0] == SerializeFull(bs[0]) && ds[1..] == SerializeFullSeq(bs[1..]);
      FullRoundTrip(bs[0], next);
      FullSeqRoundTrip(bs[1..], DeserializeFull(ds[0], next).1);
    }
  }

  // ----- Evaluation does not depend on identity or locks -----

  lemma {:induction false} RunErase(rt: Interpreter.Runtime, b: Block, x: int, fuel: nat)
    ensures Interpreter.Run(rt, Erase(b), x, fuel) == Interpreter.Run(rt, b, x, fuel)
    decreases fuel, b, 0
  {
    match b.node
    case ForLoop(h, ch) =>
      if !(h.init.None? || h.condition.None? || h.inc.None?) {
        ForIterErase(rt, h.condition.value.value, h.inc.value.value, ch, h.init.value.value, x, fuel, fuel);
      }
    case While(h, ch) =>
      if h.condition.Some? {
        WhileIterErase(rt, h.condition.value.value, ch, 0, x, fuel);
      }
    case IfElse(h, a, e) =>
      RunSeqErase(rt, a, x, fuel);
      RunSeqErase(rt, e, x, fuel);
    case _ =>
  }

  lemma {:induction false} RunSeqErase(rt: Interpreter.Runtime, bs: seq<Block>, x: int, fuel: nat)
    ensures Interpreter.RunSeq(rt, EraseSeq(bs), x, fuel) == Interpreter.RunSeq(rt, bs, x, fuel)
    decreases fuel, bs, 0
  {
    if bs != [] {
      var es := EraseSeq(bs);
      assert es[0] == Erase(bs[0]) && es[1..] == EraseSeq(bs[1..]);
      RunErase(rt, bs[0], x, fuel);
      var y := Interpreter.Run(rt, bs[0], x, fuel);
      if y.Some? {
        RunSeqErase(rt, bs[1..], y.value, fuel);
      }
    }
  }

  lemma {:induction false} ForIterErase(rt: Interpreter.Runtime, cond: string, delta: int, ch: seq<Block>, i: int, x: int, fuel: nat, left: nat)
    ensures Interpreter.ForIter(rt, cond, delta, EraseSeq(ch), i, x, fuel, left) == Interpreter.ForIter(rt, cond, delta, ch, i, x, fuel, left)
    decreases fuel, ch, left
  {
    if rt.loopCondition(cond, x, i) == Some(true) && left > 0 {
      RunSeqErase(rt, ch, x, fuel);
      var y := Interpreter.RunSeq(rt, ch, x, fuel);
      if y.Some? {
        ForIterErase(rt, cond, delta, ch, i + delta, y.value, fuel, left - 1);
      }
    }
  }

  lemma {:induction false} WhileIterErase(rt: Interpreter.Runtime, cond: string, ch: seq<Block>, count: nat, x: int, fuel: nat)
    requires count <= Interpreter.MaxIterations
    ensures Interpreter.WhileIter(rt, cond, EraseSeq(ch), count, x, fuel) == Interpreter.WhileIter(rt, cond, ch, count, x, fuel)
    decreases fuel, ch, Interpreter.MaxIterations - count + 1
  {
    if Interpreter.Holds(rt, cond, x) && count < Interpreter.MaxIterations {
      RunSeqErase(rt, ch, x, fuel);
      var y := Interpreter.RunSeq(rt, ch, x, fuel);
      if y.Some? {
        WhileIterErase(rt, cond, ch, count + 1, y.value, fuel);
      }
    }
  }

  /** A program saved and loaded with the full format computes what it computed before. */
  lemma {:induction false} FullReloadKeepsResult(rt: Interpreter.Runtime, b: Block, next: nat, x: int, fuel: nat)
    requires WellFormed(b)
    ensures DeserializeFull(SerializeFull(b), next).0.Some?
    ensures Interpreter.Run(rt, DeserializeFull(SerializeFull(b), next).0.value, x, fuel) == Interpreter.Run(rt, b, x, fuel)
  {
    FullRoundTrip(b, next);
    var r := DeserializeFull(SerializeFull(b), next).0.value;
    RunErase(rt, r, x, fuel);
    RunErase(rt, b, x, fuel);
  }
}
