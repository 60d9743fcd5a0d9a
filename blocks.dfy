/**
 * The block family of the visual language (classes.js): leaf statement blocks,
 * header blocks, and compound blocks that own child lists and a header map.
 *
 * A block is a value carrying an id; the id stands for the JavaScript object's
 * identity, which is what `===` and `indexOf` compare.
 */
module Blocks {

  import opened Wrappers
  import Decimal

  type BlockId = nat

  /** A header block as stored in a compound's header map: its identity, its lock flag, its literal. */
  datatype Slot<T> = Slot(id: BlockId, isLocked: bool, value: T)

  /**
   * The header map of a compound block, keyed by header class. The source keeps
   * it in an object keyed by constructor name; a key can hold only a block of that
   * class, so each slot here has the type of its class.
   */
  datatype Header = Header(init: Option<Slot<int>>, condition: Option<Slot<string>>, inc: Option<Slot<int>>)

  const EmptyHeader := Header(None, None, None)

  datatype HeaderKind = InitKind | ConditionKind | IncKind

  datatype Block = Block(id: BlockId, isLocked: bool, node: Node)

  datatype Node =
    | Code(text: string)                      // CodeBlock: a statement over x
    | Print                                   // PrintBlock: logs x
    | Init(value: int)                        // InitBlock: start value of i
    | Condition(text: string)                 // ConditionBlock: a predicate
    | Inc(value: int)                         // IncBlock: signed delta of i
    | ForLoop(header: Header, children: seq<Block>)
    | While(header: Header, children: seq<Block>)
    | IfElse(header: Header, ifSection: seq<Block>, elseSection: seq<Block>)

  /** The header class of a block (its `instanceof` test), None for blocks that are not headers. */
  function KindOf(b: Block): Option<HeaderKind> {
    match b.node
    case Init(_) => Some(InitKind)
    case Condition(_) => Some(ConditionKind)
    case Inc(_) => Some(IncKind)
    case _ => None
  }

  predicate IsHeaderBlock(b: Block) {
    KindOf(b).Some?
  }

  predicate IsCompound(b: Block) {
    b.node.ForLoop? || b.node.While? || b.node.IfElse?
  }

  // ----- Labels -----

  function InitLabel(v: int): string {
    "let i = " + Decimal.IntToString(v)
  }

  /** Reads the start value back from an InitBlock label. */
  function ParseInitLabel(s: string): Option<int> {
    if |s| >= 8 && s[..8] == "let i = " then Decimal.ParseInt(s[8..]) else None
  }

  /** The label an InitBlock shows determines its value exactly. */
  lemma {:induction false} InitLabelRoundTrip(v: int)
    ensures ParseInitLabel(InitLabel(v)) == Some(v)
  {
    var s := InitLabel(v);
    assert s[..8] == "let i = " && s[8..] == Decimal.IntToString(v);
    Decimal.IntToStringRoundTrip(v);
  }

  /** The label of an IncBlock: `i += v`, or `i -= -v` when v is negative. */
  function IncLabel(v: int): string {
    if v >= 0 then "i += " + Decimal.IntToString(v) else "i -= " + Decimal.IntToString(-v)
  }

  /** Reads the signed delta back from an IncBlock label. */
  function ParseIncLabel(s: string): Option<int> {
    if |s| >= 5 && s[..5] == "i += " then
      match Decimal.ParseInt(s[5..])
      case Some(v) => if v >= 0 then Some(v) else None
      case None => None
    else if |s| >= 5 && s[..5] == "i -= " then
      match Decimal.ParseInt(s[5..])
      case Some(v) => if v > 0 then Some(-v) else None
      case None => None
    else None
  }

  /** The label an IncBlock shows determines its delta exactly. */
  lemma {:induction false} IncLabelRoundTrip(v: int)
    ensures ParseIncLabel(IncLabel(v)) == Some(v)
  {
    var s := IncLabel(v);
    if v >= 0 {
      assert s[..5] == "i += " && s[5..] == Decimal.IntToString(v);
      Decimal.IntToStringRoundTrip(v);
    } else {
      assert s[..5] == "i -= " && s[5..] == Decimal.IntToString(-v);
      Decimal.IntToStringRoundTrip(-v);
    }
  }

  /** The `text` field of every block class: what a header block runs as a statement and serializes. */
  function Text(b: Block): string {
    match b.node
    case Code(t) => t
    case Print => "print(x);"
    case Init(v) => InitLabel(v)
    case Condition(t) => t
    case Inc(v) => IncLabel(v)
    case ForLoop(_, _) => "for ("
    case While(_, _) => "while"
    case IfElse(_, _, _) => "if (...) { } else { }"
  }

  // ----- Constructors of the compound classes: no children, no headers -----

  function NewForLoop(id: BlockId): Block {
    Block(id, false, ForLoop(EmptyHeader, []))
  }

  function NewWhile(id: BlockId): Block {
    Block(id, false, While(EmptyHeader, []))
  }

  function NewIfElse(id: BlockId): Block {
    Block(id, false, IfElse(EmptyHeader, [], []))
  }

  // ----- Line heights (getHeightInLines) -----

  /** Lines a block occupies in the code area. */
  function Height(b: Block): (h: nat)
    ensures h >= 1
  {
    match b.node
    case ForLoop(_, ch) => 1 + SumHeights(ch)
    case While(_, ch) => 1 + SumHeights(ch)
    case IfElse(_, a, e) => 2 + SumHeights(a) + SumHeights(e)
    case _ => 1
  }

  /** A child list's height: the sum of its blocks' heights (SectionBlock.getHeightInLines). */
  function SumHeights(bs: seq<Block>): nat {
    if bs == [] then 0 else Height(bs[0]) + SumHeights(bs[1..])
  }

  lemma {:induction false} SumHeightsAppend(a: seq<Block>, c: seq<Block>)
    ensures SumHeights(a + c) == SumHeights(a) + SumHeights(c)
  {
    if a == [] {
      assert a + c == c;
    } else {
      assert (a + c)[1..] == a[1..] + c;
      SumHeightsAppend(a[1..], c);
    }
  }

  /** A list is at least as tall as it is long, since every block takes a line. */
  lemma {:induction false} SumHeightsAtLeastLength(bs: seq<Block>)
    ensures SumHeights(bs) >= |bs|
  {
    if bs != [] {
      SumHeightsAtLeastLength(bs[1..]);
    }
  }

  lemma {:induction false} SumHeightsRemove(bs: seq<Block>, k: nat)
    requires k < |bs|
    ensures SumHeights(bs[..k] + bs[k + 1..]) + Height(bs[k]) == SumHeights(bs)
  {
    assert bs == bs[..k] + [bs[k]] + bs[k + 1..];
    SumHeightsAppend(bs[..k] + [bs[k]], bs[k + 1..]);
    SumHeightsAppend(bs[..k], [bs[k]]);
    SumHeightsAppend(bs[..k], bs[k + 1..]);
    assert SumHeights([bs[k]]) == Height(bs[k]) by {
      assert [bs[k]][1..] == [];
    }
  }

  /** A compound holds only header blocks of classes it takes; its children are well formed too. */
  predicate WellFormed(b: Block) {
    match b.node
    case ForLoop(_, ch) => WellFormedSeq(ch)
    case While(h, ch) => h.init.None? && h.inc.None? && WellFormedSeq(ch)
    case IfElse(h, a, e) => h.init.None? && h.inc.None? && WellFormedSeq(a) && WellFormedSeq(e)
    case _ => true
  }

  predicate WellFormedSeq(bs: seq<Block>) {
    bs == [] || (WellFormed(bs[0]) && WellFormedSeq(bs[1..]))
  }

  // ----- Identities -----

  /*
   * Identity. Blocks are objects in the source and are compared with `===` and
   * `indexOf`; here each carries an id, and a block "holds" another when the
   * other's id is counted inside it. Counting rather than collecting keeps
   * "exactly this block and nothing else moved" a statement about numbers.
   */

  /** 1 when the slot holds the header block with id u. */
  function SlotCount<T>(u: BlockId, s: Option<Slot<T>>): nat {
    if s.Some? && s.value.id == u then 1 else 0
  }

  /** How many header blocks of a header map carry id u. */
  function HeaderCount(u: BlockId, h: Header): nat {
    SlotCount(u, h.init) + SlotCount(u, h.condition) + SlotCount(u, h.inc)
  }

  /** How many blocks held by b (headers and children at any depth, b itself excluded) carry id u. */
  function InnerCount(u: BlockId, b: Block): nat
    decreases b, 0
  {
    match b.node
    case ForLoop(h, ch) => HeaderCount(u, h) + CountSeq(u, ch)
    case While(h, ch) => HeaderCount(u, h) + CountSeq(u, ch)
    case IfElse(h, a, e) => HeaderCount(u, h) + CountSeq(u, a) + CountSeq(u, e)
    case _ => 0
  }

  /** How many blocks in b, b included, carry id u. */
  function Count(u: BlockId, b: Block): nat
    decreases b, 1
  {
    (if b.id == u then 1 else 0) + InnerCount(u, b)
  }

  function CountSeq(u: BlockId, bs: seq<Block>): nat
    decreases bs
  {
    if bs == [] then 0 else Count(u, bs[0]) + CountSeq(u, bs[1..])
  }

  lemma {:induction false} CountSeqAppend(u: BlockId, a: seq<Block>, c: seq<Block>)
    ensures CountSeq(u, a + c) == CountSeq(u, a) + CountSeq(u, c)
  {
    if a == [] {
      assert a + c == c;
    } else {
      assert (a + c)[1..] == a[1..] + c;
      CountSeqAppend(u, a[1..], c);
    }
  }

  /** Taking one block out of a list takes out exactly what that block counts. */
  lemma {:induction false} CountSeqRemove(u: BlockId, bs: seq<Block>, k: nat)
    requires k < |bs|
    ensures CountSeq(u, bs[..k] + bs[k + 1..]) + Count(u, bs[k]) == CountSeq(u, bs)
  {
    var a, m, z := bs[..k], [bs[k]], bs[k + 1..];
    assert bs == a + m + z;
    CountSeqAppend(u, a + m, z);
    CountSeqAppend(u, a, m);
    CountSeqAppend(u, a, z);
    assert CountSeq(u, m) == Count(u, bs[k]) by {
      assert m[1..] == [];
    }
  }

  // ----- Header map operations -----

  function HeaderOf(b: Block): Header
    requires IsCompound(b)
  {
    b.node.header
  }

  function WithHeader(b: Block, h: Header): (r: Block)
    requires IsCompound(b)
    ensures IsCompound(r) && HeaderOf(r) == h && r.id == b.id && r.isLocked == b.isLocked
    ensures r.node == b.node.(header := h)
  {
    Block(b.id, b.isLocked, b.node.(header := h))
  }

  function SlotId(h: Header, k: HeaderKind): Option<BlockId> {
    match k
    case InitKind => if h.init.Some? then Some(h.init.value.id) else None
    case ConditionKind => if h.condition.Some? then Some(h.condition.value.id) else None
    case IncKind => if h.inc.Some? then Some(h.inc.value.id) else None
  }

  /** hasHeaderBlock(type) */
  predicate HasHeader(h: Header, k: HeaderKind) {
    SlotId(h, k).Some?
  }

  /** The header block held under a kind, rebuilt as the block it was. */
  function HeaderBlockAt(h: Header, k: HeaderKind): (r: Option<Block>)
    ensures r.Some? <==> HasHeader(h, k)
    ensures r.Some? ==> KindOf(r.value) == Some(k) && Some(r.value.id) == SlotId(h, k)
  {
    match k
    case InitKind => if h.init.Some? then Some(Block(h.init.value.id, h.init.value.isLocked, Init(h.init.value.value))) else None
    case ConditionKind =>
      if h.condition.Some? then Some(Block(h.condition.value.id, h.condition.value.isLocked, Condition(h.condition.value.value))) else None
    case IncKind => if h.inc.Some? then Some(Block(h.inc.value.id, h.inc.value.isLocked, Inc(h.inc.value.value))) else None
  }

  /** Stores a header block under its own kind, replacing whatever was there. */
  function Install(h: Header, hb: Block): (r: Header)
    requires IsHeaderBlock(hb)
    ensures HeaderBlockAt(r, KindOf(hb).value) == Some(hb)
    ensures forall k :: k != KindOf(hb).value ==> HeaderBlockAt(r, k) == HeaderBlockAt(h, k)
  {
    match hb.node
    case Init(v) => h.(init := Some(Slot(hb.id, hb.isLocked, v)))
    case Condition(t) => h.(condition := Some(Slot(hb.id, hb.isLocked, t)))
    case Inc(v) => h.(inc := Some(Slot(hb.id, hb.isLocked, v)))
  }

  function Clear(h: Header, k: HeaderKind): (r: Header)
    ensures !HasHeader(r, k)
    ensures forall k' :: k' != k ==> HeaderBlockAt(r, k') == HeaderBlockAt(h, k')
  {
    match k
    case InitKind => h.(init := None)
    case ConditionKind => h.(condition := None)
    case IncKind => h.(inc := None)
  }

  /**
   * addHeaderBlock: stores the header block under its class name. It overwrites;
   * only acceptHeader guards against that.
   */
  function AddHeaderBlock(b: Block, hb: Block): (r: Block)
    requires IsCompound(b) && IsHeaderBlock(hb)
    ensures IsCompound(r) && r.id == b.id && Height(r) == Height(b)
    // only the header map changes: kind, lock flag and children are kept
    ensures r == WithHeader(b, HeaderOf(r))
    ensures HeaderBlockAt(HeaderOf(r), KindOf(hb).value) == Some(hb)
    ensures forall k :: k != KindOf(hb).value ==> HeaderBlockAt(HeaderOf(r), k) == HeaderBlockAt(HeaderOf(b), k)
  {
    WithHeader(b, Install(HeaderOf(b), hb))
  }

  /** Which header classes a compound takes: a for-loop takes all three, every other compound only a condition. */
  predicate TakesKind(b: Block, k: HeaderKind)
    requires IsCompound(b)
  {
    b.node.ForLoop? || k == ConditionKind
  }

  /**
   * acceptHeader (CompoundBlock, ForLoopBlock and IfElseBlock versions): stores the
   * header block when its class is one the compound takes and that slot is empty.
   */
  function AcceptHeader(b: Block, hb: Block): (r: (bool, Block))
    requires IsCompound(b)
    ensures r.0 <==> IsHeaderBlock(hb) && TakesKind(b, KindOf(hb).value) && !HasHeader(HeaderOf(b), KindOf(hb).value)
    ensures IsCompound(r.1) && r.1.id == b.id && Height(r.1) == Height(b)
    ensures r.1 == WithHeader(b, HeaderOf(r.1))
    ensures r.0 ==> HeaderBlockAt(HeaderOf(r.1), KindOf(hb).value) == Some(hb)
    ensures r.0 ==> forall k :: k != KindOf(hb).value ==> HeaderBlockAt(HeaderOf(r.1), k) == HeaderBlockAt(HeaderOf(b), k)
    ensures !r.0 ==> r.1 == b
    // a slot that was filled keeps its block: nothing is ever overwritten
    ensures forall k :: HasHeader(HeaderOf(b), k) ==> HeaderBlockAt(HeaderOf(r.1), k) == HeaderBlockAt(HeaderOf(b), k)
  {
    if IsHeaderBlock(hb) && TakesKind(b, KindOf(hb).value) && !HasHeader(HeaderOf(b), KindOf(hb).value) then
      (true, AddHeaderBlock(b, hb))
    else
      (false, b)
  }

  /** removeHeaderBlock: deletes the slot of the block's class only when it holds that very block. */
  function RemoveHeaderBlock(b: Block, hb: Block): (r: Block)
    requires IsCompound(b)
    ensures IsCompound(r) && r.id == b.id && Height(r) == Height(b)
    ensures r == WithHeader(b, HeaderOf(r))
    ensures IsHeaderBlock(hb) && SlotId(HeaderOf(b), KindOf(hb).value) == Some(hb.id) ==>
              !HasHeader(HeaderOf(r), KindOf(hb).value) &&
              forall k :: k != KindOf(hb).value ==> HeaderBlockAt(HeaderOf(r), k) == HeaderBlockAt(HeaderOf(b), k)
    ensures !(IsHeaderBlock(hb) && SlotId(HeaderOf(b), KindOf(hb).value) == Some(hb.id)) ==> r == b
  {
    if IsHeaderBlock(hb) && SlotId(HeaderOf(b), KindOf(hb).value) == Some(hb.id) then
      WithHeader(b, Clear(HeaderOf(b), KindOf(hb).value))
    else
      b
  }

  /** Removing an accepted header block gives back the compound as it was. */
  lemma {:induction false} AcceptThenRemove(b: Block, hb: Block)
    requires IsCompound(b) && AcceptHeader(b, hb).0
    ensures RemoveHeaderBlock(AcceptHeader(b, hb).1, hb) == b
  {
    var k := KindOf(hb).value;
    var h := HeaderOf(b);
    var h' := Clear(Install(h, hb), k);
    assert h' == h by {
      match k
      case InitKind => assert h.init.None?;
      case ConditionKind => assert h.condition.None?;
      case IncKind => assert h.inc.None?;
    }
  }

  // ----- Child lists (addChild) -----

  /**
   * addChild: appends to the child list; an if/else appends to the section the
   * drop landed in, which the source reads from the mouse position and is a
   * parameter here.
   */
  function AddChild(b: Block, c: Block, toElse: bool): (r: Block)
    requires IsCompound(b)
    ensures IsCompound(r) && r.id == b.id && r.isLocked == b.isLocked && HeaderOf(r) == HeaderOf(b)
    ensures r.node.ForLoop? == b.node.ForLoop? && r.node.While? == b.node.While? && r.node.IfElse? == b.node.IfElse?
    ensures Height(r) == Height(b) + Height(c)
    ensures !b.node.IfElse? ==> r.node.children == b.node.children + [c]
    ensures b.node.IfElse? ==>
              r.node.ifSection == (if toElse then b.node.ifSection else b.node.ifSection + [c]) &&
              r.node.elseSection == (if toElse then b.node.elseSection + [c] else b.node.elseSection)
  {
    match b.node
    case ForLoop(h, ch) =>
      SumHeightsAppend(ch, [c]);
      assert [c][1..] == [];
      Block(b.id, b.isLocked, ForLoop(h, ch + [c]))
    case While(h, ch) =>
      SumHeightsAppend(ch, [c]);
      assert [c][1..] == [];
      Block(b.id, b.isLocked, While(h, ch + [c]))
    case IfElse(h, a, e) =>
      assert [c][1..] == [];
      if toElse then
        SumHeightsAppend(e, [c]);
        Block(b.id, b.isLocked, IfElse(h, a, e + [c]))
      else
        SumHeightsAppend(a, [c]);
        Block(b.id, b.isLocked, IfElse(h, a + [c], e))
  }
}
