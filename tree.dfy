/**
 * Edits inside the block tree (main.js): taking a block out wherever it sits
 * (recursiveRemove), appending a dropped block to a compound found by identity
 * (the compoundHover branch of mouseReleased), and moving a block to the end of
 * its list (promoteBlock).
 *
 * Identity is the block id; `indexOf` and `===` compare ids.
 */
module TreeEdit {

  import opened Wrappers
  import opened Blocks

  /** `indexOf` by identity: the first position holding the block with id t, |bs| when there is none. */
  function IndexOf(bs: seq<Block>, t: BlockId): (k: nat)
    ensures k <= |bs|
    ensures k < |bs| ==> bs[k].id == t
    ensures forall j :: 0 <= j < k ==> bs[j].id != t
  {
    if bs == [] then 0 else if bs[0].id == t then 0 else 1 + IndexOf(bs[1..], t)
  }

  /** `delete header[key]` for the key holding id t; the second component is the header block taken out. */
  function RemoveFromHeader(h: Header, t: BlockId): (r: (Header, Block))
    requires HeaderCount(t, h) > 0
    ensures r.1.id == t && IsHeaderBlock(r.1) && !HasHeader(r.0, KindOf(r.1).value)
    ensures HeaderBlockAt(h, KindOf(r.1).value) == Some(r.1)
    ensures r.0 == Clear(h, KindOf(r.1).value)
  {
    if h.init.Some? && h.init.value.id == t then
      (h.(init := None), Block(t, h.init.value.isLocked, Init(h.init.value.value)))
    else if h.condition.Some? && h.condition.value.id == t then
      (h.(condition := None), Block(t, h.condition.value.isLocked, Condition(h.condition.value.value)))
    else
      (h.(inc := None), Block(t, h.inc.value.isLocked, Inc(h.inc.value.value)))
  }

  /** Taking a header block out of the map moves exactly that block. */
  lemma {:induction false} RemoveFromHeaderCount(h: Header, t: BlockId, u: BlockId)
    requires HeaderCount(t, h) > 0
    ensures var (h', gone) := RemoveFromHeader(h, t);
            HeaderCount(u, h') + Count(u, gone) == HeaderCount(u, h)
  {
    var gone := RemoveFromHeader(h, t).1;
    assert InnerCount(u, gone) == 0;
  }

  /** What a compound's child lists (both sections of an if/else) count. */
  function ChildCount(u: BlockId, b: Block): nat
    requires IsCompound(b)
  {
    if b.node.IfElse? then CountSeq(u, b.node.ifSection) + CountSeq(u, b.node.elseSection) else CountSeq(u, b.node.children)
  }

  lemma {:induction false} InnerCountSplit(u: BlockId, b: Block)
    requires IsCompound(b)
    ensures InnerCount(u, b) == HeaderCount(u, HeaderOf(b)) + ChildCount(u, b)
  {
    match b.node
    case ForLoop(_, _) =>
    case While(_, _) =>
    case IfElse(_, _, _) =>
  }

  /**
   * recursiveRemove(target, parent): a compound's header is searched first, then
   * each child list in turn (an if/else's if-section before its else-section):
   * the list itself by identity, then the blocks inside its children. The result
   * is the new parent and the block taken out; None where the source returns false.
   */
  function RecursiveRemove(t: BlockId, b: Block): (r: Option<(Block, Block)>)
    decreases b, 2
  {
    if !IsCompound(b) then None
    else if HeaderCount(t, HeaderOf(b)) > 0 then
      var p := RemoveFromHeader(HeaderOf(b), t);
      Some((WithHeader(b, p.0), p.1))
    else if b.node.IfElse? then
      RemoveInSections(t, b)
    else
      match RemoveInList(t, b.node.children)
      case Some(p) => Some((Block(b.id, b.isLocked, b.node.(children := p.0)), p.1))
      case None => None
  }

  /** An if/else's two sections, the if-section searched first. */
  function RemoveInSections(t: BlockId, b: Block): (r: Option<(Block, Block)>)
    requires b.node.IfElse?
    decreases b, 1
  {
    var h, a, e := b.node.header, b.node.ifSection, b.node.elseSection;
    match RemoveInList(t, a)
    case Some(p) => Some((Block(b.id, b.isLocked, IfElse(h, p.0, e)), p.1))
    case None =>
      match RemoveInList(t, e)
      case Some(p) => Some((Block(b.id, b.isLocked, IfElse(h, a, p.0)), p.1))
      case None => None
  }

  /** One child list: `list.indexOf(target)` and splice, else the search inside each child in order. */
  function RemoveInList(t: BlockId, bs: seq<Block>): (r: Option<(seq<Block>, Block)>)
    decreases bs, 1
  {
    var k := IndexOf(bs, t);
    if k < |bs| then Some((bs[..k] + bs[k + 1..], bs[k])) else DeepRemove(t, bs)
  }

  /** `for (child of list) if (recursiveRemove(target, child)) return true` */
  function DeepRemove(t: BlockId, bs: seq<Block>): (r: Option<(seq<Block>, Block)>)
    decreases bs, 0
  {
    if bs == [] then None
    else
      match RecursiveRemove(t, bs[0])
      case Some(p) => Some(([p.0] + bs[1..], p.1))
      case None =>
        match DeepRemove(t, bs[1..])
        case Some(p) => Some(([bs[0]] + p.0, p.1))
        case None => None
  }

  /**
   * recursiveRemove finds the block exactly when the parent holds it somewhere
   * (header or children, at any depth); it takes out a block with that id (every
   * id u is counted as often as before, across the new parent and the block
   * taken out), and the parent keeps its identity and kind. When the parent holds
   * the id once, what is left is exactly the parent with that block deleted and
   * everything else as it was (Strip).
   */
  lemma {:induction false} RecursiveRemoveSpec(t: BlockId, b: Block, u: BlockId)
    ensures var r := RecursiveRemove(t, b);
            && (r.Some? <==> InnerCount(t, b) > 0)
            && (r.Some? ==> r.value.1.id == t)
            && (r.Some? ==> r.value.0.id == b.id && r.value.0.isLocked == b.isLocked && IsCompound(r.value.0) &&
                            r.value.0.node.ForLoop? == b.node.ForLoop? && r.value.0.node.While? == b.node.While?)
            && (r.Some? ==> InnerCount(u, r.value.0) + Count(u, r.value.1) == InnerCount(u, b))
            && (InnerCount(t, b) == 1 ==> r.Some? && r.value.0 == Strip(t, b))
    decreases b, 5
  {
    if InnerCount(t, b) == 1 {
      RecursiveRemoveStrips(t, b);
    }
    if !IsCompound(b) {
      assert InnerCount(t, b) == 0;
    } else {
      InnerCountSplit(t, b);
      InnerCountSplit(u, b);
      if HeaderCount(t, HeaderOf(b)) > 0 {
        var p := RemoveFromHeader(HeaderOf(b), t);
        RemoveFromHeaderCount(HeaderOf(b), t, u);
        var nb := WithHeader(b, p.0);
        InnerCountSplit(u, nb);
        assert ChildCount(u, nb) == ChildCount(u, b);
      } else if b.node.IfElse? {
        RemoveInSectionsSpec(t, b, u);
      } else {
        var ch := b.node.children;
        RemoveInListSpec(t, ch, u);
        match RemoveInList(t, ch)
        case Some(p) =>
          var nb := Block(b.id, b.isLocked, b.node.(children := p.0));
          InnerCountSplit(u, nb);
          assert HeaderOf(nb) == HeaderOf(b) && ChildCount(u, nb) == CountSeq(u, p.0);
        case None =>
      }
    }
  }

  lemma {:induction false} RemoveInSectionsSpec(t: BlockId, b: Block, u: BlockId)
    requires b.node.IfElse? && HeaderCount(t, b.node.header) == 0
    ensures var r := RemoveInSections(t, b);
            && (r.Some? <==> InnerCount(t, b) > 0)
            && (r.Some? ==> r.value.1.id == t && r.value.0.id == b.id && r.value.0.isLocked == b.isLocked && r.value.0.node.IfElse?)
            && (r.Some? ==> InnerCount(u, r.value.0) + Count(u, r.value.1) == InnerCount(u, b))
            && (InnerCount(t, b) == 1 ==> r.Some? && r.value.0 == Strip(t, b))
    decreases b, 4
  {
    if InnerCount(t, b) == 1 {
      RemoveInSectionsStrips(t, b);
    }
    var h, a, e := b.node.header, b.node.ifSection, b.node.elseSection;
    assert InnerCount(t, b) == HeaderCount(t, h) + CountSeq(t, a) + CountSeq(t, e);
    assert InnerCount(u, b) == HeaderCount(u, h) + CountSeq(u, a) + CountSeq(u, e);
    RemoveInListSpec(t, a, u);
    RemoveInListSpec(t, e, u);
    match RemoveInList(t, a)
    case Some(p) =>
      var nb := Block(b.id, b.isLocked, IfElse(h, p.0, e));
      assert InnerCount(u, nb) == HeaderCount(u, h) + CountSeq(u, p.0) + CountSeq(u, e);
    case None =>
      match RemoveInList(t, e)
      case Some(p) =>
        var nb := Block(b.id, b.isLocked, IfElse(h, a, p.0));
        assert InnerCount(u, nb) == HeaderCount(u, h) + CountSeq(u, a) + CountSeq(u, p.0);
      case None =>
  }

  lemma {:induction false} RemoveInListSpec(t: BlockId, bs: seq<Block>, u: BlockId)
    ensures var r := RemoveInList(t, bs);
            && (r.Some? <==> CountSeq(t, bs) > 0)
            && (r.Some? ==> r.value.1.id == t && CountSeq(u, r.value.0) + Count(u, r.value.1) == CountSeq(u, bs))
            && (CountSeq(t, bs) == 1 ==> r.Some? && r.value.0 == StripSeq(t, bs))
    decreases bs, 5
  {
    if CountSeq(t, bs) == 1 {
      RemoveInListStrips(t, bs);
    }
    var k := IndexOf(bs, t);
    if k < |bs| {
      CountSeqRemove(u, bs, k);
      CountSeqRemove(t, bs, k);
    } else {
      DeepRemoveSpec(t, bs, u);
    }
  }

  lemma {:induction false} DeepRemoveSpec(t: BlockId, bs: seq<Block>, u: BlockId)
    ensures var r := DeepRemove(t, bs);
            && ((forall j :: 0 <= j < |bs| ==> bs[j].id != t) ==> (r.Some? <==> CountSeq(t, bs) > 0))
            && (r.Some? ==> r.value.1.id == t && CountSeq(u, r.value.0) + Count(u, r.value.1) == CountSeq(u, bs))
            && (r.Some? ==> |r.value.0| == |bs|)
            && ((forall j :: 0 <= j < |bs| ==> bs[j].id != t) && CountSeq(t, bs) == 1 ==> r.Some? && r.value.0 == StripSeq(t, bs))
    decreases bs, 4
  {
    if (forall j :: 0 <= j < |bs| ==> bs[j].id != t) && CountSeq(t, bs) == 1 {
      DeepRemoveStrips(t, bs);
    }
    if bs != [] {
      var rest := bs[1..];
      RecursiveRemoveSpec(t, bs[0], u);
      DeepRemoveSpec(t, rest, u);
      assert CountSeq(u, bs) == Count(u, bs[0]) + CountSeq(u, rest);
      assert CountSeq(t, bs) == Count(t, bs[0]) + CountSeq(t, rest);
      match RecursiveRemove(t, bs[0])
      case Some(p) =>
        var l := [p.0] + rest;
        assert l[0] == p.0 && l[1..] == rest;
        assert CountSeq(u, l) == Count(u, p.0) + CountSeq(u, rest);
      case None =>
        match DeepRemove(t, rest)
        case Some(p) =>
          var l := [bs[0]] + p.0;
          assert l[0] == bs[0] && l[1..] == p.0;
          assert CountSeq(u, l) == Count(u, bs[0]) + CountSeq(u, p.0);
        case None =>
    }
  }

  // ----- What removal leaves: the reference -----

  /**
   * b with every block of id t deleted from its header maps and child lists, at
   * any depth, and everything else as it was. When b holds t once, this is what
   * recursiveRemove leaves.
   */
  function Strip(t: BlockId, b: Block): Block
    decreases b, 0
  {
    match b.node
    case ForLoop(h, ch) => Block(b.id, b.isLocked, ForLoop(StripHeader(t, h), StripSeq(t, ch)))
    case While(h, ch) => Block(b.id, b.isLocked, While(StripHeader(t, h), StripSeq(t, ch)))
    case IfElse(h, a, e) => Block(b.id, b.isLocked, IfElse(StripHeader(t, h), StripSeq(t, a), StripSeq(t, e)))
    case _ => b
  }

  function StripHeader(t: BlockId, h: Header): Header {
    Header(if h.init.Some? && h.init.value.id == t then None else h.init,
           if h.condition.Some? && h.condition.value.id == t then None else h.condition,
           if h.inc.Some? && h.inc.value.id == t then None else h.inc)
  }

  function StripSeq(t: BlockId, bs: seq<Block>): seq<Block>
    decreases bs
  {
    if bs == [] then [] else (if bs[0].id == t then [] else [Strip(t, bs[0])]) + StripSeq(t, bs[1..])
  }

  lemma {:induction false} StripSeqAppend(t: BlockId, a: seq<Block>, c: seq<Block>)
    ensures StripSeq(t, a + c) == StripSeq(t, a) + StripSeq(t, c)
  {
    if a == [] {
      assert a + c == c;
    } else {
      assert (a + c)[0] == a[0] && (a + c)[1..] == a[1..] + c;
      StripSeqAppend(t, a[1..], c);
    }
  }

  /** Where t does not occur, stripping it changes nothing. */
  lemma {:induction false} StripAbsent(t: BlockId, b: Block)
    requires InnerCount(t, b) == 0
    ensures Strip(t, b) == b
    decreases b, 0
  {
    match b.node
    case ForLoop(h, ch) => StripSeqAbsent(t, ch);
    case While(h, ch) => StripSeqAbsent(t, ch);
    case IfElse(h, a, e) =>
      StripSeqAbsent(t, a);
      StripSeqAbsent(t, e);
    case _ =>
  }

  lemma {:induction false} StripSeqAbsent(t: BlockId, bs: seq<Block>)
    requires CountSeq(t, bs) == 0
    ensures StripSeq(t, bs) == bs
    decreases bs
  {
    if bs != [] {
      StripAbsent(t, bs[0]);
      StripSeqAbsent(t, bs[1..]);
      assert bs == [bs[0]] + bs[1..];
    }
  }

  /** A header holding t once: `delete` of that key is the stripped header. */
  lemma {:induction false} RemoveFromHeaderStrips(h: Header, t: BlockId)
    requires HeaderCount(t, h) == 1
    ensures RemoveFromHeader(h, t).0 == StripHeader(t, h)
  {
  }

  /** recursiveRemove on a block holding t exactly once leaves Strip(t, b). */
  lemma {:induction false} RecursiveRemoveStrips(t: BlockId, b: Block)
    requires InnerCount(t, b) == 1
    ensures RecursiveRemove(t, b).Some? && RecursiveRemove(t, b).value.0 == Strip(t, b)
    decreases b, 3
  {
    InnerCountSplit(t, b);
    var h := HeaderOf(b);
    if HeaderCount(t, h) > 0 {
      RemoveFromHeaderStrips(h, t);
      match b.node
      case ForLoop(_, ch) => StripSeqAbsent(t, ch);
      case While(_, ch) => StripSeqAbsent(t, ch);
      case IfElse(_, a, e) =>
        StripSeqAbsent(t, a);
        StripSeqAbsent(t, e);
    } else if b.node.IfElse? {
      RemoveInSectionsStrips(t, b);
    } else {
      assert StripHeader(t, h) == h;
      RemoveInListStrips(t, b.node.children);
    }
  }

  lemma {:induction false} RemoveInSectionsStrips(t: BlockId, b: Block)
    requires b.node.IfElse? && InnerCount(t, b) == 1 && HeaderCount(t, b.node.header) == 0
    ensures RemoveInSections(t, b).Some? && RemoveInSections(t, b).value.0 == Strip(t, b)
    decreases b, 2
  {
    var h, a, e := b.node.header, b.node.ifSection, b.node.elseSection;
    assert StripHeader(t, h) == h;
    assert CountSeq(t, a) + CountSeq(t, e) == 1;
    if CountSeq(t, a) == 1 {
      RemoveInListStrips(t, a);
      StripSeqAbsent(t, e);
    } else {
      RemoveInListSpec(t, a, t);
      StripSeqAbsent(t, a);
      RemoveInListStrips(t, e);
    }
  }

  lemma {:induction false} RemoveInListStrips(t: BlockId, bs: seq<Block>)
    requires CountSeq(t, bs) == 1
    ensures RemoveInList(t, bs).Some? && RemoveInList(t, bs).value.0 == StripSeq(t, bs)
    decreases bs, 3
  {
    var k := IndexOf(bs, t);
    if k < |bs| {
      var a, m, z := bs[..k], [bs[k]], bs[k + 1..];
      assert bs == a + m + z;
      CountSeqRemove(t, bs, k);
      CountSeqAppend(t, a, z);
      StripSeqAbsent(t, a);
      StripSeqAbsent(t, z);
      StripSeqAppend(t, a + m, z);
      StripSeqAppend(t, a, m);
      assert StripSeq(t, m) == [] by {
        assert m[1..] == [];
      }
    } else {
      DeepRemoveStrips(t, bs);
    }
  }

  lemma {:induction false} DeepRemoveStrips(t: BlockId, bs: seq<Block>)
    requires CountSeq(t, bs) == 1 && forall j :: 0 <= j < |bs| ==> bs[j].id != t
    ensures DeepRemove(t, bs).Some? && DeepRemove(t, bs).value.0 == StripSeq(t, bs)
    decreases bs, 2
  {
    var rest := bs[1..];
    assert CountSeq(t, bs) == Count(t, bs[0]) + CountSeq(t, rest);
    if InnerCount(t, bs[0]) == 1 {
      RecursiveRemoveStrips(t, bs[0]);
      StripSeqAbsent(t, rest);
    } else {
      RecursiveRemoveSpec(t, bs[0], t);
      StripAbsent(t, bs[0]);
      DeepRemoveStrips(t, rest);
    }
  }

  // ----- addChild on the compound under the mouse -----

  /** How many compounds in b carry id t: one when ids are unique and t names a compound of b. */
  function Hits(t: BlockId, b: Block): nat
    decreases b, 1
  {
    (if b.id == t && IsCompound(b) then 1 else 0) + HitsInside(t, b)
  }

  /** The same count over what b holds, b itself excluded. */
  function HitsInside(t: BlockId, b: Block): nat
    decreases b, 0
  {
    match b.node
    case ForLoop(_, ch) => HitsSeq(t, ch)
    case While(_, ch) => HitsSeq(t, ch)
    case IfElse(_, a, e) => HitsSeq(t, a) + HitsSeq(t, e)
    case _ => 0
  }

  function HitsSeq(t: BlockId, bs: seq<Block>): nat
    decreases bs
  {
    if bs == [] then 0 else Hits(t, bs[0]) + HitsSeq(t, bs[1..])
  }

  /** n copies of h added up; kept apart from `*` so that the solver stays linear. */
  function Times(n: nat, h: nat): nat {
    if n == 0 then 0 else h + Times(n - 1, h)
  }

  lemma {:induction false} TimesAdd(m: nat, n: nat, h: nat)
    ensures Times(m + n, h) == Times(m, h) + Times(n, h)
  {
    if m > 0 {
      TimesAdd(m - 1, n, h);
    }
  }

  /**
   * `compoundHover.addChild(draggingBlock)`, the compound being the one with id t
   * wherever it is nested: the block is appended to its children (to the chosen
   * section of an if/else) and every compound around it grows by the block's height.
   */
  function AddChildAt(t: BlockId, b: Block, c: Block, toElse: bool): (r: Block)
    ensures IsCompound(r) == IsCompound(b)
    decreases b, 2
  {
    var inner := AddChildInside(t, b, c, toElse);
    if b.id == t && IsCompound(b) then AddChild(inner, c, toElse) else inner
  }

  /** The same append applied to what b holds. */
  function AddChildInside(t: BlockId, b: Block, c: Block, toElse: bool): (r: Block)
    ensures IsCompound(r) == IsCompound(b)
    decreases b, 1
  {
    if !IsCompound(b) then b
    else if b.node.IfElse? then
      Block(b.id, b.isLocked, b.node.(ifSection := AddChildAtSeq(t, b.node.ifSection, c, toElse),
                                      elseSection := AddChildAtSeq(t, b.node.elseSection, c, toElse)))
    else
      Block(b.id, b.isLocked, b.node.(children := AddChildAtSeq(t, b.node.children, c, toElse)))
  }

  function AddChildAtSeq(t: BlockId, bs: seq<Block>, c: Block, toElse: bool): (r: seq<Block>)
    decreases bs, 0
  {
    if bs == [] then [] else [AddChildAt(t, bs[0], c, toElse)] + AddChildAtSeq(t, bs[1..], c, toElse)
  }

  /** addChild adds exactly the child's blocks to the compound. */
  lemma {:induction false} AddChildCount(b: Block, c: Block, toElse: bool, u: BlockId)
    requires IsCompound(b)
    ensures Count(u, AddChild(b, c, toElse)) == Count(u, b) + Count(u, c)
  {
    var r := AddChild(b, c, toElse);
    assert CountSeq(u, [c]) == Count(u, c) by {
      assert [c][1..] == [];
    }
    match b.node
    case ForLoop(h, ch) => CountSeqAppend(u, ch, [c]);
    case While(h, ch) => CountSeqAppend(u, ch, [c]);
    case IfElse(h, a, e) =>
      if toElse {
        CountSeqAppend(u, e, [c]);
      } else {
        CountSeqAppend(u, a, [c]);
      }
  }

  /**
   * Dropping onto a compound grows it and every compound around it by the
   * dropped block's height, and adds the dropped block's ids, once per compound
   * carrying the target id; a block that carries no such compound is left as it
   * was. When b itself is the one compound with id t, it is addChild on b.
   */
  lemma {:induction false} AddChildAtSpec(t: BlockId, b: Block, c: Block, toElse: bool, u: BlockId)
    ensures var r := AddChildAt(t, b, c, toElse);
            r.id == b.id && r.isLocked == b.isLocked &&
            Height(r) == Height(b) + Times(Hits(t, b), Height(c)) &&
            Count(u, r) == Count(u, b) + Times(Hits(t, b), Count(u, c)) &&
            (Hits(t, b) == 0 ==> r == b) &&
            (b.id == t && IsCompound(b) && Hits(t, b) == 1 ==> r == AddChild(b, c, toElse))
    decreases b, 2
  {
    AddChildInsideSpec(t, b, c, toElse, u);
    var inner := AddChildInside(t, b, c, toElse);
    var r := AddChildAt(t, b, c, toElse);
    var k := HitsInside(t, b);
    if b.id == t && IsCompound(b) {
      assert r == AddChild(inner, c, toElse) && Hits(t, b) == 1 + k;
      AddChildCount(inner, c, toElse, u);
      assert Height(r) == Height(b) + Times(1 + k, Height(c)) by {
        TimesAdd(1, k, Height(c));
        assert Times(1, Height(c)) == Height(c);
      }
      assert Count(u, r) == Count(u, b) + Times(1 + k, Count(u, c)) by {
        TimesAdd(1, k, Count(u, c));
        assert Times(1, Count(u, c)) == Count(u, c);
        assert Count(u, inner) == Count(u, b) + Times(k, Count(u, c));
      }
    } else {
      assert r == inner && Hits(t, b) == k;
    }
  }

  lemma {:induction false} AddChildInsideSpec(t: BlockId, b: Block, c: Block, toElse: bool, u: BlockId)
    ensures var r := AddChildInside(t, b, c, toElse);
            r.id == b.id && r.isLocked == b.isLocked &&
            Height(r) == Height(b) + Times(HitsInside(t, b), Height(c)) &&
            InnerCount(u, r) == InnerCount(u, b) + Times(HitsInside(t, b), Count(u, c)) &&
            (HitsInside(t, b) == 0 ==> r == b)
    decreases b, 1
  {
    if !IsCompound(b) {
      assert HitsInside(t, b) == 0;
    } else if b.node.IfElse? {
      AddChildSections(t, b, c, toElse, u);
    } else {
      AddChildLoop(t, b, c, toElse, u);
    }
  }

  lemma {:induction false} AddChildSections(t: BlockId, b: Block, c: Block, toElse: bool, u: BlockId)
    requires b.node.IfElse?
    ensures var r := AddChildInside(t, b, c, toElse);
            r.id == b.id && r.isLocked == b.isLocked &&
            Height(r) == Height(b) + Times(HitsInside(t, b), Height(c)) &&
            InnerCount(u, r) == InnerCount(u, b) + Times(HitsInside(t, b), Count(u, c)) &&
            (HitsInside(t, b) == 0 ==> r == b)
    decreases b, 0
  {
    var h, a, e := b.node.header, b.node.ifSection, b.node.elseSection;
    var a', e' := AddChildAtSeq(t, a, c, toElse), AddChildAtSeq(t, e, c, toElse);
    var r := Block(b.id, b.isLocked, IfElse(h, a', e'));
    assert AddChildInside(t, b, c, toElse) == r;
    AddChildAtSeqSpec(t, a, c, toElse, u);
    AddChildAtSeqSpec(t, e, c, toElse, u);
    assert HitsInside(t, b) == HitsSeq(t, a) + HitsSeq(t, e);
    TimesAdd(HitsSeq(t, a), HitsSeq(t, e), Height(c));
    TimesAdd(HitsSeq(t, a), HitsSeq(t, e), Count(u, c));
    assert Height(r) == 2 + SumHeights(a') + SumHeights(e') && Height(b) == 2 + SumHeights(a) + SumHeights(e);
    assert InnerCount(u, r) == HeaderCount(u, h) + CountSeq(u, a') + CountSeq(u, e') &&
           InnerCount(u, b) == HeaderCount(u, h) + CountSeq(u, a) + CountSeq(u, e);
  }

  lemma {:induction false} AddChildLoop(t: BlockId, b: Block, c: Block, toElse: bool, u: BlockId)
    requires b.node.ForLoop? || b.node.While?
    ensures var r := AddChildInside(t, b, c, toElse);
            r.id == b.id && r.isLocked == b.isLocked &&
            Height(r) == Height(b) + Times(HitsInside(t, b), Height(c)) &&
            InnerCount(u, r) == InnerCount(u, b) + Times(HitsInside(t, b), Count(u, c)) &&
            (HitsInside(t, b) == 0 ==> r == b)
    decreases b, 0
  {
    var ch := b.node.children;
    var ch' := AddChildAtSeq(t, ch, c, toElse);
    var r := Block(b.id, b.isLocked, b.node.(children := ch'));
    assert AddChildInside(t, b, c, toElse) == r;
    AddChildAtSeqSpec(t, ch, c, toElse, u);
    assert HitsInside(t, b) == HitsSeq(t, ch);
    assert Height(r) == 1 + SumHeights(ch');
    assert Height(b) == 1 + SumHeights(ch);
    assert InnerCount(u, r) == HeaderCount(u, b.node.header) + CountSeq(u, ch');
    assert InnerCount(u, b) == HeaderCount(u, b.node.header) + CountSeq(u, ch);
  }

  lemma {:induction false} AddChildAtSeqSpec(t: BlockId, bs: seq<Block>, c: Block, toElse: bool, u: BlockId)
    ensures var r := AddChildAtSeq(t, bs, c, toElse);
            |r| == |bs| &&
            SumHeights(r) == SumHeights(bs) + Times(HitsSeq(t, bs), Height(c)) &&
            CountSeq(u, r) == CountSeq(u, bs) + Times(HitsSeq(t, bs), Count(u, c)) &&
            (HitsSeq(t, bs) == 0 ==> r == bs)
    decreases bs, 0
  {
    if bs != [] {
      var r := AddChildAtSeq(t, bs, c, toElse);
      var x, rest := AddChildAt(t, bs[0], c, toElse), AddChildAtSeq(t, bs[1..], c, toElse);
      assert r[0] == x && r[1..] == rest;
      AddChildAtSpec(t, bs[0], c, toElse, u);
      AddChildAtSeqSpec(t, bs[1..], c, toElse, u);
      var m, n := Hits(t, bs[0]), HitsSeq(t, bs[1..]);
      assert HitsSeq(t, bs) == m + n;
      assert SumHeights(r) == SumHeights(bs) + Times(m + n, Height(c)) by {
        TimesAdd(m, n, Height(c));
        assert SumHeights(r) == Height(x) + SumHeights(rest);
      }
      assert CountSeq(u, r) == CountSeq(u, bs) + Times(m + n, Count(u, c)) by {
        TimesAdd(m, n, Count(u, c));
        assert CountSeq(u, r) == Count(u, x) + CountSeq(u, rest);
      }
    }
  }

  // ----- promoteBlock -----

  /** `splice(k, 1)` then `push`: the element at k moves to the end, the rest keep their order. */
  function MoveToEnd<T>(s: seq<T>, k: nat): (r: seq<T>)
    requires k < |s|
    ensures |r| == |s| && r[|r| - 1] == s[k]
    ensures r[..|r| - 1] == s[..k] + s[k + 1..]
    ensures multiset(r) == multiset(s)
  {
    assert s == s[..k] + [s[k]] + s[k + 1..];
    s[..k] + s[k + 1..] + [s[k]]
  }

  /** Moving a block to the end of a list changes neither its height nor the blocks it holds. */
  lemma {:induction false} MoveToEndKeepsList(bs: seq<Block>, k: nat, u: BlockId)
    requires k < |bs|
    ensures SumHeights(MoveToEnd(bs, k)) == SumHeights(bs)
    ensures CountSeq(u, MoveToEnd(bs, k)) == CountSeq(u, bs)
  {
    var rest, last := bs[..k] + bs[k + 1..], [bs[k]];
    assert MoveToEnd(bs, k) == rest + last;
    SumHeightsRemove(bs, k);
    CountSeqRemove(u, bs, k);
    SumHeightsAppend(rest, last);
    CountSeqAppend(u, rest, last);
    assert last[1..] == [];
    assert SumHeights(last) == Height(bs[k]);
    assert CountSeq(u, last) == Count(u, bs[k]);
  }

  /**
   * promoteBlock's search through one top-level block: a loop's children array
   * has the block moved to its end; an if/else searches a copy of its two
   * sections, so finding the block there changes nothing; a header block found is
   * deleted and re-added under the same key, which leaves the header as it was.
   * None means the search goes on with the next top-level block.
   */
  function PromoteIn(b: Block, t: BlockId): (r: Option<Block>) {
    if !IsCompound(b) then None
    else if b.node.IfElse? then
      var both := b.node.ifSection + b.node.elseSection;
      if IndexOf(both, t) < |both| || HeaderCount(t, b.node.header) > 0 then Some(b) else None
    else
      var ch := b.node.children;
      var k := IndexOf(ch, t);
      if k < |ch| then Some(Block(b.id, b.isLocked, b.node.(children := MoveToEnd(ch, k))))
      else if HeaderCount(t, b.node.header) > 0 then Some(b)
      else None
  }

  /** The blocks a compound holds directly in its child lists, an if/else's if-section first. */
  function DirectChildren(b: Block): seq<Block>
    requires IsCompound(b)
  {
    if b.node.IfElse? then b.node.ifSection + b.node.elseSection else b.node.children
  }

  /** A loop holding the block as a direct child: that child moves to the end of its children. */
  lemma {:induction false} PromoteInLoop(b: Block, t: BlockId, u: BlockId)
    requires IsCompound(b) && !b.node.IfElse? && IndexOf(b.node.children, t) < |b.node.children|
    ensures var ch, k := b.node.children, IndexOf(b.node.children, t);
            PromoteIn(b, t) == Some(Block(b.id, b.isLocked, b.node.(children := MoveToEnd(ch, k))))
    ensures var r := PromoteIn(b, t).value;
            r.id == b.id && r.isLocked == b.isLocked && IsCompound(r) && r.node.ForLoop? == b.node.ForLoop? &&
            HeaderOf(r) == HeaderOf(b) && Height(r) == Height(b) && Count(u, r) == Count(u, b)
  {
    var ch := b.node.children;
    var k := IndexOf(ch, t);
    var ch' := MoveToEnd(ch, k);
    MoveToEndKeepsList(ch, k, u);
    var nb := Block(b.id, b.isLocked, b.node.(children := ch'));
    assert Height(nb) == 1 + SumHeights(ch') && Height(b) == 1 + SumHeights(ch);
    InnerCountSplit(u, nb);
    InnerCountSplit(u, b);
    assert HeaderOf(nb) == HeaderOf(b) && ChildCount(u, nb) == CountSeq(u, ch') && ChildCount(u, b) == CountSeq(u, ch);
  }

  /**
   * promoteBlock's search succeeds on a compound that holds the block in its
   * header or directly in a child list. Only a loop found holding it as a child
   * changes: that child moves to the end and the rest keep their order. Height,
   * header and the blocks held are unchanged either way.
   */
  lemma {:induction false} PromoteInSpec(b: Block, t: BlockId, u: BlockId)
    ensures var r := PromoteIn(b, t);
            r.Some? <==> IsCompound(b) && (HeaderCount(t, HeaderOf(b)) > 0 || IndexOf(DirectChildren(b), t) < |DirectChildren(b)|)
    ensures var r := PromoteIn(b, t);
            r.Some? ==> r.value.id == b.id && r.value.isLocked == b.isLocked && IsCompound(r.value) &&
                        HeaderOf(r.value) == HeaderOf(b) && Height(r.value) == Height(b) && Count(u, r.value) == Count(u, b)
    ensures var r := PromoteIn(b, t);
            r.Some? && !b.node.IfElse? && IndexOf(b.node.children, t) < |b.node.children| ==>
              var ch, k := b.node.children, IndexOf(b.node.children, t);
              r.value.node.ForLoop? == b.node.ForLoop? && multiset(r.value.node.children) == multiset(ch) &&
              |r.value.node.children| == |ch| && r.value.node.children[|ch| - 1].id == t &&
              r.value.node.children[..|ch| - 1] == ch[..k] + ch[k + 1..]
    ensures var r := PromoteIn(b, t);
            r.Some? && (b.node.IfElse? || IndexOf(b.node.children, t) == |b.node.children|) ==> r.value == b
  {
    if IsCompound(b) && !b.node.IfElse? && IndexOf(b.node.children, t) < |b.node.children| {
      PromoteInLoop(b, t, u);
    }
  }
}
