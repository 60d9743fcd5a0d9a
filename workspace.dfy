/**
 * The code area of main.js: the slot array `blocks` (NumLines entries, each a
 * block or empty), the sidebar list `allBlocks`, and the edits the mouse
 * handlers make to them — compaction, dropping, picking up (promote, then
 * remove), dropping onto a compound, and loading the next problem.
 */
module Workspace {

  import opened Wrappers
  import opened Blocks
  import opened Decimal
  import opened Layout
  import opened TreeEdit
  import opened States

  // ----- Counting what the slots hold -----

  /** How many blocks with id u the slots hold, at any depth, headers included. */
  function Held(u: BlockId, s: Slots): nat {
    CountSeq(u, Present(s))
  }

  /** The program split around a filled slot. */
  lemma {:induction false} PresentAround(s: Slots, j: nat)
    requires j < |s| && s[j].Some?
    ensures Present(s) == Present(s[..j]) + [s[j].value] + Present(s[j + 1..])
  {
    assert s == s[..j] + [s[j]] + s[j + 1..];
    PresentAppend(s[..j] + [s[j]], s[j + 1..]);
    PresentAppend(s[..j], [s[j]]);
    PresentSingle(s[j].value);
  }

  lemma {:induction false} HeldAround(u: BlockId, s: Slots, j: nat)
    requires j < |s| && s[j].Some?
    ensures Held(u, s) == Held(u, s[..j]) + Count(u, s[j].value) + Held(u, s[j + 1..])
  {
    var b := s[j].value;
    PresentAround(s, j);
    CountSeqAppend(u, Present(s[..j]) + [b], Present(s[j + 1..]));
    CountSeqAppend(u, Present(s[..j]), [b]);
    assert [b][1..] == [];
  }

  /** Slots none of whose blocks holds u hold no u. */
  lemma {:induction false} HeldNone(u: BlockId, s: Slots)
    requires forall j :: 0 <= j < |s| && s[j].Some? ==> Count(u, s[j].value) == 0
    ensures Held(u, s) == 0
    decreases |s|
  {
    if s != [] {
      var n := |s| - 1;
      var init := s[..n];
      assert forall j :: 0 <= j < n ==> init[j] == s[j];
      HeldNone(u, init);
      var last := if s[n].Some? then [s[n].value] else [];
      assert Present(s) == Present(init) + last;
      CountSeqAppend(u, Present(init), last);
      if s[n].Some? {
        assert last[1..] == [];
      }
    }
  }

  /** Replacing the block in one slot changes the count by what the two blocks hold. */
  lemma {:induction false} HeldReplace(u: BlockId, s: Slots, j: nat, nb: Block)
    requires j < |s| && s[j].Some?
    ensures Held(u, s[j := Some(nb)]) + Count(u, s[j].value) == Held(u, s) + Count(u, nb)
  {
    var r := s[j := Some(nb)];
    assert r[..j] == s[..j] && r[j + 1..] == s[j + 1..];
    HeldAround(u, s, j);
    HeldAround(u, r, j);
  }

  // ----- The scans of removeBlock and promoteBlock -----

  /** The slot holding the block itself. */
  predicate IsBlock(o: Option<Block>, t: BlockId) {
    o.Some? && o.value.id == t
  }

  /** A top-level compound with the block in one of its header slots. */
  predicate HoldsInHeader(o: Option<Block>, t: BlockId) {
    o.Some? && IsCompound(o.value) && HeaderCount(t, HeaderOf(o.value)) > 0
  }

  /** A top-level block from which recursiveRemove takes the block out. */
  predicate RemovesDeep(o: Option<Block>, t: BlockId) {
    o.Some? && RecursiveRemove(t, o.value).Some?
  }

  /** A top-level block in which promoteBlock's search stops. */
  predicate PromotesIn(o: Option<Block>, t: BlockId) {
    o.Some? && PromoteIn(o.value, t).Some?
  }

  /** `blocks.indexOf(target)` from slot i on: the first slot holding the block, |s| when none does. */
  function SlotIndexOf(s: Slots, t: BlockId, i: nat): (k: nat)
    requires i <= |s|
    ensures i <= k <= |s| && (k < |s| ==> IsBlock(s[k], t))
    ensures forall j :: i <= j < k ==> !IsBlock(s[j], t)
    decreases |s| - i
  {
    if i == |s| then |s| else if IsBlock(s[i], t) then i else SlotIndexOf(s, t, i + 1)
  }

  /** The first top-level compound from slot i on whose header holds the block. */
  function HeaderScan(s: Slots, t: BlockId, i: nat): (k: nat)
    requires i <= |s|
    ensures i <= k <= |s| && (k < |s| ==> HoldsInHeader(s[k], t))
    ensures forall j :: i <= j < k ==> !HoldsInHeader(s[j], t)
    decreases |s| - i
  {
    if i == |s| then |s| else if HoldsInHeader(s[i], t) then i else HeaderScan(s, t, i + 1)
  }

  /** The first top-level block from slot i on in which recursiveRemove succeeds. */
  function DeepScan(s: Slots, t: BlockId, i: nat): (k: nat)
    requires i <= |s|
    ensures i <= k <= |s| && (k < |s| ==> RemovesDeep(s[k], t))
    ensures forall j :: i <= j < k ==> !RemovesDeep(s[j], t)
    decreases |s| - i
  {
    if i == |s| then |s| else if RemovesDeep(s[i], t) then i else DeepScan(s, t, i + 1)
  }

  /** The first top-level block from slot i on in which promoteBlock's child search stops. */
  function PromoteScan(s: Slots, t: BlockId, i: nat): (k: nat)
    requires i <= |s|
    ensures i <= k <= |s| && (k < |s| ==> PromotesIn(s[k], t))
    ensures forall j :: i <= j < k ==> !PromotesIn(s[j], t)
    decreases |s| - i
  {
    if i == |s| then |s| else if PromotesIn(s[i], t) then i else PromoteScan(s, t, i + 1)
  }

  // ----- removeBlock -----

  /**
   * removeBlock(target) on the slots: a top-level block is spliced out and the
   * rest compacted; otherwise the first top-level compound holding it in its
   * header loses that header block; otherwise the first top-level block in
   * which recursiveRemove succeeds is replaced by its edited copy. The last two
   * leave the layout as it was. The second component is the block taken out.
   */
  function Removed(s: Slots, t: BlockId): (r: (Slots, Option<Block>))
  {
    var k := SlotIndexOf(s, t, 0);
    if k < |s| then (Compact(s[..k] + s[k + 1..]), s[k])
    else
      var j := HeaderScan(s, t, 0);
      if j < |s| then
        var b := s[j].value;
        var p := RemoveFromHeader(HeaderOf(b), t);
        (s[j := Some(WithHeader(b, p.0))], Some(p.1))
      else
        var d := DeepScan(s, t, 0);
        if d < |s| then
          var p := RecursiveRemove(t, s[d].value).value;
          (s[d := Some(p.0)], Some(p.1))
        else (s, None)
  }

  /** The top-level slot removeBlock edits when the block is not itself a top-level block. */
  function NestedSlot(s: Slots, t: BlockId): nat {
    var j := HeaderScan(s, t, 0);
    if j < |s| then j else DeepScan(s, t, 0)
  }

  /**
   * removeBlock takes a block out exactly when the slots hold one with that id,
   * at any depth, and then it takes out that block. A top-level block leaves the
   * other blocks in order (when the program fits the lines); a nested one
   * changes only the top-level slot around it, which keeps its id and, when
   * the id is held once, loses exactly that block (Strip). An absent
   * block changes nothing. Every id is counted as often as before, across the
   * new slots and the block taken out.
   */
  lemma {:induction false} RemovedSpec(s: Slots, t: BlockId, u: BlockId)
    ensures var (r, gone) := Removed(s, t);
            && (gone.Some? <==> Held(t, s) > 0)
            && (gone.Some? ==> gone.value.id == t)
            && (gone.None? ==> r == s)
    ensures var (r, gone) := Removed(s, t);
            var k := SlotIndexOf(s, t, 0);
            k < |s| ==> gone == s[k] && |r| == NumLines &&
                        (TotalHeight(s) <= NumLines ==> Present(r) == Present(s[..k]) + Present(s[k + 1..]))
    ensures var (r, gone) := Removed(s, t);
            var j := NestedSlot(s, t);
            SlotIndexOf(s, t, 0) == |s| && gone.Some? ==>
              j < |s| && s[j].Some? && r[j].Some? && r[j].value.id == s[j].value.id && r == s[j := r[j]]
    ensures var (r, gone) := Removed(s, t);
            var j := NestedSlot(s, t);
            SlotIndexOf(s, t, 0) == |s| && Held(t, s) == 1 ==>
              j < |s| && s[j].Some? && r[j] == Some(Strip(t, s[j].value))
    ensures var (r, gone) := Removed(s, t);
            gone.Some? && TotalHeight(s) <= NumLines ==> Held(u, r) + Count(u, gone.value) == Held(u, s)
  {
    var (r, gone) := Removed(s, t);
    var k := SlotIndexOf(s, t, 0);
    if k < |s| {
      RemovedTop(s, t, u);
    } else {
      var j := HeaderScan(s, t, 0);
      var d := DeepScan(s, t, 0);
      if j < |s| || d < |s| {
        var at := NestedSlot(s, t);
        var b := s[at].value;
        RecursiveRemoveSpec(t, b, u);
        RecursiveRemoveSpec(t, b, t);
        if j < |s| {
          InnerCountSplit(t, b);
        }
        assert RecursiveRemove(t, b).Some?;
        var p := RecursiveRemove(t, b).value;
        assert r == s[at := Some(p.0)] && gone == Some(p.1);
        HeldReplace(u, s, at, p.0);
        HeldReplace(t, s, at, p.0);
        if Held(t, s) == 1 {
          HeldAround(t, s, at);
          RecursiveRemoveStrips(t, b);
        }
      } else {
        forall i | 0 <= i < |s| && s[i].Some?
          ensures Count(t, s[i].value) == 0
        {
          RecursiveRemoveSpec(t, s[i].value, t);
        }
        HeldNone(t, s);
      }
    }
  }

  /** The top-level case of removeBlock: splice, then shiftBlocksUp. */
  lemma {:induction false} RemovedTop(s: Slots, t: BlockId, u: BlockId)
    requires SlotIndexOf(s, t, 0) < |s|
    ensures var (r, gone) := Removed(s, t);
            var k := SlotIndexOf(s, t, 0);
            && gone == s[k] && Held(t, s) > 0 && |r| == NumLines
            && (TotalHeight(s) <= NumLines ==> Present(r) == Present(s[..k]) + Present(s[k + 1..]))
            && (TotalHeight(s) <= NumLines ==> Held(u, r) + Count(u, gone.value) == Held(u, s))
  {
    var k := SlotIndexOf(s, t, 0);
    var b := s[k].value;
    var rest := s[..k] + s[k + 1..];
    HeldAround(t, s, k);
    PresentAround(s, k);
    PresentAppend(s[..k], s[k + 1..]);
    if TotalHeight(s) <= NumLines {
      SumHeightsAppend(Present(s[..k]) + [b], Present(s[k + 1..]));
      SumHeightsAppend(Present(s[..k]), [b]);
      SumHeightsAppend(Present(s[..k]), Present(s[k + 1..]));
      CompactKeepsProgram(rest);
      HeldAround(u, s, k);
      CountSeqAppend(u, Present(s[..k]), Present(s[k + 1..]));
    }
  }

  // ----- promoteBlock -----

  /**
   * promoteBlock(block) on the sidebar list and the slots: the first list
   * holding it — the sidebar, then the top-level slots, then a top-level
   * compound — has it moved to the end. Moving it within the slots does not
   * compact them.
   */
  function Promoted(all: seq<Block>, s: Slots, t: BlockId): (r: (seq<Block>, Slots))
  {
    var i := IndexOf(all, t);
    if i < |all| then (MoveToEnd(all, i), s)
    else
      var k := SlotIndexOf(s, t, 0);
      if k < |s| then (all, MoveToEnd(s, k))
      else
        var j := PromoteScan(s, t, 0);
        if j < |s| then (all, s[j := PromoteIn(s[j].value, t)]) else (all, s)
  }

  /**
   * promoteBlock changes only the order of what it touches: both lists keep
   * their length, the sidebar keeps its elements, and the slots hold the same
   * blocks with the same total height. A block found in the sidebar or among
   * the slots ends up last there.
   */
  lemma {:induction false} PromotedSpec(all: seq<Block>, s: Slots, t: BlockId, u: BlockId)
    ensures var (all', s') := Promoted(all, s, t);
            && |all'| == |all| && multiset(all') == multiset(all)
            && |s'| == |s| && Held(u, s') == Held(u, s) && TotalHeight(s') == TotalHeight(s)
    ensures var (all', s') := Promoted(all, s, t);
            IndexOf(all, t) < |all| ==> all'[|all| - 1].id == t && s' == s
    ensures var (all', s') := Promoted(all, s, t);
            IndexOf(all, t) == |all| && SlotIndexOf(s, t, 0) < |s| ==>
              all' == all && IsBlock(s'[|s| - 1], t) && s'[..|s| - 1] == s[..SlotIndexOf(s, t, 0)] + s[SlotIndexOf(s, t, 0) + 1..]
  {
    var i := IndexOf(all, t);
    if i == |all| {
      var k := SlotIndexOf(s, t, 0);
      if k < |s| {
        MoveToEndKeepsSlots(s, k, u);
      } else {
        var j := PromoteScan(s, t, 0);
        if j < |s| {
          PromoteInKeepsSlots(s, j, t, u);
        }
      }
    }
  }

  /** Moving a slot to the end keeps what the slots hold and their total height. */
  lemma {:induction false} MoveToEndKeepsSlots(s: Slots, k: nat, u: BlockId)
    requires k < |s| && s[k].Some?
    ensures Held(u, MoveToEnd(s, k)) == Held(u, s) && TotalHeight(MoveToEnd(s, k)) == TotalHeight(s)
  {
    var b := s[k].value;
    var rest := s[..k] + s[k + 1..];
    assert MoveToEnd(s, k) == rest + [s[k]];
    PresentAround(s, k);
    PresentAppend(s[..k], s[k + 1..]);
    PresentAppend(rest, [s[k]]);
    PresentSingle(b);
    var a, c := Present(s[..k]), Present(s[k + 1..]);
    CountSeqAppend(u, a + [b], c);
    CountSeqAppend(u, a, [b]);
    CountSeqAppend(u, a + c, [b]);
    CountSeqAppend(u, a, c);
    SumHeightsAppend(a + [b], c);
    SumHeightsAppend(a, [b]);
    SumHeightsAppend(a + c, [b]);
    SumHeightsAppend(a, c);
  }

  /** promoteBlock's edit of one top-level compound keeps what the slots hold and their total height. */
  lemma {:induction false} PromoteInKeepsSlots(s: Slots, j: nat, t: BlockId, u: BlockId)
    requires j < |s| && PromotesIn(s[j], t)
    ensures var s' := s[j := PromoteIn(s[j].value, t)];
            Held(u, s') == Held(u, s) && TotalHeight(s') == TotalHeight(s)
  {
    var b := s[j].value;
    var nb := PromoteIn(b, t).value;
    PromoteInSpec(b, t, u);
    HeldReplace(u, s, j, nb);
    var s' := s[j := Some(nb)];
    assert s'[..j] == s[..j] && s'[j + 1..] == s[j + 1..];
    PresentAround(s, j);
    PresentAround(s', j);
    var a, c := Present(s[..j]), Present(s[j + 1..]);
    SumHeightsAppend(a + [b], c);
    SumHeightsAppend(a, [b]);
    SumHeightsAppend(a + [nb], c);
    SumHeightsAppend(a, [nb]);
  }

  /**
   * Picking up a top-level block (promoteBlock, then removeBlock) has the same
   * effect on the slots as removing it directly, provided it is not in the
   * sidebar and no later slot carries its id.
   */
  lemma {:induction false} PromoteThenRemove(all: seq<Block>, s: Slots, t: BlockId)
    requires IndexOf(all, t) == |all| && SlotIndexOf(s, t, 0) < |s|
    requires forall j :: SlotIndexOf(s, t, 0) < j < |s| ==> !IsBlock(s[j], t)
    ensures Removed(Promoted(all, s, t).1, t) == Removed(s, t)
  {
    var k := SlotIndexOf(s, t, 0);
    var n := |s| - 1;
    var s' := MoveToEnd(s, k);
    assert Promoted(all, s, t).1 == s';
    assert SlotIndexOf(s', t, 0) == n by {
      forall j | 0 <= j < n
        ensures !IsBlock(s'[j], t)
      {
        assert s'[j] == s'[..n][j];
        if j < k {
          assert s'[j] == s[j];
        } else {
          assert s'[j] == s[j + 1];
        }
      }
    }
    assert s'[..n] + s'[n + 1..] == s[..k] + s[k + 1..] by {
      assert s'[n + 1..] == [];
    }
  }

  // ----- Dropping -----

  /**
   * The drop in mouseReleased on the slots. Nothing happens without a drop line
   * (-1) or outside the code area. A block that is not a header block is
   * spliced in at the drop line, the array cut back to NumLines lines and
   * compacted. A header block goes to the compound on that line when the mouse
   * is over it (canAcceptHeader's hit test, given as overBlock), and
   * acceptHeader decides. For every compound class, a block acceptHeader
   * takes also passes canAcceptHeader's own kind test, and a block it
   * refuses changes nothing either way, so that test adds nothing here.
   */
  function Dropped(s: Slots, d: Block, ghostIndex: int, inArea: bool, overBlock: bool): (r: Slots)
    requires -1 <= ghostIndex < |s|
  {
    if ghostIndex == -1 || !inArea then s
    else if !IsHeaderBlock(d) then InsertAt(s, ghostIndex, d)
    else if s[ghostIndex].Some? && IsCompound(s[ghostIndex].value) && overBlock then
      s[ghostIndex := Some(AcceptHeader(s[ghostIndex].value, d).1)]
    else s
  }

  /**
   * A dropped header block never replaces a header: the compound takes it only
   * into a free slot of a kind it takes, keeping its id and height, and a
   * refusal leaves every slot as it was. A dropped statement block lands
   * between the blocks before and after the drop line, every block kept, when
   * the program was laid out and still fits.
   */
  lemma {:induction false} DroppedSpec(s: Slots, d: Block, g: nat, overBlock: bool)
    requires g < |s|
    ensures var r := Dropped(s, d, g, true, overBlock);
            IsHeaderBlock(d) ==>
              |r| == |s| && r == s[g := r[g]] &&
              (r[g] != s[g] ==> s[g].Some? && IsCompound(s[g].value) && overBlock &&
                                AcceptHeader(s[g].value, d).0 && r[g].value.id == s[g].value.id &&
                                Height(r[g].value) == Height(s[g].value) &&
                                HeaderBlockAt(HeaderOf(r[g].value), KindOf(d).value) == Some(d))
    ensures var r := Dropped(s, d, g, true, overBlock);
            !IsHeaderBlock(d) && LaidOut(s) && TotalHeight(s) + Height(d) <= NumLines ==>
              Present(r) == Present(s[..g]) + [d] + Present(s[g..])
  {
    if !IsHeaderBlock(d) && LaidOut(s) && TotalHeight(s) + Height(d) <= NumLines {
      FirstFreeAfterProgram(s);
      assert s[NumLines - 1].None? by {
        PresentExpand(Present(s));
      }
      InsertKeepsProgram(s, g, d);
    }
  }

  /** Dropped on the line the scan finds, a statement block is appended to a laid-out program that has room for it. */
  lemma {:induction false} DefaultDropAppends(s: Slots, d: Block, overBlock: bool)
    requires LaidOut(s) && TotalHeight(s) + Height(d) <= NumLines && !IsHeaderBlock(d)
    ensures FirstFree(s, 0) == TotalHeight(s)
    ensures Present(Dropped(s, d, FirstFree(s, 0), true, overBlock)) == Present(s) + [d]
    ensures LaidOut(Dropped(s, d, FirstFree(s, 0), true, overBlock))
  {
    DropOnFreeLineAppends(s, d);
  }

  /** compoundHover.addChild(draggingBlock): the compound with id t, wherever it sits, takes the block; the layout is left as it was. */
  function AddedChild(s: Slots, t: BlockId, c: Block, toElse: bool): (r: Slots)
    ensures |r| == |s|
    ensures forall i :: 0 <= i < |s| ==> r[i] == if s[i].Some? then Some(AddChildAt(t, s[i].value, c, toElse)) else None
  {
    seq(|s|, i requires 0 <= i < |s| => if s[i].Some? then Some(AddChildAt(t, s[i].value, c, toElse)) else None)
  }

  /**
   * Dropping onto a compound leaves every slot in place: each top-level block
   * keeps its id and grows by the dropped block's height once per compound
   * with id t it carries, and a block without one is unchanged. Every id u
   * is carried as often as before plus once per copy of c placed; a compound
   * that is itself the target (and the only one with id t) receives c at the
   * end of its body, as addChild does.
   */
  lemma {:induction false} AddedChildSpec(s: Slots, t: BlockId, c: Block, toElse: bool, i: nat, u: BlockId)
    requires i < |s|
    ensures var r := AddedChild(s, t, c, toElse);
            && r[i].Some? == s[i].Some?
            && (s[i].Some? ==> r[i].value.id == s[i].value.id &&
                               Height(r[i].value) == Height(s[i].value) + Times(Hits(t, s[i].value), Height(c)) &&
                               Count(u, r[i].value) == Count(u, s[i].value) + Times(Hits(t, s[i].value), Count(u, c)))
            && (s[i].Some? && Hits(t, s[i].value) == 0 ==> r[i] == s[i])
            && (s[i].Some? && s[i].value.id == t && IsCompound(s[i].value) && Hits(t, s[i].value) == 1 ==>
                  r[i] == Some(AddChild(s[i].value, c, toElse)))
  {
    if s[i].Some? {
      AddChildAtSpec(t, s[i].value, c, toElse, u);
    }
  }

  // ----- The layout left stale -----

  /**
   * removeBlock as evidently intended: the slots are compacted after every
   * removal, not only after a top-level one.
   */
  function RemovedRelaid(s: Slots, t: BlockId): (r: (Slots, Option<Block>))
    ensures r.1 == Removed(s, t).1
    ensures Present(r.0) == Present(Removed(s, t).0) || TotalHeight(Removed(s, t).0) > NumLines
  {
    var (r, gone) := Removed(s, t);
    CompactKeepsProgram(r);
    (Compact(r), gone)
  }

  /**
   * After the intended removal the default drop appends: whatever was removed,
   * the scan finds the line after the program and a dropped statement block
   * goes last, every block kept.
   */
  lemma {:induction false} RelaidDropAppends(s: Slots, t: BlockId, d: Block)
    requires TotalHeight(Removed(s, t).0) + Height(d) <= NumLines && !IsHeaderBlock(d)
    ensures var r := RemovedRelaid(s, t).0;
            LaidOut(r) && FirstFree(r, 0) == TotalHeight(r) &&
            Present(Dropped(r, d, FirstFree(r, 0), true, false)) == Present(r) + [d]
  {
    var r0 := Removed(s, t).0;
    CompactLaidOut(r0);
    CompactKeepsProgram(r0);
    DefaultDropAppends(Compact(r0), d, false);
  }

  // The blocks of the example below: a while loop holding one statement, the statement after it, and the block dropped.
  const StaleChild := Block(2, false, Code("x += 1"))
  const StaleLoop := Block(1, false, While(EmptyHeader, [StaleChild]))
  const StaleEmptied := Block(1, false, While(EmptyHeader, []))
  const StaleNext := Block(3, false, Code("x *= 2"))
  const StaleDrop := Block(4, false, Code("x -= 1"))

  /** The program [loop, next] with the loop on lines 0-1. */
  function StaleSlots(loop: Block): Slots {
    [Some(loop), None, Some(StaleNext)] + Nulls(NumLines - 3)
  }

  lemma {:induction false} StaleSlotsProgram(loop: Block)
    ensures Present(StaleSlots(loop)) == [loop, StaleNext]
  {
    var head: Slots := [Some(loop), None, Some(StaleNext)];
    assert head == [Some(loop), None] + [Some(StaleNext)];
    assert [Some(loop), None] == [Some(loop)] + [None];
    PresentAppend(head, Nulls(NumLines - 3));
    PresentNulls(NumLines - 3);
    PresentAppend([Some(loop), None], [Some(StaleNext)]);
    PresentAppend([Some(loop)], [None]);
    PresentSingle(loop);
    PresentSingle(StaleNext);
    PresentNulls(1);
    assert Nulls(1) == [None];
  }

  /** Before the removal the array is laid out. */
  lemma {:induction false} StaleStartLaidOut()
    ensures LaidOut(StaleSlots(StaleLoop))
  {
    var s := StaleSlots(StaleLoop);
    StaleSlotsProgram(StaleLoop);
    assert Height(StaleChild) == 1 && SumHeights([StaleChild]) == 1 && Height(StaleLoop) == 2 && Height(StaleNext) == 1;
    assert Expand([StaleLoop, StaleNext]) == [Some(StaleLoop), None, Some(StaleNext)] by {
      assert [StaleLoop, StaleNext][..1] == [StaleLoop];
      assert [StaleLoop][..0] == [];
    }
    assert SumHeights([StaleLoop, StaleNext]) == 3 by {
      SumHeightsAppend([StaleLoop], [StaleNext]);
      assert [StaleLoop] + [StaleNext] == [StaleLoop, StaleNext];
    }
    assert Compact(s) == s;
  }

  /** Removing the loop's child edits slot 0 in place and leaves line 1 empty. */
  lemma {:induction false} StaleRemoval()
    ensures Removed(StaleSlots(StaleLoop), 2) == (StaleSlots(StaleEmptied), Some(StaleChild))
  {
    var s := StaleSlots(StaleLoop);
    assert SlotIndexOf(s, 2, 0) == |s| by {
      assert forall j :: 0 <= j < |s| ==> !IsBlock(s[j], 2);
    }
    assert HeaderScan(s, 2, 0) == |s| by {
      assert forall j :: 0 <= j < |s| ==> !HoldsInHeader(s[j], 2);
    }
    assert RecursiveRemove(2, StaleLoop) == Some((StaleEmptied, StaleChild)) by {
      assert IndexOf([StaleChild], 2) == 0;
      assert [StaleChild][..0] + [StaleChild][1..] == [];
    }
    assert DeepScan(s, 2, 0) == 0;
    assert s[0 := Some(StaleEmptied)] == StaleSlots(StaleEmptied);
  }

  /** The scan steps over a one-line block and stops at the empty line after it. */
  lemma {:induction false} ScanStopsAfter(b: Block, rest: Slots)
    requires Height(b) == 1
    ensures FirstFree([Some(b), None] + rest, 0) == 1
  {
    var r := [Some(b), None] + rest;
    assert r[0] == Some(b) && r[1] == None;
    assert FirstFree(r, 1) == 1;
  }

  /** On the stale array the scan stops on line 1, right after the emptied loop. */
  lemma {:induction false} StaleScan()
    ensures FirstFree(StaleSlots(StaleEmptied), 0) == 1
  {
    assert SumHeights(StaleEmptied.node.children) == 0;
    var rest: Slots := [Some(StaleNext)] + Nulls(NumLines - 3);
    assert StaleSlots(StaleEmptied) == [Some(StaleEmptied), None] + rest;
    ScanStopsAfter(StaleEmptied, rest);
  }

  /** The stale array after its first line. */
  lemma {:induction false} StaleRest()
    ensures Present(StaleSlots(StaleEmptied)[..1]) == [StaleEmptied]
    ensures Present(StaleSlots(StaleEmptied)[1..]) == [StaleNext]
  {
    var r := StaleSlots(StaleEmptied);
    assert r[..1] == [Some(StaleEmptied)];
    PresentSingle(StaleEmptied);
    var rest: Slots := [None, Some(StaleNext)];
    assert r[1..] == rest + Nulls(NumLines - 3);
    assert rest == [None] + [Some(StaleNext)];
    PresentAppend(rest, Nulls(NumLines - 3));
    PresentNulls(NumLines - 3);
    PresentAppend([None], [Some(StaleNext)]);
    PresentSingle(StaleNext);
    PresentNulls(1);
    assert Nulls(1) == [None];
  }

  /** Two one-line blocks take two lines. */
  lemma {:induction false} TwoLines(a: Block, b: Block)
    requires Height(a) == 1 && Height(b) == 1
    ensures SumHeights([a, b]) == 2
  {
    SumHeightsAppend([a], [b]);
    assert [a] + [b] == [a, b];
    assert [a][1..] == [] && [b][1..] == [];
  }

  /** The stale array has room for one more one-line block. */
  lemma {:induction false} StaleFits()
    ensures |StaleSlots(StaleEmptied)| == NumLines && StaleSlots(StaleEmptied)[NumLines - 1].None?
    ensures TotalHeight(StaleSlots(StaleEmptied)) + Height(StaleDrop) <= NumLines
  {
    var r := StaleSlots(StaleEmptied);
    assert Height(StaleDrop) == 1;
    assert TotalHeight(r) == 2 by {
      assert SumHeights(StaleEmptied.node.children) == 0;
      StaleSlotsProgram(StaleEmptied);
      TwoLines(StaleEmptied, StaleNext);
    }
    assert r[NumLines - 1] == Nulls(NumLines - 3)[NumLines - 4];
  }

  /** A drop on line 1 of the stale array puts the block before the next statement. */
  lemma {:induction false} StaleDropInserts()
    ensures Present(Dropped(StaleSlots(StaleEmptied), StaleDrop, 1, true, false)) == [StaleEmptied, StaleDrop, StaleNext]
  {
    var r := StaleSlots(StaleEmptied);
    StaleFits();
    InsertKeepsProgram(r, 1, StaleDrop);
    StaleRest();
    assert !IsHeaderBlock(StaleDrop);
    assert Dropped(r, StaleDrop, 1, true, false) == InsertAt(r, 1, StaleDrop);
  }

  /**
   * removeBlock as written leaves a nested removal uncompacted, and the default
   * drop then lands inside the program: a while loop on lines 0-1 loses its one
   * child, line 1 is left empty above the next block, and a block dropped on
   * the line the scan finds goes before that next block instead of last.
   */
  lemma {:induction false} StaleScanInsertsMidProgram()
    ensures var s := StaleSlots(StaleLoop);
            var r := Removed(s, 2).0;
            var g := FirstFree(r, 0);
            && LaidOut(s)
            && Present(r) == [StaleEmptied, StaleNext]
            && g == 1
            && Present(Dropped(r, StaleDrop, g, true, false)) == [StaleEmptied, StaleDrop, StaleNext]
            && Present(Dropped(r, StaleDrop, g, true, false)) != Present(r) + [StaleDrop]
  {
    StaleStartLaidOut();
    StaleRemoval();
    StaleSlotsProgram(StaleEmptied);
    StaleScan();
    StaleDropInserts();
    assert [StaleEmptied, StaleDrop, StaleNext][1] != ([StaleEmptied, StaleNext] + [StaleDrop])[1];
  }

  /** The inner loop of shiftBlocksUp: one empty line for each line of a block beyond its first. */
  method PadBlock(head: Slots, span: nat) returns (r: Slots)
    requires span >= 1
    ensures r == head + Nulls(span - 1)
  {
    r := head;
    var i := 1;
    while i < span
      invariant 1 <= i <= span
      invariant r == head + Nulls(i - 1)
    {
      NullsSnoc(head, i - 1);
      r := r + [None];
      i := i + 1;
    }
  }

  /** shiftBlocksUp's rebuild of the slots: space the blocks out, then fit them to NumLines lines. */
  method ShiftUp(s: Slots) returns (r: Slots)
    ensures r == Compact(s)
  {
    var newBlocks := SpaceOut(s);
    r := FitLines(newBlocks);
  }

  /** The first loop of shiftBlocksUp: each block in order, followed by as many empty lines as it has lines beyond its first. */
  method SpaceOut(s: Slots) returns (newBlocks: Slots)
    ensures newBlocks == Expand(Present(s))
  {
    newBlocks := [];
    var k := 0;
    assert s[..0] == [];
    while k < |s|
      invariant 0 <= k <= |s|
      invariant newBlocks == Expand(Present(s[..k]))
    {
      ExpandStep(s, k);
      if s[k].Some? {
        var b := s[k].value;
        newBlocks := PadBlock(newBlocks + [Some(b)], Height(b));
      }
      k := k + 1;
    }
    assert s[..k] == s;
  }

  /** The last loop of shiftBlocksUp: empty lines pushed up to NumLines, then the first NumLines kept. */
  method FitLines(e: Slots) returns (r: Slots)
    ensures r == Fit(e)
  {
    var newBlocks := e;
    while |newBlocks| < NumLines
      invariant |e| <= |newBlocks| && newBlocks == e + Nulls(|newBlocks| - |e|)
      decreases NumLines - |newBlocks|
    {
      NullsSnoc(e, |newBlocks| - |e|);
      newBlocks := newBlocks + [None];
    }
    PadFit(e, newBlocks);
    r := newBlocks[..NumLines];
  }

  // ----- The code area -----

  /** The code area's state: the module-level variables of main.js. */
  class Workspace {
    var blocks: Slots
    var allBlocks: seq<Block>
    var title: string
    var desc: string
    var target: Option<int>

    constructor ()
      ensures blocks == [] && allBlocks == [] && title == "" && desc == "" && target == Some(0)
    {
      blocks := [];
      allBlocks := [];
      title := "";
      desc := "";
      target := Some(0);
    }

    /** shiftBlocksUp on the code area. */
    method ShiftBlocksUp()
      modifies this
      ensures blocks == Compact(old(blocks))
      ensures allBlocks == old(allBlocks) && title == old(title) && desc == old(desc) && target == old(target)
    {
      blocks := ShiftUp(blocks);
    }

    /**
     * drawCodeLines' default drop line: with no line under the mouse and a
     * statement block being dragged, the first empty slot reached by stepping
     * over each block's lines.
     */
    method DefaultGhostIndex(ghostIndex: int, dragging: Option<Block>) returns (g: int)
      ensures g == if ghostIndex == -1 && dragging.Some? && !IsHeaderBlock(dragging.value) then FirstFree(blocks, 0) else ghostIndex
    {
      g := ghostIndex;
      if ghostIndex == -1 && dragging.Some? && !IsHeaderBlock(dragging.value) {
        var i := 0;
        while i < |blocks|
          invariant FirstFree(blocks, i) == FirstFree(blocks, 0)
          decreases |blocks| - i
        {
          if blocks[i].None? {
            return i;
          }
          i := i + Height(blocks[i].value);
        }
      }
    }

    /** The drop of a block into the code area (mouseReleased, no compound under the mouse). */
    method DropInCodeArea(d: Block, ghostIndex: int, inArea: bool, overBlock: bool)
      requires -1 <= ghostIndex < |blocks|
      modifies this
      ensures blocks == Dropped(old(blocks), d, ghostIndex, inArea, overBlock)
      ensures allBlocks == old(allBlocks) && title == old(title) && desc == old(desc) && target == old(target)
    {
      if ghostIndex != -1 && inArea {
        if !IsHeaderBlock(d) {
          blocks := blocks[..ghostIndex] + [Some(d)] + blocks[ghostIndex..];
          blocks := blocks[..if |blocks| <= NumLines then |blocks| else NumLines];
          ShiftBlocksUp();
        } else if blocks[ghostIndex].Some? && IsCompound(blocks[ghostIndex].value) && overBlock {
          var (_, nb) := AcceptHeader(blocks[ghostIndex].value, d);
          blocks := blocks[ghostIndex := Some(nb)];
        }
      }
    }

    /** The drop onto the compound under the mouse (mouseReleased with compoundHover set). */
    method DropIntoCompound(c: Block, hover: BlockId, toElse: bool)
      modifies this
      ensures blocks == AddedChild(old(blocks), hover, c, toElse)
      ensures allBlocks == old(allBlocks) && title == old(title) && desc == old(desc) && target == old(target)
    {
      blocks := AddedChild(blocks, hover, c, toElse);
    }

    /** promoteBlock: the sidebar first, then the top-level slots, then the top-level compounds. */
    method PromoteBlock(t: BlockId)
      modifies this
      ensures (allBlocks, blocks) == Promoted(old(allBlocks), old(blocks), t)
      ensures title == old(title) && desc == old(desc) && target == old(target)
    {
      var i := IndexOf(allBlocks, t);
      if i < |allBlocks| {
        allBlocks := MoveToEnd(allBlocks, i);
        return;
      }
      var k := 0;
      while k < |blocks| && !IsBlock(blocks[k], t)
        invariant 0 <= k <= |blocks|
        invariant SlotIndexOf(blocks, t, k) == SlotIndexOf(blocks, t, 0)
      {
        k := k + 1;
      }
      if k < |blocks| {
        blocks := MoveToEnd(blocks, k);
        return;
      }
      var j := 0;
      while j < |blocks|
        invariant 0 <= j <= |blocks|
        invariant PromoteScan(blocks, t, j) == PromoteScan(blocks, t, 0)
      {
        if blocks[j].Some? {
          var r := PromoteIn(blocks[j].value, t);
          if r.Some? {
            blocks := blocks[j := r];
            return;
          }
        }
        j := j + 1;
      }
    }

    /** removeBlock: the top-level slots, then the headers of top-level compounds, then recursiveRemove on each top-level block. */
    method RemoveBlock(t: BlockId)
      modifies this
      ensures blocks == Removed(old(blocks), t).0
      ensures allBlocks == old(allBlocks) && title == old(title) && desc == old(desc) && target == old(target)
    {
      var k := 0;
      while k < |blocks| && !IsBlock(blocks[k], t)
        invariant 0 <= k <= |blocks|
        invariant SlotIndexOf(blocks, t, k) == SlotIndexOf(blocks, t, 0)
      {
        k := k + 1;
      }
      if k < |blocks| {
        blocks := blocks[..k] + blocks[k + 1..];
        ShiftBlocksUp();
        return;
      }
      var j := 0;
      while j < |blocks| && !HoldsInHeader(blocks[j], t)
        invariant 0 <= j <= |blocks|
        invariant HeaderScan(blocks, t, j) == HeaderScan(blocks, t, 0)
      {
        j := j + 1;
      }
      if j < |blocks| {
        var b := blocks[j].value;
        var p := RemoveFromHeader(HeaderOf(b), t);
        blocks := blocks[j := Some(WithHeader(b, p.0))];
        return;
      }
      var d := 0;
      while d < |blocks|
        invariant 0 <= d <= |blocks|
        invariant DeepScan(blocks, t, d) == DeepScan(blocks, t, 0)
      {
        if blocks[d].Some? {
          var r := RecursiveRemove(t, blocks[d].value);
          if r.Some? {
            blocks := blocks[d := Some(r.value.0)];
            return;
          }
        }
        d := d + 1;
      }
    }

    /**
     * loadNextProblem: the user starts the problem; the code area is reset to a
     * single locked statement setting x to the problem's initial value, the
     * sidebar to the problem's blocks, and the title, description and target
     * to the problem's. The new statement block takes the id given.
     */
    method LoadNextProblem(user: User, problem: Problem, id: BlockId)
      modifies this, user
      ensures blocks == [Some(Block(id, true, Code("x = " + IntToString(problem.initialValue))))] + Nulls(NumLines - 1)
      ensures allBlocks == problem.availableBlocks
      ensures title == problem.title && desc == problem.description && target == problem.targetValue
      ensures user.currentProblem == Some(problem.id) && user.currentBlocks == problem.predefinedBlocks
      ensures user.inventory == old(user.inventory) && user.completedProblems == old(user.completedProblems)
      ensures user.score == old(user.score)
    {
      var placed, available := user.StartProblem(problem);
      var first := Block(id, true, Code("x = " + IntToString(problem.initialValue)));
      var lines: Slots := [Some(first)];
      allBlocks := available;
      title := problem.title;
      desc := problem.description;
      target := problem.targetValue;
      while |lines| < NumLines
        invariant 1 <= |lines| <= NumLines && lines == [Some(first)] + Nulls(|lines| - 1)
        decreases NumLines - |lines|
      {
        lines := lines + [None];
      }
      blocks := lines;
      LoadedLayout(first);
      ShiftBlocksUp();
    }
  }

  /** One more slot of shiftBlocksUp's loop: a block adds its own line and its empty lines, an empty slot nothing. */
  lemma {:induction false} ExpandStep(s: Slots, k: nat)
    requires k < |s|
    ensures Expand(Present(s[..k + 1])) ==
            Expand(Present(s[..k])) + (if s[k].Some? then [Some(s[k].value)] + Nulls(Height(s[k].value) - 1) else [])
  {
    var p := s[..k + 1];
    assert p[..k] == s[..k] && p[k] == s[k];
    if s[k].Some? {
      var ps := Present(s[..k]) + [s[k].value];
      assert Present(p) == ps;
      assert ps[..|ps| - 1] == Present(s[..k]);
      assert Expand(ps) == Expand(Present(s[..k])) + [Some(s[k].value)] + Nulls(Height(s[k].value) - 1);
    } else {
      assert Present(p) == Present(s[..k]);
    }
  }

  /** One more empty line. */
  lemma {:induction false} NullsSnoc(head: Slots, n: nat)
    ensures head + Nulls(n) + [None] == head + Nulls(n + 1)
  {
    assert Nulls(n) + [None] == Nulls(n + 1);
  }

  /** Padded with empty lines to at least NumLines and cut there: the array Fit builds. */
  lemma {:induction false} PadFit(e: Slots, padded: Slots)
    requires |e| <= |padded| && NumLines <= |padded| && padded == e + Nulls(|padded| - |e|)
    ensures padded[..NumLines] == Fit(e)
  {
    forall i | 0 <= i < NumLines
      ensures padded[..NumLines][i] == Fit(e)[i]
    {
      if i >= |e| {
        assert padded[i] == Nulls(|padded| - |e|)[i - |e|];
      }
    }
  }

  /** A one-line block with empty lines after it is already laid out. */
  lemma {:induction false} LoadedLayout(b: Block)
    requires Height(b) == 1
    ensures LaidOut([Some(b)] + Nulls(NumLines - 1))
  {
    var s := [Some(b)] + Nulls(NumLines - 1);
    PresentLead(b, NumLines - 1);
    assert [b][..0] == [];
    assert Expand([b]) == [Some(b)] + Nulls(0);
    assert SumHeights([b]) == 1;
    assert Compact(s) == s;
  }
}
