/**
 * The code area of main.js: an array of NUM_LINES slots, each holding a block or
 * null. A block of height h sits on its first line and the h - 1 slots after it
 * stay empty; `shiftBlocksUp` restores that arrangement after every edit.
 *
 * These are the functions the Workspace methods are proved against.
 */
module Layout {

  import opened Wrappers
  import opened Blocks

  /** NUM_LINES */
  const NumLines: nat := 40

  type Slots = seq<Option<Block>>

  function Nulls(n: nat): (r: Slots)
    ensures |r| == n && forall i :: 0 <= i < n ==> r[i] == None
  {
    seq(n, i => None)
  }

  /** The blocks of a slot array in line order, nulls skipped. */
  function Present(s: Slots): seq<Block> {
    if s == [] then []
    else Present(s[..|s| - 1]) + (if s[|s| - 1].Some? then [s[|s| - 1].value] else [])
  }

  /** Each block followed by one empty slot for every further line it spans. */
  function Expand(ps: seq<Block>): (r: Slots)
    ensures |r| == SumHeights(ps)
  {
    if ps == [] then []
    else
      var n := |ps| - 1;
      SumHeightsAppend(ps[..n], [ps[n]]);
      assert ps[..n] + [ps[n]] == ps;
      assert [ps[n]][1..] == [];
      Expand(ps[..n]) + [Some(ps[n])] + Nulls(Height(ps[n]) - 1)
  }

  /** The first NumLines slots, padded with nulls: `while (length < NUM_LINES) push(null)` then `slice(0, NUM_LINES)`. */
  function Fit(t: Slots): (r: Slots)
    ensures |r| == NumLines
    ensures forall i :: 0 <= i < NumLines ==> r[i] == if i < |t| then t[i] else None
  {
    seq(NumLines, i requires 0 <= i < NumLines => if i < |t| then t[i] else None)
  }

  /** shiftBlocksUp: the blocks kept in order, re-spaced by height, cut to NumLines lines. */
  function Compact(s: Slots): (r: Slots)
    ensures |r| == NumLines
  {
    Fit(Expand(Present(s)))
  }

  /** The lines a program occupies. */
  function TotalHeight(s: Slots): nat {
    SumHeights(Present(s))
  }

  // ----- Present -----

  lemma {:induction false} PresentAppend(a: Slots, c: Slots)
    ensures Present(a + c) == Present(a) + Present(c)
    decreases |c|
  {
    if c == [] {
      assert a + c == a;
    } else {
      var n := |c| - 1;
      assert (a + c)[..|a + c| - 1] == a + c[..n];
      PresentAppend(a, c[..n]);
    }
  }

  lemma {:induction false} PresentNulls(n: nat)
    ensures Present(Nulls(n)) == []
  {
    if n > 0 {
      assert Nulls(n)[..n - 1] == Nulls(n - 1);
      PresentNulls(n - 1);
    }
  }

  lemma {:induction false} PresentSingle(b: Block)
    ensures Present([Some(b)]) == [b]
  {
    assert [Some(b)][..0] == [];
  }

  /** Spacing a program out and reading it back gives the program. */
  lemma {:induction false} PresentExpand(ps: seq<Block>)
    ensures Present(Expand(ps)) == ps
  {
    if ps != [] {
      var n := |ps| - 1;
      var a, m, z := Expand(ps[..n]), [Some(ps[n])], Nulls(Height(ps[n]) - 1);
      ExpandLast(ps);
      PresentExpand(ps[..n]);
      PresentAppend(a + m, z);
      PresentAppend(a, m);
      PresentNulls(Height(ps[n]) - 1);
      PresentSingle(ps[n]);
      assert Present(Expand(ps)) == ps[..n] + [ps[n]];
      assert ps[..n] + [ps[n]] == ps;
    }
  }

  /** The last block of a program is spaced out after the ones before it. */
  lemma {:induction false} ExpandLast(ps: seq<Block>)
    requires ps != []
    ensures Expand(ps) == Expand(ps[..|ps| - 1]) + [Some(ps[|ps| - 1])] + Nulls(Height(ps[|ps| - 1]) - 1)
  {
  }

  lemma {:induction false} ExpandAppend(a: seq<Block>, c: seq<Block>)
    ensures Expand(a + c) == Expand(a) + Expand(c)
    decreases |c|
  {
    if c == [] {
      assert a + c == a;
    } else {
      var n := |c| - 1;
      assert (a + c)[..|a + c| - 1] == a + c[..n];
      assert (a + c)[|a + c| - 1] == c[n];
      ExpandAppend(a, c[..n]);
    }
  }

  /** Fitting keeps the blocks of the first NumLines slots: a prefix of the program, all of it when it fits. */
  lemma {:induction false} PresentFit(t: Slots)
    ensures |t| <= NumLines ==> Present(Fit(t)) == Present(t)
    ensures Present(t) == Present(Fit(t)) + Present(t[if |t| <= NumLines then |t| else NumLines..])
  {
    if |t| <= NumLines {
      assert Fit(t) == t + Nulls(NumLines - |t|);
      PresentAppend(t, Nulls(NumLines - |t|));
      PresentNulls(NumLines - |t|);
      assert t[|t|..] == [];
      assert Present(t[|t|..]) == [];
    } else {
      assert Fit(t) == t[..NumLines];
      assert t == t[..NumLines] + t[NumLines..];
      PresentAppend(t[..NumLines], t[NumLines..]);
    }
  }

  // ----- shiftBlocksUp -----

  /** shiftBlocksUp keeps the program's blocks in order: a prefix of them, and all of them when they fit in NumLines lines. */
  lemma {:induction false} CompactKeepsProgram(s: Slots)
    ensures exists rest :: Present(s) == Present(Compact(s)) + rest
    ensures TotalHeight(s) <= NumLines ==> Present(Compact(s)) == Present(s)
  {
    var t := Expand(Present(s));
    PresentFit(t);
    PresentExpand(Present(s));
  }

  /** Re-spacing slots shiftBlocksUp has already laid out changes nothing, whether or not the program fits. */
  lemma {:induction false} CompactIdempotent(s: Slots)
    ensures Compact(Compact(s)) == Compact(s)
  {
    var p := Present(s);
    var e := Expand(p);
    PresentExpand(p);
    PresentFit(e);
    if |e| > NumLines {
      var q, rest := Present(e[..NumLines]), Present(e[NumLines..]);
      assert Fit(e) == e[..NumLines];
      ExpandAppend(q, rest);
      CutRespaced(q, rest);
    }
  }

  /**
   * A program cut at NumLines lines: the blocks q that start on the first
   * NumLines lines, re-spaced and fitted, give back the cut lines.
   */
  lemma {:induction false} CutRespaced(q: seq<Block>, rest: seq<Block>)
    requires |Expand(q) + Expand(rest)| > NumLines
    requires Present((Expand(q) + Expand(rest))[..NumLines]) == q
    ensures Fit(Expand(q)) == (Expand(q) + Expand(rest))[..NumLines]
  {
    var eq := Expand(q);
    var f := (eq + Expand(rest))[..NumLines];
    if |eq| < NumLines {
      // the lines between the last block that starts in time and the cut are empty
      var gap := Expand(rest)[..NumLines - |eq|];
      assert f == eq + gap;
      PresentAppend(eq, gap);
      PresentExpand(q);
      assert |Present(gap)| == 0;
      PresentEmpty(gap);
      forall i | 0 <= i < NumLines
        ensures Fit(eq)[i] == f[i]
      {
        if i >= |eq| {
          assert f[i] == gap[i - |eq|];
        }
      }
    } else {
      forall i | 0 <= i < NumLines
        ensures Fit(eq)[i] == f[i]
      {
        assert f[i] == eq[i];
      }
    }
  }

  /** Slots without a block are all empty. */
  lemma {:induction false} PresentEmpty(x: Slots)
    requires Present(x) == []
    ensures forall i :: 0 <= i < |x| ==> x[i] == None
  {
    if x != [] {
      var n := |x| - 1;
      PresentEmpty(x[..n]);
      assert forall i :: 0 <= i < n ==> x[i] == x[..n][i];
    }
  }

  /** A slot array in the arrangement shiftBlocksUp produces. */
  predicate LaidOut(s: Slots) {
    s == Compact(s) && TotalHeight(s) <= NumLines
  }

  lemma {:induction false} CompactLaidOut(s: Slots)
    requires TotalHeight(s) <= NumLines
    ensures LaidOut(Compact(s))
  {
    CompactKeepsProgram(s);
    CompactIdempotent(s);
  }

  // ----- The free-line scan of drawCodeLines -----

  /** From line i on: the first empty slot reached by jumping over each block's height, -1 when there is none. */
  function FirstFree(s: Slots, i: nat): (g: int)
    ensures g == -1 || (i <= g < |s| && s[g].None?)
    decreases |s| - i
  {
    if i >= |s| then -1
    else if s[i].None? then i
    else FirstFree(s, i + Height(s[i].value))
  }

  /** Where each block of a spaced-out program starts: after the lines of the blocks before it. */
  lemma {:induction false} ExpandStart(ps: seq<Block>, j: nat)
    requires j < |ps|
    ensures SumHeights(ps[..j]) < SumHeights(ps)
    ensures Expand(ps)[SumHeights(ps[..j])] == Some(ps[j])
    ensures SumHeights(ps[..j + 1]) == SumHeights(ps[..j]) + Height(ps[j])
  {
    assert ps == ps[..j] + [ps[j]] + ps[j + 1..];
    assert ps[..j + 1] == ps[..j] + [ps[j]];
    ExpandAppend(ps[..j] + [ps[j]], ps[j + 1..]);
    ExpandAppend(ps[..j], [ps[j]]);
    SumHeightsAppend(ps[..j] + [ps[j]], ps[j + 1..]);
    SumHeightsAppend(ps[..j], [ps[j]]);
    assert [ps[j]][1..] == [];
    assert [ps[j]][..0] == [];
  }

  lemma {:induction false} FirstFreeFrom(ps: seq<Block>, j: nat)
    requires j <= |ps|
    ensures FirstFree(Fit(Expand(ps)), SumHeights(ps[..j])) == if SumHeights(ps) < NumLines then SumHeights(ps) else -1
    decreases |ps| - j
  {
    var s := Fit(Expand(ps));
    if j == |ps| {
      assert ps[..j] == ps;
    } else {
      ExpandStart(ps, j);
      var i := SumHeights(ps[..j]);
      SumHeightsAppend(ps[..j + 1], ps[j + 1..]);
      assert ps[..j + 1] + ps[j + 1..] == ps;
      if i < NumLines {
        FirstFreeFrom(ps, j + 1);
      }
    }
  }

  /** On a laid-out array the scan finds the line right after the program, or -1 when the program fills every line. */
  lemma {:induction false} FirstFreeAfterProgram(s: Slots)
    ensures FirstFree(Compact(s), 0) == if TotalHeight(s) < NumLines then TotalHeight(s) else -1
  {
    assert Present(s)[..0] == [];
    FirstFreeFrom(Present(s), 0);
  }

  // ----- Dropping a block into the code area -----

  /** `blocks.splice(g, 0, d)` then `slice(0, NUM_LINES)` then shiftBlocksUp. */
  function InsertAt(s: Slots, g: nat, d: Block): (r: Slots)
    requires g <= |s|
    ensures |r| == NumLines
  {
    var t := s[..g] + [Some(d)] + s[g..];
    Compact(t[..if |t| <= NumLines then |t| else NumLines])
  }

  /**
   * A drop keeps every block when the last line was empty and the program with the
   * new block fits: the new block lands between the blocks before and after the
   * drop line.
   */
  lemma {:induction false} InsertKeepsProgram(s: Slots, g: nat, d: Block)
    requires |s| == NumLines && g < NumLines && s[NumLines - 1].None?
    requires TotalHeight(s) + Height(d) <= NumLines
    ensures Present(InsertAt(s, g, d)) == Present(s[..g]) + [d] + Present(s[g..])
    ensures LaidOut(InsertAt(s, g, d))
  {
    var t := s[..g] + [Some(d)] + s[g..];
    var u := t[..NumLines];
    var nothing: Slots := [None];
    assert |t| == NumLines + 1 && t[NumLines] == s[NumLines - 1];
    assert t == u + nothing;
    assert InsertAt(s, g, d) == Compact(u);
    var p := Present(s[..g]) + [d] + Present(s[g..]);
    assert Present(u) == p by {
      PresentAppend(u, nothing);
      assert nothing[..0] == [];
      PresentAppend(s[..g] + [Some(d)], s[g..]);
      PresentAppend(s[..g], [Some(d)]);
      PresentSingle(d);
    }
    assert SumHeights(p) == TotalHeight(s) + Height(d) by {
      PresentAppend(s[..g], s[g..]);
      assert s[..g] + s[g..] == s;
      SumHeightsAppend(Present(s[..g]) + [d], Present(s[g..]));
      SumHeightsAppend(Present(s[..g]), [d]);
      SumHeightsAppend(Present(s[..g]), Present(s[g..]));
      assert [d][1..] == [];
    }
    CompactKeepsProgram(u);
    CompactLaidOut(u);
  }

  /** Dropped on the line the scan finds, a block is appended to a laid-out program. */
  lemma {:induction false} DropOnFreeLineAppends(s: Slots, d: Block)
    requires LaidOut(s) && TotalHeight(s) + Height(d) <= NumLines
    ensures FirstFree(s, 0) == TotalHeight(s)
    ensures Present(InsertAt(s, TotalHeight(s), d)) == Present(s) + [d]
    ensures LaidOut(InsertAt(s, TotalHeight(s), d))
  {
    FirstFreeAfterProgram(s);
    var h := TotalHeight(s);
    LaidOutTail(s);
    assert Present(s[h..]) == [] by {
      assert s[h..] == Nulls(NumLines - h);
      PresentNulls(NumLines - h);
    }
    assert Present(s[..h]) == Present(s) by {
      PresentAppend(s[..h], s[h..]);
      assert s[..h] + s[h..] == s;
    }
    InsertKeepsProgram(s, h, d);
  }

  /** A laid-out array is empty after the program's lines. */
  lemma {:induction false} LaidOutTail(s: Slots)
    requires LaidOut(s)
    ensures |s| == NumLines && forall i :: TotalHeight(s) <= i < NumLines ==> s[i] == None
  {
    var e := Expand(Present(s));
    assert s == Fit(e) && |e| == TotalHeight(s);
  }

  // ----- flattenBlocks -----

  /** What one slot adds to flattenBlocks: a loop adds itself and its direct children; an if/else only itself, its children array being empty. */
  function Contribution(o: Option<Block>): seq<Block> {
    match o
    case None => []
    case Some(b) =>
      match b.node
      case ForLoop(_, ch) => [b] + ch
      case While(_, ch) => [b] + ch
      case _ => [b]
  }

  /** flattenBlocks: reduces left to right over the slots. */
  function Flatten(s: Slots): seq<Block> {
    if s == [] then [] else Flatten(s[..|s| - 1]) + Contribution(s[|s| - 1])
  }

  /** A loop-free program flattens to itself; a loop adds its direct children and nothing deeper. */
  lemma {:induction false} FlattenWithoutLoops(s: Slots)
    requires forall k :: 0 <= k < |s| && s[k].Some? ==> !s[k].value.node.ForLoop? && !s[k].value.node.While?
    ensures Flatten(s) == Present(s)
  {
    if s != [] {
      FlattenWithoutLoops(s[..|s| - 1]);
    }
  }

  /** Every top-level block is in the flattened list, and so is every direct child of a top-level loop. */
  lemma {:induction false} FlattenContains(s: Slots, k: nat)
    requires k < |s| && s[k].Some?
    ensures s[k].value in Flatten(s)
    ensures s[k].value.node.ForLoop? || s[k].value.node.While? ==> forall c :: c in s[k].value.node.children ==> c in Flatten(s)
    decreases |s|
  {
    if k < |s| - 1 {
      FlattenContains(s[..|s| - 1], k);
    }
  }

  /** Nothing else is listed: each block in the flattened list is a top-level block or a direct child of a top-level loop. */
  lemma {:induction false} FlattenOnly(s: Slots, x: Block)
    requires x in Flatten(s)
    ensures exists k :: 0 <= k < |s| && s[k].Some? &&
                        (x == s[k].value || ((s[k].value.node.ForLoop? || s[k].value.node.While?) && x in s[k].value.node.children))
    decreases |s|
  {
    var n := |s| - 1;
    if x in Flatten(s[..n]) {
      FlattenOnly(s[..n], x);
      var k :| 0 <= k < n && s[..n][k].Some? &&
               (x == s[..n][k].value || ((s[..n][k].value.node.ForLoop? || s[..n][k].value.node.While?) && x in s[..n][k].value.node.children));
      assert s[..n][k] == s[k];
    } else {
      assert x in Contribution(s[n]);
    }
  }
}
