/** A list of address ranges, each of some sort, that is kept sorted and merged. */
module SegmentLists {
  import opened Wrappers

  datatype Segment = Segment(start: nat, end: nat, sort: string) {
    function Size(): int { end - start }

    predicate Has(a: int) { start <= a < end }
  }

  /** Two neighbours in the list: they may only touch if they are of different sorts. */
  predicate Apart(s: Segment, t: Segment) {
    s.end < t.start || (s.end == t.start && s.sort != t.sort)
  }

  ghost predicate Ordered(list: seq<Segment>) {
    && (forall i :: 0 <= i < |list| ==> list[i].start <= list[i].end)
    && (forall i :: 0 <= i < |list| - 1 ==> Apart(list[i], list[i + 1]))
  }

  /** The address is in a segment of that sort. */
  ghost predicate Holds(list: seq<Segment>, a: int, sort: string) {
    exists i :: 0 <= i < |list| && list[i].Has(a) && list[i].sort == sort
  }

  ghost predicate IsOccupied(list: seq<Segment>, a: int) {
    exists i :: 0 <= i < |list| && list[i].Has(a)
  }

  function TotalSize(list: seq<Segment>): int {
    if list == [] then 0 else TotalSize(list[..|list| - 1]) + list[|list| - 1].Size()
  }

  lemma {:induction false} TotalSizeAppend(l: seq<Segment>, m: seq<Segment>)
    ensures TotalSize(l + m) == TotalSize(l) + TotalSize(m)
  {
    if m == [] {
      assert l + m == l;
    } else {
      var n := |m| - 1;
      TotalSizeAppend(l, m[..n]);
      assert (l + m)[..|l + m| - 1] == l + m[..n];
    }
  }

  lemma {:induction false} OrderedAt(list: seq<Segment>, i: nat, j: nat)
    requires Ordered(list) && i < j < |list|
    ensures list[i].end <= list[j].start
    decreases j - i
  {
    assert Apart(list[j - 1], list[j]);
    if i < j - 1 {
      OrderedAt(list, i, j - 1);
    }
  }

  lemma OrderedAll(list: seq<Segment>)
    requires Ordered(list)
    ensures forall i, j :: 0 <= i < j < |list| ==> list[i].end <= list[j].start
  {
    forall i, j | 0 <= i < j < |list|
      ensures list[i].end <= list[j].start
    {
      OrderedAt(list, i, j);
    }
  }

  lemma OrderedParts(l: seq<Segment>, m: seq<Segment>)
    requires Ordered(l + m)
    ensures Ordered(l) && Ordered(m) && (l != [] && m != [] ==> Apart(l[|l| - 1], m[0]))
  {
    var all := l + m;
    forall i | 0 <= i < |l|
      ensures l[i].start <= l[i].end && (i < |l| - 1 ==> Apart(l[i], l[i + 1]))
    {
      assert all[i] == l[i] && (i < |l| - 1 ==> Apart(all[i], all[i + 1]));
    }
    forall i | 0 <= i < |m|
      ensures m[i].start <= m[i].end && (i < |m| - 1 ==> Apart(m[i], m[i + 1]))
    {
      assert all[|l| + i] == m[i] && (i < |m| - 1 ==> Apart(all[|l| + i], all[|l| + i + 1]));
    }
    if l != [] && m != [] {
      assert Apart(all[|l| - 1], all[|l| - 1 + 1]);
    }
  }

  lemma OrderedJoin(l: seq<Segment>, m: seq<Segment>)
    requires Ordered(l) && Ordered(m) && (l != [] && m != [] ==> Apart(l[|l| - 1], m[0]))
    ensures Ordered(l + m)
  {
  }

  lemma HoldsJoin(l: seq<Segment>, m: seq<Segment>, a: int, sort: string)
    ensures Holds(l + m, a, sort) <==> Holds(l, a, sort) || Holds(m, a, sort)
  {
    var all := l + m;
    if Holds(l, a, sort) {
      var i :| 0 <= i < |l| && l[i].Has(a) && l[i].sort == sort;
      assert all[i].Has(a) && all[i].sort == sort;
    }
    if Holds(m, a, sort) {
      var i :| 0 <= i < |m| && m[i].Has(a) && m[i].sort == sort;
      assert all[|l| + i].Has(a) && all[|l| + i].sort == sort;
    }
  }

  lemma HoldsOne(s: Segment, a: int, sort: string)
    ensures Holds([s], a, sort) <==> s.Has(a) && s.sort == sort
  {
    assert [s][0] == s;
  }

  // ---- the list around a segment ----

  /** The list with `m` between `l` and `r`. */
  function Around(l: seq<Segment>, m: Segment, r: seq<Segment>): seq<Segment> {
    l + [m] + r
  }

  lemma AroundIs(l: seq<Segment>, m: Segment, r: seq<Segment>)
    ensures Around(l, m, r) == l + [m] + r
  {
  }

  lemma HoldsAround(l: seq<Segment>, m: Segment, r: seq<Segment>, a: int, sort: string)
    ensures Holds(Around(l, m, r), a, sort) <==> Holds(l, a, sort) || (m.Has(a) && m.sort == sort) || Holds(r, a, sort)
  {
    HoldsJoin(l + [m], r, a, sort);
    HoldsJoin(l, [m], a, sort);
    HoldsOne(m, a, sort);
  }

  lemma SizeAround(l: seq<Segment>, m: Segment, r: seq<Segment>)
    ensures TotalSize(Around(l, m, r)) == TotalSize(l) + m.Size() + TotalSize(r)
  {
    TotalSizeAppend(l + [m], r);
    TotalSizeAppend(l, [m]);
    assert [m][..0] == [];
  }

  lemma AroundParts(l: seq<Segment>, m: Segment, r: seq<Segment>)
    ensures |Around(l, m, r)| == |l| + 1 + |r| && Around(l, m, r)[|l|] == m
    ensures r != [] ==> Around(l, m, r)[|l| + 1] == r[0]
    ensures r != [] ==> forall s :: Around(l, m, r)[..|l|] + [s] + Around(l, m, r)[|l| + 2..] == Around(l, s, r[1..])
  {
    if r != [] {
      assert Around(l, m, r)[..|l|] == l && Around(l, m, r)[|l| + 2..] == r[1..];
    }
  }

  lemma AroundBefore(l: seq<Segment>, m: Segment, r: seq<Segment>)
    requires l != []
    ensures |Around(l, m, r)| == |l| + 1 + |r| && Around(l, m, r)[|l|] == m && Around(l, m, r)[|l| - 1] == l[|l| - 1]
    ensures forall s :: Around(l, m, r)[..|l| - 1] + [s] + Around(l, m, r)[|l| + 1..] == Around(l[..|l| - 1], s, r)
  {
    assert Around(l, m, r)[..|l| - 1] == l[..|l| - 1] && Around(l, m, r)[|l| + 1..] == r;
  }

  function Max(a: nat, b: nat): nat { if a < b then b else a }
  function Min(a: nat, b: nat): nat { if a < b then a else b }

  function Merged(s: Segment, t: Segment): Segment {
    Segment(Min(s.start, t.start), Max(s.end, t.end), t.sort)
  }

  /** What is known while a new block is being merged with what follows it. */
  ghost predicate Forward(l: seq<Segment>, m: Segment, r: seq<Segment>, a: nat) {
    && Ordered(l + r)
    && m.start <= a < m.end
    && (l != [] ==> l[|l| - 1].end <= m.start)
    && (forall i :: 0 <= i < |l| ==> l[i].end <= a)
    && (forall i :: 0 <= i < |r| ==> r[i].end > a)
  }

  /** No segment of another sort starts before the block ends. */
  ghost predicate Clear(m: Segment, r: seq<Segment>) {
    forall i :: 0 <= i < |r| && r[i].sort != m.sort ==> m.end <= r[i].start
  }

  lemma ClearFromFirst(l: seq<Segment>, m: Segment, r: seq<Segment>, a: nat)
    requires Forward(l, m, r, a)
    ensures r == [] || Apart(m, r[0]) ==> Clear(m, r) && Ordered([m] + r)
    ensures r != [] && !Apart(m, r[0]) && r[0].sort != m.sort ==> !Clear(m, r) && !Ordered([m] + r)
  {
    OrderedParts(l, r);
    OrderedAll(r);
    if r == [] || Apart(m, r[0]) {
      OrderedJoin([m], r);
      forall i | 0 <= i < |r| && r[i].sort != m.sort
        ensures m.end <= r[i].start
      {
        SegmentOk(r, 0);
      }
    } else if r[0].sort != m.sort {
      assert !Apart(([m] + r)[0], ([m] + r)[1]);
    }
  }

  lemma ClearMerged(l: seq<Segment>, m: Segment, r: seq<Segment>, a: nat)
    requires Forward(l, m, r, a) && r != [] && r[0].start <= m.end && r[0].sort == m.sort
    ensures Clear(Merged(m, r[0]), r[1..]) <==> Clear(m, r)
  {
    OrderedParts(l, r);
    OrderedAll(r);
    assert forall i :: 0 < i < |r| ==> r[i] == r[1..][i - 1];
  }

  lemma {:induction false} MergeForward(l: seq<Segment>, m: Segment, r: seq<Segment>, a: nat)
    requires Forward(l, m, r, a) && r != [] && r[0].start <= m.end && r[0].sort == m.sort
    ensures Forward(l, Merged(m, r[0]), r[1..], a)
    ensures forall x: int, s: string :: Holds(Around(l, m, r), x, s) <==> Holds(Around(l, Merged(m, r[0]), r[1..]), x, s)
  {
    OrderedParts(l, r);
    OrderedAll(r);
    assert r == [r[0]] + r[1..];
    OrderedParts([r[0]], r[1..]);
    assert l + r == (l + [r[0]]) + r[1..];
    OrderedParts(l + [r[0]], r[1..]);
    if l != [] && |r| > 1 {
      NeighboursApart(l[|l| - 1], r[0], r[1], m, a);
    }
    OrderedJoin(l, r[1..]);
    forall x: int, s: string
      ensures Holds(Around(l, m, r), x, s) <==> Holds(Around(l, Merged(m, r[0]), r[1..]), x, s)
    {
      HoldsAround(l, m, r, x, s);
      HoldsAround(l, Merged(m, r[0]), r[1..], x, s);
      HoldsJoin([r[0]], r[1..], x, s);
      HoldsOne(r[0], x, s);
    }
  }

  lemma NeighboursApart(p: Segment, s: Segment, t: Segment, m: Segment, a: nat)
    requires Apart(p, s) && Apart(s, t) && s.start <= s.end && p.end <= a < s.end
    ensures Apart(p, t)
  {
  }

  lemma ForwardDone(l: seq<Segment>, m: Segment, r: seq<Segment>, a: nat)
    requires Forward(l, m, r, a)
    ensures Backward(l, m)
  {
    OrderedParts(l, r);
  }

  /** What is known while a new block is being merged with what comes before it. */
  ghost predicate Backward(l: seq<Segment>, m: Segment) {
    && Ordered(l) && m.start < m.end
    && (l != [] ==> l[|l| - 1].end <= m.start)
  }

  lemma TouchesAtMost(l: seq<Segment>, m: Segment)
    requires Backward(l, m)
    ensures l != [] ==> l[|l| - 1].end <= m.start
  {
  }

  lemma {:induction false} MergeBackward(l: seq<Segment>, m: Segment, r: seq<Segment>)
    requires Backward(l, m) && l != [] && m.start <= l[|l| - 1].end && l[|l| - 1].sort == m.sort
    ensures Backward(l[..|l| - 1], Merged(l[|l| - 1], m))
    ensures Ordered([Merged(l[|l| - 1], m)] + r) <==> Ordered([m] + r)
    ensures forall x: int, s: string :: Holds(Around(l, m, r), x, s) <==> Holds(Around(l[..|l| - 1], Merged(l[|l| - 1], m), r), x, s)
  {
    hide Holds, Around, Ordered;
    var n := |l| - 1;
    assert l == l[..n] + [l[n]];
    OrderedParts(l[..n], [l[n]]);
    MergedApart(l, m);
    SameFollowers(Merged(l[n], m), m, r);
    SegmentOk(l, n);
    NotShorter(l, m);
    MergedHolds(l[..n], l[n], m, r);
  }

  lemma NotShorter(l: seq<Segment>, m: Segment)
    requires Backward(l, m) && l != []
    ensures l[|l| - 1].start <= l[|l| - 1].end <= m.start < m.end
  {
  }

  /** The merged segment ends where the second one does, and starts where the first one does. */
  lemma MergedApart(l: seq<Segment>, m: Segment)
    requires Backward(l, m) && l != [] && m.start <= l[|l| - 1].end && l[|l| - 1].sort == m.sort
    ensures var s := Merged(l[|l| - 1], m);
            && s.start == l[|l| - 1].start && s.end == m.end && s.start < s.end && s.sort == m.sort
            && (|l| > 1 ==> l[|l| - 2].end <= s.start)
  {
    assert |l| > 1 ==> Apart(l[|l| - 2], l[|l| - 2 + 1]);
  }

  /** Whether a list is in order does not depend on where its first segment starts. */
  lemma SameFollowers(s: Segment, m: Segment, r: seq<Segment>)
    requires s.start <= s.end == m.end && m.start <= m.end && s.sort == m.sort
    ensures Ordered([s] + r) <==> Ordered([m] + r)
  {
    if Ordered([s] + r) {
      OrderedParts([s], r);
      OrderedJoin([m], r);
    }
    if Ordered([m] + r) {
      OrderedParts([m], r);
      OrderedJoin([s], r);
    }
  }

  /** Of two segments that touch, the merged one has the addresses of both. */
  lemma MergedHolds(l: seq<Segment>, s: Segment, t: Segment, r: seq<Segment>)
    requires s.start <= s.end && s.start <= t.end && t.start <= s.end && t.start <= t.end && s.sort == t.sort
    ensures forall x: int, sort: string ::
              Holds(Around(l + [s], t, r), x, sort) <==> Holds(Around(l, Merged(s, t), r), x, sort)
  {
    hide Holds, Around;
    forall x: int, sort: string
      ensures Holds(Around(l + [s], t, r), x, sort) <==> Holds(Around(l, Merged(s, t), r), x, sort)
    {
      HoldsAround(l + [s], t, r, x, sort);
      HoldsAround(l, Merged(s, t), r, x, sort);
      HoldsJoin(l, [s], x, sort);
      HoldsOne(s, x, sort);
    }
  }

  lemma BackwardDone(l: seq<Segment>, m: Segment, r: seq<Segment>)
    requires Backward(l, m) && (l != [] ==> Apart(l[|l| - 1], m))
    ensures Ordered(Around(l, m, r)) <==> Ordered([m] + r)
  {
    assert Around(l, m, r) == l + ([m] + r);
    if Ordered([m] + r) {
      OrderedJoin(l, [m] + r);
    }
    if Ordered(l + ([m] + r)) {
      OrderedParts(l, [m] + r);
    }
  }

  /** No segment of another sort reaches into `[a, b)`. */
  ghost predicate NoClash(list: seq<Segment>, a: nat, b: nat, sort: string) {
    forall i :: 0 <= i < |list| && list[i].sort != sort ==> list[i].end <= a || b <= list[i].start
  }

  // ---- overlapping segments of different sorts ----

  /** The pieces that two overlapping segments should be cut into. */
  function Cuts(previous: Segment, segment: Segment, forward: bool): seq<Segment> {
    var sort := if forward then previous.sort else segment.sort;
    if segment.start < previous.start then
      [Segment(segment.start, previous.start, segment.sort), Segment(previous.start, previous.end, sort)]
      + (if segment.end < previous.end then [Segment(segment.end, previous.end, previous.sort)]
         else if segment.end > previous.end then [Segment(previous.end, segment.end, segment.sort)]
         else [])
    else
      (if segment.start > previous.start then [Segment(previous.start, segment.start, previous.sort)] else [])
      + (if segment.end > previous.end then
           [Segment(segment.start, previous.end, sort), Segment(previous.end, segment.end, segment.sort)]
         else if segment.end < previous.end then
           [Segment(segment.start, segment.end, sort), Segment(segment.end, previous.end, previous.sort)]
         else [Segment(segment.start, segment.end, sort)])
  }

  /** From position `i` on, neighbours of one sort are joined. */
  function Joined(segments: seq<Segment>, i: nat): (r: seq<Segment>)
    ensures |segments| > 0 ==> |r| > 0
    decreases |segments| - i
  {
    if i + 1 >= |segments| then segments
    else if segments[i].sort == segments[i + 1].sort then
      Joined(segments[..i] + [Segment(segments[i].start, segments[i + 1].end, segments[i].sort)] + segments[i + 2..], i)
    else Joined(segments, i + 1)
  }

  function Pieces(previous: Segment, segment: Segment, forward: bool): (r: seq<Segment>)
    ensures |r| > 0
  {
    Joined(Cuts(previous, segment, forward), 0)
  }

  /** Neighbours touch, and none is shorter than nothing. */
  ghost predicate Contiguous(segments: seq<Segment>) {
    && (forall i :: 0 <= i < |segments| ==> segments[i].start <= segments[i].end)
    && (forall i :: 0 <= i < |segments| - 1 ==> segments[i].end == segments[i + 1].start)
  }

  /** Joining two neighbours of one sort keeps what is held. */
  lemma JoinStep(segments: seq<Segment>, i: nat)
    requires Contiguous(segments) && i + 1 < |segments| && segments[i].sort == segments[i + 1].sort
    ensures var joined := segments[..i] + [Segment(segments[i].start, segments[i + 1].end, segments[i].sort)] + segments[i + 2..];
            && Contiguous(joined) && TotalSize(joined) == TotalSize(segments)
            && (forall x: int, s: string :: Holds(joined, x, s) <==> Holds(segments, x, s))
  {
    hide Holds, TotalSize, Contiguous, Around;
    var l, s, t, r := segments[..i], segments[i], segments[i + 1], segments[i + 2..];
    var m := Segment(s.start, t.end, s.sort);
    JoinedContiguous(segments, i);
    AroundIs(l + [s], t, r);
    AroundIs(l, m, r);
    assert segments == l + [s] + [t] + r;
    MergedHolds(l, s, t, r);
    SizeAround(l + [s], t, r);
    SizeAround(l, m, r);
    TotalSizeAppend(l, [s]);
    SizeOfOne(s);
  }

  lemma SizeOfOne(s: Segment)
    ensures TotalSize([s]) == s.Size()
  {
    assert [s][..0] == [];
  }

  lemma JoinedContiguous(segments: seq<Segment>, i: nat)
    requires Contiguous(segments) && i + 1 < |segments| && segments[i].sort == segments[i + 1].sort
    ensures var s, t := segments[i], segments[i + 1];
            var m := Segment(s.start, t.end, s.sort);
            && m == Merged(s, t) && s.start <= s.end == t.start <= t.end
            && Contiguous(segments[..i] + [m] + segments[i + 2..])
  {
    var m := Segment(segments[i].start, segments[i + 1].end, segments[i].sort);
    var joined := segments[..i] + [m] + segments[i + 2..];
    forall k | 0 <= k < |joined| - 1
      ensures joined[k].end == joined[k + 1].start
    {
      if k > i {
        assert segments[k + 1].end == segments[k + 2].start;
      } else if k == i {
        assert i + 2 < |segments| ==> segments[i + 1].end == segments[i + 1 + 1].start;
      } else {
        assert segments[k].end == segments[k + 1].start;
      }
    }
  }

  /** What comes of a block and a segment of another sort: the block, and what sticks out of it. */
  lemma PiecesForward(m: Segment, s: Segment)
    requires m.start < m.end && s.start <= s.end && s.start < m.end && m.start < s.end && s.sort != m.sort
    ensures Pieces(m, s, true) ==
              (if s.start < m.start then [Segment(s.start, m.start, s.sort)] else []) + [m]
              + (if m.end < s.end then [Segment(m.end, s.end, s.sort)] else [])
  {
    var cuts := Cuts(m, s, true);
    if s.start >= m.start {
      if |cuts| >= 2 && cuts[1].sort == m.sort {
        JoinFirstTwo(cuts);
        if |cuts| == 3 {
          assert cuts[2..] == [cuts[2]];
          var two := [Segment(m.start, cuts[1].end, m.sort), cuts[2]];
          if cuts[2].sort == m.sort {
            JoinFirstTwo(two);
          }
        }
      }
    } else if s.end < m.end {
      assert cuts == [Segment(s.start, m.start, s.sort), m, Segment(s.end, m.end, m.sort)];
      assert cuts[..1] + [Segment(m.start, m.end, m.sort)] + cuts[3..] == [cuts[0], m];
      assert Joined(cuts, 1) == Joined([cuts[0], m], 1);
    }
  }

  lemma JoinFirstTwo(segments: seq<Segment>)
    requires |segments| >= 2 && segments[0].sort == segments[1].sort
    ensures Joined(segments, 0) == Joined([Segment(segments[0].start, segments[1].end, segments[0].sort)] + segments[2..], 0)
  {
    assert segments[..0] + [Segment(segments[0].start, segments[1].end, segments[0].sort)]
        == [Segment(segments[0].start, segments[1].end, segments[0].sort)];
  }

  // ---- the loop that merges with what follows ----

  /** One step at position `pos`: the list, whether it counts as merged, and the new position. */
  function ForwardStep(list: seq<Segment>, pos: nat): (seq<Segment>, bool, nat)
    requires pos < |list|
  {
    if pos == |list| - 1 || Apart(list[pos], list[pos + 1]) then (list, false, pos)
    else if list[pos].sort == list[pos + 1].sort then
      (list[..pos] + [Merged(list[pos], list[pos + 1])] + list[pos + 2..], true, pos)
    else (list, true, pos + |Pieces(list[pos], list[pos + 1], true)| - 1)
  }

  /** Whether the loop of steps at `pos` is over after `k` rounds at most. */
  predicate LoopEnds(list: seq<Segment>, pos: nat, k: nat)
    decreases k
  {
    pos >= |list| || (k > 0 && var (list', merged, pos') := ForwardStep(list, pos); !merged || LoopEnds(list', pos', k - 1))
  }

  /** The first segment of another sort that the block, as it grows, overlaps is not inside it. */
  predicate MergingEnds(m: Segment, r: seq<Segment>)
    decreases |r|
  {
    if r == [] || Apart(m, r[0]) then true
    else if m.sort == r[0].sort then MergingEnds(Merged(m, r[0]), r[1..])
    else !(m.start <= r[0].start && r[0].end <= m.end)
  }

  /** What merging makes of the count besides what it makes of the sizes. */
  function Miscounted(m: Segment, r: seq<Segment>): int
    decreases |r|
  {
    if r == [] || Apart(m, r[0]) then 0
    else if m.sort == r[0].sort then Miscounted(Merged(m, r[0]), r[1..])
    else TotalSize(Pieces(m, r[0], true)) - m.Size() - r[0].Size()
  }

  /** The loop is over after finitely many rounds exactly if it is not stuck at a segment inside the block. */
  lemma {:induction false} LoopEndsWhen(l: seq<Segment>, m: Segment, r: seq<Segment>, a: nat)
    requires Forward(l, m, r, a)
    ensures (exists k: nat :: LoopEnds(Around(l, m, r), |l|, k)) <==> MergingEnds(m, r)
    decreases |r|
  {
    hide Forward, LoopEnds, Around;
    var list, pos := Around(l, m, r), |l|;
    AroundParts(l, m, r);
    ForwardParts(l, m, r, a);
    if r == [] || Apart(m, r[0]) {
      LoopEndsIs(list, pos, 1);
    } else if m.sort == r[0].sort {
      var list' := Around(l, Merged(m, r[0]), r[1..]);
      assert ForwardStep(list, pos) == (list', true, pos);
      MergeForward(l, m, r, a);
      LoopEndsWhen(l, Merged(m, r[0]), r[1..], a);
      if MergingEnds(m, r) {
        var k: nat :| LoopEnds(list', pos, k);
        LoopEndsIs(list, pos, k + 1);
      }
      forall k: nat | LoopEnds(list, pos, k)
        ensures MergingEnds(m, r)
      {
        LoopEndsIs(list, pos, k);
        assert LoopEnds(list', pos, k - 1);
      }
    } else {
      PiecesForward(m, r[0]);
      if m.start <= r[0].start && r[0].end <= m.end {
        assert Pieces(m, r[0], true) == [m];
        forall k: nat
          ensures !LoopEnds(list, pos, k)
        {
          StuckInPlace(list, pos, k);
        }
      } else {
        EndsAfterClash(l, m, r, a);
      }
    }
  }

  lemma ForwardParts(l: seq<Segment>, m: Segment, r: seq<Segment>, a: nat)
    requires Forward(l, m, r, a)
    ensures m.start <= a < m.end && Ordered(r)
    ensures r != [] ==> r[0].start <= r[0].end && m.start < r[0].end
  {
    OrderedParts(l, r);
  }

  lemma LoopEndsIs(list: seq<Segment>, pos: nat, k: nat)
    requires pos < |list|
    ensures k == 0 ==> !LoopEnds(list, pos, k)
    ensures k > 0 ==>
              var (list', merged, pos') := ForwardStep(list, pos);
              LoopEnds(list, pos, k) <==> !merged || LoopEnds(list', pos', k - 1)
  {
  }

  /** At a segment inside the block, a round changes neither the list nor the position. */
  lemma {:induction false} StuckInPlace(list: seq<Segment>, pos: nat, k: nat)
    requires pos < |list| && ForwardStep(list, pos) == (list, true, pos)
    ensures !LoopEnds(list, pos, k)
    decreases k
  {
    if k > 0 {
      StuckInPlace(list, pos, k - 1);
    }
  }

  /** Past a segment that sticks out of the block, the loop finds two known segments apart. */
  lemma EndsAfterClash(l: seq<Segment>, m: Segment, r: seq<Segment>, a: nat)
    requires Forward(l, m, r, a) && r != [] && !Apart(m, r[0]) && m.sort != r[0].sort
    requires !(m.start <= r[0].start && r[0].end <= m.end)
    ensures LoopEnds(Around(l, m, r), |l|, 2)
  {
    hide Forward, Ordered;
    var list, pos := Around(l, m, r), |l|;
    AroundParts(l, m, r);
    ForwardParts(l, m, r, a);
    PiecesForward(m, r[0]);
    var (list', merged, pos') := ForwardStep(list, pos);
    assert list' == list && merged && pos < pos' <= pos + 2;
    if pos' < |list| - 1 {
      KnownApart(l, m, r, pos');
    }
    assert LoopEnds(list, pos', 1);
  }

  /** Behind the block, neighbours are neighbours of the list it has been put into. */
  lemma KnownApart(l: seq<Segment>, m: Segment, r: seq<Segment>, pos: nat)
    requires Ordered(r) && |l| < pos < |l| + |r|
    ensures |Around(l, m, r)| == |l| + 1 + |r| && Apart(Around(l, m, r)[pos], Around(l, m, r)[pos + 1])
  {
    assert Around(l, m, r)[pos] == r[pos - |l| - 1] && Around(l, m, r)[pos + 1] == r[pos - |l|];
  }

  /** With one sort only there is never anything in the way. */
  lemma OneSortEnds(list: seq<Segment>, a: nat, b: nat, sort: string)
    requires Ordered(list) && a < b && OfSort(list, sort)
    ensures NoClash(list, a, b, sort) && MergingEnds(Segment(a, b, sort), From(list, a))
  {
    AllOfSort(Segment(a, b, sort), From(list, a));
    FromIsPart(list, a);
  }

  lemma {:induction false} AllOfSort(m: Segment, r: seq<Segment>)
    ensures (forall i :: 0 <= i < |r| ==> r[i].sort == m.sort) ==> MergingEnds(m, r)
    decreases |r|
  {
    if r != [] {
      AllOfSort(Merged(m, r[0]), r[1..]);
      assert forall i :: 0 < i < |r| ==> r[i] == r[1..][i - 1];
    }
  }

  lemma {:induction false} FromIsPart(list: seq<Segment>, a: nat)
    ensures forall s :: s in From(list, a) ==> s in list
    decreases |list|
  {
    if list != [] {
      FromIsPart(list[1..], a);
    }
  }

  /** For instance, occupying ten addresses around two of another sort goes on for ever. */
  lemma OccupyingAroundRepeats(k: nat)
    ensures var list := [Segment(0, 10, "code"), Segment(2, 4, "data")];
            ForwardStep(list, 0) == (list, true, 0) && !LoopEnds(list, 0, k)
  {
    var m, s := Segment(0, 10, "code"), Segment(2, 4, "data");
    assert "code" != "data" by {
      assert "code"[0] != "data"[0];
    }
    PiecesForward(m, s);
    StuckInPlace([m, s], 0, k);
  }

  /** The segments that end after the address. */
  function From(list: seq<Segment>, a: nat): seq<Segment> {
    if list == [] || list[0].end > a then list else From(list[1..], a)
  }

  lemma {:induction false} FromIs(list: seq<Segment>, idx: nat, a: nat)
    requires idx <= |list| && (forall i :: 0 <= i < idx ==> list[i].end <= a)
    requires forall i :: idx <= i < |list| ==> list[i].end > a
    ensures From(list, a) == list[idx..]
    decreases |list|
  {
    if idx > 0 {
      FromIs(list[1..], idx - 1, a);
      assert list[1..][idx - 1..] == list[idx..];
    }
  }

  /** Without a segment of another sort in the way merging ends, and nothing is miscounted. */
  lemma {:induction false} ClearEnds(l: seq<Segment>, m: Segment, r: seq<Segment>, a: nat)
    requires Forward(l, m, r, a) && Clear(m, r)
    ensures MergingEnds(m, r) && Miscounted(m, r) == 0
    decreases |r|
  {
    ForwardParts(l, m, r, a);
    if r != [] && !Apart(m, r[0]) {
      assert m.sort == r[0].sort;
      MergeForward(l, m, r, a);
      ClearMerged(l, m, r, a);
      ClearEnds(l, Merged(m, r[0]), r[1..], a);
    }
  }

  // ---- which segments there are ----

  predicate OfSort(list: seq<Segment>, sort: string) {
    forall i :: 0 <= i < |list| ==> list[i].sort == sort
  }

  predicate NoEmpty(list: seq<Segment>) {
    forall i :: 0 <= i < |list| ==> list[i].start < list[i].end
  }

  ghost predicate CoversOne(before: seq<Segment>, s: Segment) {
    exists o :: o in before && o.sort == s.sort && s.start <= o.start && o.end <= s.end
  }

  /** Segments have only grown: each has come out of one of its sort. */
  ghost predicate Grown(before: seq<Segment>, after: seq<Segment>) {
    forall s :: s in after ==> CoversOne(before, s)
  }

  ghost predicate PartOfOne(before: seq<Segment>, s: Segment) {
    exists o :: o in before && o.sort == s.sort && o.start <= s.start && s.end <= o.end
  }

  /** Segments have only shrunk: each is what is left of one of its sort. */
  ghost predicate Shrunken(before: seq<Segment>, after: seq<Segment>) {
    forall s :: s in after ==> PartOfOne(before, s)
  }

  lemma GrownTwice(l: seq<Segment>, m: seq<Segment>, r: seq<Segment>)
    requires Grown(l, m) && Grown(m, r)
    ensures Grown(l, r)
  {
    forall s | s in r
      ensures CoversOne(l, s)
    {
      assert CoversOne(m, s);
      var o :| o in m && o.sort == s.sort && s.start <= o.start && o.end <= s.end;
      assert CoversOne(l, o);
    }
  }

  lemma ShrunkenTwice(l: seq<Segment>, m: seq<Segment>, r: seq<Segment>)
    requires Shrunken(l, m) && Shrunken(m, r)
    ensures Shrunken(l, r)
  {
    forall s | s in r
      ensures PartOfOne(l, s)
    {
      assert PartOfOne(m, s);
      var o :| o in m && o.sort == s.sort && o.start <= s.start && s.end <= o.end;
      assert PartOfOne(l, o);
    }
  }

  lemma SameSegments(list: seq<Segment>)
    ensures Grown(list, list) && Shrunken(list, list)
  {
    forall s | s in list
      ensures CoversOne(list, s) && PartOfOne(list, s)
    {
    }
  }

  /** Growing and shrinking change no sort, and growing leaves nothing empty. */
  lemma SortsStay(before: seq<Segment>, after: seq<Segment>, sort: string)
    requires Grown(before, after) || Shrunken(before, after)
    requires OfSort(before, sort)
    ensures OfSort(after, sort)
  {
    forall i | 0 <= i < |after|
      ensures after[i].sort == sort
    {
      assert CoversOne(before, after[i]) || PartOfOne(before, after[i]);
    }
  }

  lemma GrownIsNotEmpty(before: seq<Segment>, after: seq<Segment>)
    requires Grown(before, after) && NoEmpty(before)
    ensures NoEmpty(after)
  {
    forall i | 0 <= i < |after|
      ensures after[i].start < after[i].end
    {
      assert CoversOne(before, after[i]);
    }
  }

  lemma MergedGrows(l: seq<Segment>, m: Segment, r: seq<Segment>)
    requires r != [] && m.sort == r[0].sort
    ensures Grown(Around(l, m, r), Around(l, Merged(m, r[0]), r[1..]))
  {
    var before := Around(l, m, r);
    AroundIs(l, m, r);
    assert m in before && forall s :: s in l || s in r ==> s in before;
    forall s | s in Around(l, Merged(m, r[0]), r[1..])
      ensures CoversOne(before, s)
    {
      if s == Merged(m, r[0]) {
        assert CoversOne(before, s);
      } else {
        assert s in l || s in r;
      }
    }
  }

  lemma MergedWithBefore(l: seq<Segment>, m: Segment, r: seq<Segment>)
    requires l != [] && l[|l| - 1].sort == m.sort
    ensures Grown(Around(l, m, r), Around(l[..|l| - 1], Merged(l[|l| - 1], m), r))
  {
    var n := |l| - 1;
    assert l == l[..n] + [l[n]];
    assert Around(l, m, r) == Around(l[..n], l[n], [m] + r);
    MergedGrows(l[..n], l[n], [m] + r);
  }

  lemma InsertedGrows(list: seq<Segment>, idx: nat, m: Segment)
    requires idx <= |list|
    ensures Grown(list + [m], list[..idx] + [m] + list[idx..])
  {
    forall s | s in list[..idx] + [m] + list[idx..]
      ensures CoversOne(list + [m], s)
    {
      assert s in list || s == m;
      assert s in list + [m];
    }
  }

  class SegmentList {
    var list: seq<Segment>
    var bytesOccupied: int

    ghost predicate Valid()
      reads this
    {
      Ordered(list)
    }

    constructor ()
      ensures Valid() && list == [] && bytesOccupied == 0
    {
      list, bytesOccupied := [], 0;
    }

    /**
     Two neighbours are merged if they touch and are of one sort. If they overlap and are of
     different sorts, the pieces that they should be cut into are counted, but not put into the list.
     */
    method InsertAndMergeCore(pos: nat, forward: bool) returns (merged: bool, newPos: nat, bytesChanged: int)
      requires pos < |list|
      modifies this`list
      ensures var p := if forward then pos else pos - 1;
              if !(0 <= p < |old(list)| - 1) || Apart(old(list)[p], old(list)[p + 1]) then
                !merged && newPos == pos && bytesChanged == 0 && list == old(list)
              else if old(list)[p].sort == old(list)[p + 1].sort then
                && merged && newPos == p
                && list == old(list)[..p] + [Merged(old(list)[p], old(list)[p + 1])] + old(list)[p + 2..]
                && bytesChanged == TotalSize(list) - TotalSize(old(list))
              else
                var pieces := Pieces(old(list)[p], old(list)[p + 1], forward);
                && merged && newPos == (if forward then p + |pieces| - 1 else p) && list == old(list)
                && bytesChanged == TotalSize(pieces) - old(list)[p].Size() - old(list)[p + 1].Size()
    {
      if (forward && pos == |list| - 1) || (!forward && pos == 0) {
        return false, pos, 0;
      }
      var previousPos := if forward then pos else pos - 1;
      var previous := list[previousPos];
      var segment := list[previousPos + 1];
      merged, newPos, bytesChanged := false, pos, 0;
      if segment.start <= previous.end {
        if segment.sort == previous.sort {
          var newSegment := Segment(Min(previous.start, segment.start), Max(previous.end, segment.end), segment.sort);
          MergedSize(list, previousPos);
          list := list[previousPos + 1 := newSegment];
          list := list[..previousPos] + list[previousPos + 1..];
          bytesChanged := -(segment.Size() + previous.Size() - newSegment.Size());
          merged, newPos := true, previousPos;
        } else if segment.start != previous.end {
          var newSegments := JoinSameSorts(Cuts(previous, segment, forward));
          bytesChanged := TotalSize(newSegments) - (previous.Size() + segment.Size());
          merged := true;
          newPos := if forward then previousPos + |newSegments| - 1 else previousPos;
        }
      }
    }

    /** Afterwards no two neighbours are of one sort, and what was held without gaps still is. */
    method JoinSameSorts(segments: seq<Segment>) returns (joined: seq<Segment>)
      ensures joined == Joined(segments, 0)
      ensures forall i :: 0 <= i < |joined| - 1 ==> joined[i].sort != joined[i + 1].sort
      ensures Contiguous(segments) ==>
                && Contiguous(joined) && TotalSize(joined) == TotalSize(segments)
                && (forall x: int, s: string :: Holds(joined, x, s) <==> Holds(segments, x, s))
    {
      hide Holds, TotalSize, Contiguous;
      joined := segments;
      var i := 0;
      while |joined| > 1 && i < |joined| - 1
        invariant Joined(joined, i) == Joined(segments, 0)
        invariant 0 <= i && (joined != [] ==> i < |joined|) && (joined == [] ==> i == 0)
        invariant forall k :: 0 <= k < i ==> joined[k].sort != joined[k + 1].sort
        invariant Contiguous(segments) ==>
                    && Contiguous(joined) && TotalSize(joined) == TotalSize(segments)
                    && (forall x: int, s: string :: Holds(joined, x, s) <==> Holds(segments, x, s))
        decreases |joined| - i
      {
        if joined[i].sort == joined[i + 1].sort {
          if Contiguous(joined) {
            JoinStep(joined, i);
          }
          joined := joined[..i] + [Segment(joined[i].start, joined[i + 1].end, joined[i].sort)] + joined[i + 2..];
        } else {
          i := i + 1;
        }
      }
    }

    /**
     Merges the block at `pos` with what follows it. If that comes to an end, what is held is as before,
     and the block and what follows are in order exactly if there was no segment of another sort in the way.
     */
    method MergeForwards(idx: nat, ghost l: seq<Segment>, ghost m0: Segment, ghost r0: seq<Segment>, ghost a: nat)
      returns (ghost m: Segment, ghost r: seq<Segment>)
      requires idx == |l| && list == Around(l, m0, r0) && Forward(l, m0, r0, a) && MergingEnds(m0, r0)
      modifies this`list, this`bytesOccupied
      ensures list == Around(l, m, r) && Backward(l, m) && m.sort == m0.sort
      ensures Ordered([m] + r) <==> Clear(m0, r0)
      ensures forall x: int, s: string :: Holds(list, x, s) <==> Holds(old(list), x, s)
      ensures bytesOccupied - TotalSize(list) == old(bytesOccupied - TotalSize(list)) + Miscounted(m0, r0)
      ensures Grown(old(list), list)
    {
      hide Forward, Holds, Around, Ordered, Clear, TotalSize, Pieces, Grown;
      m, r := m0, r0;
      SameSegments(list);
      AroundParts(l, m0, r0);
      var pos := idx;
      ghost var clashed := false;
      while pos < |list|
        invariant |l| <= pos <= |list| == |l| + 1 + |r| && list == Around(l, m, r) && Forward(l, m, r, a) && m.sort == m0.sort
        invariant clashed <==> pos > |l|
        invariant !clashed ==> MergingEnds(m, r)
        invariant clashed ==> r != [] && !Apart(m, r[0]) && r[0].sort != m.sort
        invariant Clear(m, r) <==> Clear(m0, r0)
        invariant Grown(old(list), list)
        invariant forall x: int, s: string :: Holds(list, x, s) <==> Holds(old(list), x, s)
        invariant bytesOccupied - TotalSize(list) + (if clashed then 0 else Miscounted(m, r))
               == old(bytesOccupied - TotalSize(list)) + Miscounted(m0, r0)
        decreases |list| - pos
      {
        AroundParts(l, m, r);
        ForwardParts(l, m, r, a);
        if clashed && pos < |list| - 1 {
          KnownApart(l, m, r, pos);
        }
        var merged, p, bytesChange := InsertAndMergeCore(pos, true);
        pos := p;
        if !merged {
          break;
        }
        if m.sort == r[0].sort {
          MergeForward(l, m, r, a);
          ClearMerged(l, m, r, a);
          MergedGrows(l, m, r);
          GrownTwice(old(list), Around(l, m, r), Around(l, Merged(m, r[0]), r[1..]));
          m, r := Merged(m, r[0]), r[1..];
          AroundParts(l, m, r);
        } else {
          PiecesForward(m, r[0]);
          clashed := true;
        }
        bytesOccupied := bytesOccupied + bytesChange;
      }
      AroundParts(l, m, r);
      ClearFromFirst(l, m, r, a);
      ForwardDone(l, m, r, a);
    }

    /** Merges the block at `pos` with what comes before it. */
    method MergeBackwards(idx: nat, ghost l0: seq<Segment>, ghost m0: Segment, ghost r: seq<Segment>)
      requires idx == |l0| && list == Around(l0, m0, r) && Backward(l0, m0)
      modifies this`list, this`bytesOccupied
      ensures Ordered(list) <==> Ordered([m0] + r)
      ensures forall x: int, s: string :: Holds(list, x, s) <==> Holds(old(list), x, s)
      ensures bytesOccupied - TotalSize(list) == old(bytesOccupied - TotalSize(list))
      ensures Grown(old(list), list)
    {
      hide Backward, Holds, Around, Ordered, Grown;
      ghost var l, m := l0, m0;
      SameSegments(list);
      var pos := idx;
      while pos > 0
        invariant pos == |l| && list == Around(l, m, r) && Backward(l, m)
        invariant Ordered([m] + r) <==> Ordered([m0] + r)
        invariant Grown(old(list), list)
        invariant forall x: int, s: string :: Holds(list, x, s) <==> Holds(old(list), x, s)
        invariant bytesOccupied - TotalSize(list) == old(bytesOccupied - TotalSize(list))
        decreases pos
      {
        AroundBefore(l, m, r);
        TouchesAtMost(l, m);
        var merged, p, bytesChange := InsertAndMergeCore(pos, false);
        pos := p;
        if !merged {
          break;
        }
        MergeBackward(l, m, r);
        AroundBefore(l, m, r);
        MergedWithBefore(l, m, r);
        GrownTwice(old(list), Around(l, m, r), Around(l[..|l| - 1], Merged(l[|l| - 1], m), r));
        l, m := l[..|l| - 1], Merged(l[|l| - 1], m);
        bytesOccupied := bytesOccupied + bytesChange;
      }
      BackwardDone(l, m, r);
    }

    method InsertAndMerge(address: nat, size: nat, sort: string, idx: nat)
      requires Valid() && size > 0 && idx <= |list|
      requires forall i :: 0 <= i < idx ==> list[i].end <= address
      requires forall i :: idx <= i < |list| ==> list[i].end > address
      requires MergingEnds(Segment(address, address + size, sort), list[idx..])
      modifies this
      ensures HeldAlso(old(list), list, address, address + size, sort)
      ensures Valid() <==> NoClash(old(list), address, address + size, sort)
      ensures bytesOccupied - TotalSize(list) ==
              old(bytesOccupied - TotalSize(list)) + Miscounted(Segment(address, address + size, sort), old(list[idx..]))
      ensures Valid() ==> Miscounted(Segment(address, address + size, sort), old(list[idx..])) == 0
      ensures Grown(old(list) + [Segment(address, address + size, sort)], list)
    {
      hide Grown, Forward, Clear, Holds, Around, Ordered, NoClash, MergingEnds, Miscounted, TotalSize, HeldAlso;
      if idx > 0 {
        SegmentOk(list, idx - 1);
        if address + size <= list[idx - 1].start {
          // "BUG FOUND": the segments before the position end at the address or before it
          assert false;
        }
      }
      ghost var before, m := list, Segment(address, address + size, sort);
      BlockInserted(list, idx, m);
      list := list[..idx] + [Segment(address, address + size, sort)] + list[idx..];
      ghost var inserted := list;
      bytesOccupied := bytesOccupied + size;
      ghost var m', r' := MergeForwards(idx, before[..idx], m, before[idx..], address);
      ghost var between := list;
      MergeBackwards(idx, before[..idx], m', r');
      InsertedGrows(before, idx, m);
      GrownTwice(before + [m], inserted, between);
      GrownTwice(before + [m], between, list);
      StillHeld(before, inserted, list, address, address + size, sort);
    }

    /** The first segment that ends after the address. */
    method Search(addr: nat) returns (start: nat)
      requires Valid()
      ensures start <= |list|
      ensures forall i :: 0 <= i < start ==> list[i].end <= addr
      ensures forall i :: start <= i < |list| ==> list[i].end > addr
    {
      OrderedAll(list);
      start := 0;
      var end := |list|;
      while start != end
        invariant start <= end <= |list|
        invariant forall i :: 0 <= i < start ==> list[i].end <= addr
        invariant forall i :: end <= i < |list| ==> list[i].end > addr
        decreases end - start
      {
        var mid := start + (end - start) / 2;
        var segment := list[mid];
        if addr < segment.start {
          end := mid;
        } else if addr >= segment.end {
          start := mid + 1;
        } else {
          start := mid;
          break;
        }
      }
    }

    /** Takes a piece out of one segment. */
    method BreakSegment(idx: nat, address: nat, size: nat)
      requires idx < |list| && list[idx].start <= address && address + size <= list[idx].end
      modifies this`list
      ensures list == old(list)[..idx] + Remains(old(list)[idx], address, address + size) + old(list)[idx + 1..]
    {
      var segment := list[idx];
      var seg0, seg1 := segment.(end := address), segment.(start := address + size);
      list := list[..idx] + list[idx + 1..];
      if seg1.Size() > 0 {
        list := list[..idx] + [seg1] + list[idx..];
      }
      if seg0.Size() > 0 {
        list := list[..idx] + [seg0] + list[idx..];
      }
    }

    /** Lets one segment start later, or removes it if nothing of it would be left. */
    method MoveStart(idx: nat, start: nat)
      requires idx < |list| && start <= list[idx].end
      modifies this`list
      ensures var seg := old(list)[idx].(start := start);
              list == old(list)[..idx] + (if seg.Size() == 0 then [] else [seg]) + old(list)[idx + 1..]
    {
      list := list[idx := list[idx].(start := start)];
      if list[idx].Size() == 0 {
        list := list[..idx] + list[idx + 1..];
      }
    }

    /** Takes `[initAddress, initAddress + initSize)` out of the segments from position `initIdx` on. */
    method Remove(initAddress: nat, initSize: nat, initIdx: nat)
      requires initSize > 0 && Removing(list, initIdx, initAddress, initAddress, initAddress + initSize)
      modifies this`list
      ensures Valid() && Releasing(old(list), list, initAddress, initAddress + initSize)
      ensures Released(list, initAddress, initAddress + initSize)
      ensures Shrunken(old(list), list)
      ensures old(NoEmpty(list)) ==> (NoEmpty(list) <==> !LeavesEmpty(old(list), initAddress, initAddress + initSize))
    {
      hide Ordered, Releasing, Released, Shrunken, Removing, Removal, RemovingFrom, NoEmpty, LeavesEmpty;
      ghost var a, b := initAddress, initAddress + initSize;
      var address: nat, size: nat, idx: nat := initAddress, initSize, initIdx;
      ghost var j := idx;
      RemovingAt(list, idx, a, address, b);
      NothingRemoved(list, idx, a, b);
      while idx < |list|
        invariant address + size == b && Removing(list, idx, a, address, b)
        invariant Removal(old(list), list, idx, j, a, address, b)
        decreases |list|, |list| - idx
      {
        var segment := list[idx];
        RemovingAt(list, idx, a, address, b);
        if segment.start <= address {
          if address < segment.end && segment.end < address + size {
            Shrunk(list, idx, a, address, b);
            ShrunkRemoval(old(list), list, idx, j, a, address, b);
            list := list[idx := segment.(end := address)];
            var newAddress := segment.start + list[idx].Size();
            size := address + size - newAddress;
            address := newAddress;
            RemovingAt(list, idx + 1, a, address, b);
            ghost var was := idx;
            idx := Search(address);
            SamePlace(list, was + 1, idx, address);
            j := j + 1;
          } else if address < segment.end && address + size <= segment.end {
            Broken(list, idx, a, address, b);
            BrokenRemoval(old(list), list, idx, j, a, address, b);
            BreakSegment(idx, address, size);
            return;
          } else {
            // "Unreachable reached": the segment ends after the address
            assert false;
          }
        } else {
          if address + size <= segment.start {
            NothingLeft(list, idx, a, address, b);
            EndOfRemoval(old(list), list, idx, j, a, address, b);
            return;
          } else if segment.start < address + size && address + size <= segment.end {
            Beheaded(list, idx, a, address, b);
            BeheadedRemoval(old(list), list, idx, j, a, address, b);
            MoveStart(idx, address + size);
            return;
          } else if address + size > segment.end {
            TakenOut(list, idx, a, address, b);
            TakenOutRemoval(old(list), list, idx, j, a, address, b);
            list := list[..idx] + list[idx + 1..];
            RemovingFromIsOrdered(list, idx, a, segment.end, b);
            var newAddress := segment.end;
            size := address + size - newAddress;
            address := newAddress;
            ghost var was := idx;
            idx := Search(address);
            PositionFound(list, was, a, address, b, idx);
            j := j + 1;
            SamePosition(old(list), list, was, idx, j, a, address, b);
          } else {
            // "Unreachable reached"
            assert false;
          }
        }
      }
      NothingLeft(list, idx, a, address, b);
      EndOfRemoval(old(list), list, idx, j, a, address, b);
    }

    /** The sizes that `bytesOccupied` adds up are not told of what is released. */
    method Release(address: nat, size: int)
      requires Valid()
      modifies this`list
      ensures Valid()
      ensures size <= 0 ==> list == old(list)
      ensures size > 0 ==> Releasing(old(list), list, address, address + size) && Released(list, address, address + size)
      ensures Shrunken(old(list), list)
      ensures size > 0 && old(NoEmpty(list)) ==> (NoEmpty(list) <==> !LeavesEmpty(old(list), address, address + size))
    {
      hide LeavesEmpty, Shrunken, NoEmpty;
      SameSegments(list);
      if size <= 0 {
        return;
      }
      NothingReleased(list, address, address + size);
      if |list| == 0 {
        NothingEmptied(list, address, address + size);
        return;
      }
      var idx := Search(address);
      if idx < |list| {
        Remove(address, size, idx);
      } else {
        NothingEmptied(list, address, address + size);
      }
    }

    method IsOccupiedAt(address: nat) returns (occupied: bool)
      requires Valid()
      ensures occupied <==> IsOccupied(list, address)
    {
      var idx := Search(address);
      OrderedAll(list);
      if |list| <= idx {
        return false;
      }
      if list[idx].start <= address && address < list[idx].end {
        return true;
      }
      if idx > 0 && address < list[idx - 1].end {
        // the segments before the position end at the address or before it
        assert false;
      }
      return false;
    }

    method OccupiedBySort(address: nat) returns (sort: Option<string>)
      requires Valid()
      ensures sort.None? <==> !IsOccupied(list, address)
      ensures forall s :: sort == Some(s) <==> Holds(list, address, s)
    {
      var idx := Search(address);
      OrderedAll(list);
      if |list| <= idx {
        return None;
      }
      if list[idx].start <= address && address < list[idx].end {
        return Some(list[idx].sort);
      }
      if idx > 0 && address < list[idx - 1].end {
        assert false;
      }
      return None;
    }

    /** The first address from the given one on that no segment has. */
    method NextFreePos(address: nat) returns (free: nat)
      requires Valid()
      ensures address <= free && !IsOccupied(list, free)
      ensures forall a :: address <= a < free ==> IsOccupied(list, a)
    {
      var idx := Search(address);
      OrderedAll(list);
      if idx < |list| && list[idx].start <= address && address < list[idx].end {
        var i := idx;
        while i + 1 < |list| && list[i].end == list[i + 1].start
          invariant idx <= i < |list| && address < list[i].end
          invariant forall a :: address <= a < list[i].end ==> IsOccupied(list, a)
        {
          SegmentOk(list, i + 1);
          forall a | list[i].end <= a < list[i + 1].end
            ensures IsOccupied(list, a)
          {
            assert list[i + 1].Has(a);
          }
          i := i + 1;
        }
        EndIsFree(list, i);
        return list[i].end;
      }
      return address;
    }

    /** Whether occupying the block comes to an end. */
    ghost predicate OccupyEnds(address: nat, size: int, sort: string)
      reads this
    {
      size > 0 ==> MergingEnds(Segment(address, address + size, sort), From(list, address))
    }

    /**
     If it comes to an end, what is held is what was held and the block; the list is in order exactly
     if no segment of another sort reached into the block, and then the block is held in its sort only.
     */
    method Occupy(address: nat, size: int, sort: string)
      requires Valid() && OccupyEnds(address, size, sort)
      modifies this
      ensures size <= 0 ==> list == old(list) && bytesOccupied == old(bytesOccupied)
      ensures size > 0 ==> HeldAlso(old(list), list, address, address + size, sort)
      ensures Valid() <==> size <= 0 || NoClash(old(list), address, address + size, sort)
      ensures Valid() && size > 0 ==> Occupied(old(list), list, address, address + size, sort)
      ensures Valid() ==> bytesOccupied - TotalSize(list) == old(bytesOccupied - TotalSize(list))
      ensures Valid() && old(bytesOccupied == |Addresses(list)|) ==> bytesOccupied == |Addresses(list)|
      ensures size > 0 ==> Grown(old(list) + [Segment(address, address + size, sort)], list)
    {
      hide Grown, Holds, HeldAlso, Occupied, Ordered, NoClash, MergingEnds, TotalSize, Miscounted, Addresses;
      SizeIsCardinality(list);
      if size <= 0 {
        return;
      }
      ghost var before := list;
      if |list| == 0 {
        FirstBlock(Segment(address, address + size, sort));
        list := [Segment(address, address + size, sort)];
        bytesOccupied := bytesOccupied + size;
      } else {
        var idx := Search(address);
        FromIs(list, idx, address);
        InsertAndMerge(address, size, sort, idx);
      }
      if Ordered(list) {
        SizeIsCardinality(list);
        HeldIsOccupied(before, list, address, address + size, sort);
      }
    }
  }

  lemma FirstBlock(m: Segment)
    requires m.start < m.end
    ensures Ordered([m]) && NoClash([], m.start, m.end, m.sort) && HeldAlso([], [m], m.start, m.end, m.sort)
    ensures TotalSize([m]) == m.Size() && TotalSize([]) == 0 && Grown([] + [m], [m])
  {
    hide HeldAlso, Grown, TotalSize;
    FirstHolds(m);
    FirstGrows(m);
    SizeOfOne(m);
    EmptySize();
  }

  lemma FirstHolds(m: Segment)
    ensures HeldAlso([], [m], m.start, m.end, m.sort)
  {
    hide HeldAlso;
    var none: seq<Segment> := [];
    InsertedHolds(none, m, none);
    assert none + none == none && Around(none, m, none) == [m];
  }

  lemma FirstGrows(m: Segment)
    ensures Grown([] + [m], [m])
  {
    hide Grown;
    var none: seq<Segment> := [];
    assert none + [m] == [m];
    SameSegments([m]);
  }

  // ---- releasing ----

  /** Some of the addresses in `[a, b)` are no longer held, and nothing else has changed. */
  ghost predicate Releasing(before: seq<Segment>, after: seq<Segment>, a: nat, b: nat) {
    && (forall x: int, s: string :: Holds(after, x, s) ==> Holds(before, x, s))
    && (forall x: int, s: string :: Holds(before, x, s) && !(a <= x < b) ==> Holds(after, x, s))
  }

  /** What is left of a segment when `[a, b)` is taken out of it. */
  function Remains(seg: Segment, a: nat, b: nat): seq<Segment> {
    (if seg.start < a then [seg.(end := a)] else []) + (if b < seg.end then [seg.(start := b)] else [])
  }

  lemma SegmentReplaced(pre: seq<Segment>, seg: Segment, post: seq<Segment>, mid: seq<Segment>)
    requires Ordered(pre + [seg] + post) && Ordered(mid)
    requires mid != [] && pre != [] ==> seg.start <= mid[0].start && mid[0].sort == seg.sort
    requires mid != [] && post != [] ==> mid[|mid| - 1].end <= seg.end && mid[|mid| - 1].sort == seg.sort
    requires mid == [] && pre != [] ==> pre[|pre| - 1].end < seg.end
    ensures Ordered(pre + mid + post)
  {
    OrderedParts(pre + [seg], post);
    OrderedParts(pre, [seg]);
    assert (pre + [seg])[|pre|] == seg;
    OrderedJoin(pre, mid);
    assert mid == [] ==> pre + mid == pre;
    assert mid != [] ==> (pre + mid)[|pre + mid| - 1] == mid[|mid| - 1];
    OrderedJoin(pre + mid, post);
  }

  lemma ReplacedHolds(pre: seq<Segment>, seg: Segment, post: seq<Segment>, mid: seq<Segment>, a: nat, b: nat)
    requires forall x: int, s: string :: Holds(mid, x, s) ==> seg.Has(x) && seg.sort == s
    requires forall x: int :: seg.Has(x) && !(a <= x < b) ==> Holds(mid, x, seg.sort)
    ensures Releasing(pre + [seg] + post, pre + mid + post, a, b)
  {
    forall x: int, s: string
      ensures Holds(pre + [seg] + post, x, s) <==> Holds(pre, x, s) || (seg.Has(x) && seg.sort == s) || Holds(post, x, s)
      ensures Holds(pre + mid + post, x, s) <==> Holds(pre, x, s) || Holds(mid, x, s) || Holds(post, x, s)
    {
      HoldsAround(pre, seg, post, x, s);
      HoldsJoin(pre + mid, post, x, s);
      HoldsJoin(pre, mid, x, s);
    }
  }

  lemma RemainsHold(seg: Segment, a: nat, b: nat)
    requires seg.start <= a < b <= seg.end
    ensures forall x: int, s: string :: Holds(Remains(seg, a, b), x, s) <==> seg.Has(x) && !(a <= x < b) && seg.sort == s
    ensures Ordered(Remains(seg, a, b))
  {
    var l := if seg.start < a then [seg.(end := a)] else [];
    var r := if b < seg.end then [seg.(start := b)] else [];
    forall x: int, s: string
      ensures Holds(Remains(seg, a, b), x, s) <==> seg.Has(x) && !(a <= x < b) && seg.sort == s
    {
      HoldsJoin(l, r, x, s);
      HoldsOne(seg.(end := a), x, s);
      HoldsOne(seg.(start := b), x, s);
    }
  }

  lemma OneHolds(seg: Segment)
    ensures forall x: int, s: string :: Holds([seg], x, s) <==> seg.Has(x) && s == seg.sort
  {
    forall x: int, s: string
      ensures Holds([seg], x, s) <==> seg.Has(x) && s == seg.sort
    {
      HoldsOne(seg, x, s);
    }
  }

  lemma ReleasingTwice(l: seq<Segment>, m: seq<Segment>, r: seq<Segment>, a: nat, b: nat)
    requires Releasing(l, m, a, b) && Releasing(m, r, a, b)
    ensures Releasing(l, r, a, b)
  {
  }

  /** What is known while `[a, b)` is being released: up to `idx` nothing in it is held. */
  ghost predicate Removing(list: seq<Segment>, idx: nat, a: nat, address: nat, b: nat) {
    && Ordered(list) && idx <= |list| && a <= address < b
    && (forall i :: 0 <= i < idx ==> list[i].end <= address)
    && (forall i :: idx <= i < |list| ==> list[i].end > address)
    && (forall i :: 0 <= i < idx ==> list[i].end <= a || list[i].start == list[i].end)
    && (address > a ==> forall i :: idx <= i < |list| ==> address <= list[i].start)
  }

  /** Nothing in `[a, b)` is held any more. */
  ghost predicate Released(list: seq<Segment>, a: nat, b: nat) {
    forall i, x :: 0 <= i < |list| && a <= x < b ==> !list[i].Has(x)
  }

  lemma NothingReleased(list: seq<Segment>, a: nat, b: nat)
    ensures Releasing(list, list, a, b)
  {
  }

  lemma SegmentOk(list: seq<Segment>, idx: nat)
    requires Ordered(list) && idx < |list|
    ensures list[idx].start <= list[idx].end
  {
  }

  lemma RemovingAt(list: seq<Segment>, idx: nat, a: nat, address: nat, b: nat)
    requires Removing(list, idx, a, address, b)
    ensures Ordered(list) && IsPlace(list, idx, address) && a <= address < b && idx <= |list|
    ensures idx < |list| ==> list[idx].start <= list[idx].end && address < list[idx].end
  {
  }

  lemma RemovingFromIsOrdered(list: seq<Segment>, idx: nat, a: nat, address: nat, b: nat)
    requires RemovingFrom(list, idx, a, address, b)
    ensures Ordered(list)
  {
  }

  /** No segment from the position on reaches into the block any more. */
  lemma NothingLeft(list: seq<Segment>, idx: nat, a: nat, address: nat, b: nat)
    requires Removing(list, idx, a, address, b) && (idx < |list| ==> b <= list[idx].start)
    ensures Ordered(list) && Released(list, a, b)
  {
    OrderedAll(list);
  }

  /** The end of a segment is cut off; it may be left empty. */
  lemma Shrunk(list: seq<Segment>, idx: nat, a: nat, address: nat, b: nat)
    requires Removing(list, idx, a, address, b) && idx < |list|
    requires list[idx].start <= address < list[idx].end < b
    ensures var list' := list[idx := list[idx].(end := address)];
            && Removing(list', idx + 1, a, address, b) && Releasing(list, list', a, b)
  {
    var pre, seg, post := list[..idx], list[idx], list[idx + 1..];
    var list' := list[idx := seg.(end := address)];
    assert list == pre + [seg] + post && list' == pre + [seg.(end := address)] + post;
    SegmentReplaced(pre, seg, post, [seg.(end := address)]);
    OneHolds(seg.(end := address));
    ReplacedHolds(pre, seg, post, [seg.(end := address)], a, b);
    OrderedAll(list);
  }

  /** Only the segment at the position reaches into the block. */
  lemma OthersReleased(list: seq<Segment>, idx: nat, a: nat, address: nat, b: nat)
    requires Removing(list, idx, a, address, b) && idx < |list| && b <= list[idx].end
    ensures Released(list[..idx], a, b) && Released(list[idx + 1..], a, b)
    ensures idx > 0 ==> list[idx - 1].end <= address
    ensures Ordered(list) && a <= address && list[idx].start <= list[idx].end
  {
    OrderedAll(list);
  }

  /** A piece is taken out of a segment, or its end, or all of it. */
  lemma Broken(list: seq<Segment>, idx: nat, a: nat, address: nat, b: nat)
    requires Removing(list, idx, a, address, b) && idx < |list|
    requires list[idx].start <= address < b <= list[idx].end
    ensures var list' := list[..idx] + Remains(list[idx], address, b) + list[idx + 1..];
            Ordered(list') && Releasing(list, list', a, b) && Released(list', a, b)
  {
    var pre, seg, post := list[..idx], list[idx], list[idx + 1..];
    assert list == pre + [seg] + post;
    OthersReleased(list, idx, a, address, b);
    RemainsHold(seg, address, b);
    SegmentReplaced(pre, seg, post, Remains(seg, address, b));
    ReplacedHolds(pre, seg, post, Remains(seg, address, b), a, b);
    NothingBetween(pre, Remains(seg, address, b), post, a, b);
  }

  lemma NothingBetween(pre: seq<Segment>, mid: seq<Segment>, post: seq<Segment>, a: nat, b: nat)
    requires Released(pre, a, b) && Released(mid, a, b) && Released(post, a, b)
    ensures Released(pre + mid + post, a, b)
  {
  }

  /** The start of a segment is cut off, or all of it. */
  lemma Beheaded(list: seq<Segment>, idx: nat, a: nat, address: nat, b: nat)
    requires Removing(list, idx, a, address, b) && idx < |list|
    requires address < list[idx].start < b <= list[idx].end
    ensures var seg := list[idx].(start := b);
            var list' := list[..idx] + (if seg.Size() == 0 then [] else [seg]) + list[idx + 1..];
            Ordered(list') && Releasing(list, list', a, b) && Released(list', a, b)
  {
    var pre, seg, post := list[..idx], list[idx], list[idx + 1..];
    var mid := if b == seg.end then [] else [seg.(start := b)];
    assert list == pre + [seg] + post;
    OthersReleased(list, idx, a, address, b);
    hide Ordered, Removing;
    OneHolds(seg.(start := b));
    SegmentReplaced(pre, seg, post, mid);
    ReplacedHolds(pre, seg, post, mid, a, b);
    NothingBetween(pre, mid, post, a, b);
  }

  /** The same, before the position has been looked up anew. */
  ghost predicate RemovingFrom(list: seq<Segment>, idx: nat, a: nat, address: nat, b: nat) {
    && Ordered(list) && idx <= |list| && a < address < b
    && (forall i :: 0 <= i < idx ==> list[i].end <= address)
    && (forall i :: 0 <= i < idx ==> list[i].end <= a || list[i].start == list[i].end)
    && (forall i :: idx <= i < |list| ==> address <= list[i].start)
  }

  lemma PositionFound(list: seq<Segment>, idx: nat, a: nat, address: nat, b: nat, idx': nat)
    requires RemovingFrom(list, idx, a, address, b) && idx' <= |list|
    requires forall i :: 0 <= i < idx' ==> list[i].end <= address
    requires forall i :: idx' <= i < |list| ==> list[i].end > address
    ensures Removing(list, idx', a, address, b)
  {
  }

  /** A segment is taken out whole. */
  lemma TakenOut(list: seq<Segment>, idx: nat, a: nat, address: nat, b: nat)
    requires Removing(list, idx, a, address, b) && idx < |list|
    requires address < list[idx].start && list[idx].end < b
    ensures var list' := list[..idx] + list[idx + 1..];
            RemovingFrom(list', idx, a, list[idx].end, b) && Releasing(list, list', a, b)
  {
    hide Ordered, Releasing;
    OneTakenOut(list, idx, a, b);
    OrderedAll(list);
    OthersInPlace(list, idx);
  }

  lemma OneTakenOut(list: seq<Segment>, idx: nat, a: nat, b: nat)
    requires Ordered(list) && idx < |list| && a <= list[idx].start && list[idx].end <= b
    requires idx > 0 ==> list[idx - 1].end < list[idx].end
    ensures Ordered(list[..idx] + list[idx + 1..]) && Releasing(list, list[..idx] + list[idx + 1..], a, b)
  {
    hide Ordered, Releasing;
    var pre, seg, post := list[..idx], list[idx], list[idx + 1..];
    assert list == pre + [seg] + post && pre + [] + post == list[..idx] + list[idx + 1..];
    EmptyIsOrdered();
    SegmentReplaced(pre, seg, post, []);
    NothingHeld();
    ReplacedHolds(pre, seg, post, [], a, b);
  }

  lemma EmptyIsOrdered()
    ensures Ordered([])
  {
  }

  lemma NothingHeld()
    ensures forall x: int, s: string :: !Holds([], x, s)
  {
  }

  lemma OthersInPlace(list: seq<Segment>, idx: nat)
    requires idx < |list|
    ensures var list' := list[..idx] + list[idx + 1..];
            && |list'| == |list| - 1
            && (forall i :: 0 <= i < idx ==> list'[i] == list[i])
            && (forall i :: idx <= i < |list'| ==> list'[i] == list[i + 1])
  {
  }

  // ---- empty segments ----

  /** The position comes to where segment `i` starts: there, or at the end of one that is taken out whole. */
  predicate StartsThere(list: seq<Segment>, i: nat, a: nat)
    requires i < |list|
  {
    list[i].start == a || (i > 0 && a < list[i - 1].start && list[i - 1].end == list[i].start)
  }

  /**
   Some segment ends inside `[a, b)` and starts at `a`, or touches one that lies behind `a`: its end is
   set to its start, and it stays in the list.
   */
  ghost predicate LeavesEmpty(list: seq<Segment>, a: nat, b: nat) {
    exists i :: 0 <= i < |list| && Emptied(list, i, a, b)
  }

  predicate Emptied(list: seq<Segment>, i: nat, a: nat, b: nat)
    requires i < |list|
  {
    a < list[i].end < b && StartsThere(list, i, a)
  }

  /** What has become of `was` when its segments before `j` have been dealt with, which are now those before `idx`. */
  ghost predicate Tracks(was: seq<Segment>, list: seq<Segment>, idx: nat, j: nat, a: nat, address: nat, b: nat) {
    && j <= |was| && idx <= |list| && list[idx..] == was[j..]
    && if exists i :: 0 <= i < j && Emptied(was, i, a, b)
       then exists k :: 0 <= k < idx && list[k].start >= list[k].end
       else
         && (forall k :: 0 <= k < idx ==> list[k].start < list[k].end)
         && (j < |was| ==> (address == was[j].start <==> StartsThere(was, j, a)))
  }

  ghost predicate Removal(was: seq<Segment>, list: seq<Segment>, idx: nat, j: nat, a: nat, address: nat, b: nat) {
    && Releasing(was, list, a, b) && Shrunken(was, list)
    && (NoEmpty(was) ==> Ordered(was) && Tracks(was, list, idx, j, a, address, b))
  }

  lemma NothingEmptied(list: seq<Segment>, a: nat, b: nat)
    requires forall i :: 0 <= i < |list| ==> list[i].end <= a
    ensures !LeavesEmpty(list, a, b)
  {
  }

  lemma NothingRemoved(list: seq<Segment>, idx: nat, a: nat, b: nat)
    requires Removing(list, idx, a, a, b)
    ensures Removal(list, list, idx, idx, a, a, b)
  {
    NothingReleased(list, a, b);
    SameSegments(list);
    OrderedAll(list);
  }

  /** The segments before position `i` end at the address or before it, and no others do. */
  predicate IsPlace(list: seq<Segment>, i: nat, address: nat) {
    && i <= |list|
    && (forall k :: 0 <= k < i ==> list[k].end <= address)
    && (forall k :: i <= k < |list| ==> list[k].end > address)
  }

  lemma SamePlace(list: seq<Segment>, i: nat, j: nat, address: nat)
    requires IsPlace(list, i, address) && IsPlace(list, j, address)
    ensures i == j
  {
    hide IsPlace;
    PlaceOf(list, i, i, address);
    PlaceOf(list, j, i, address);
    PlaceOf(list, i, j, address);
    PlaceOf(list, j, j, address);
  }

  lemma PlaceOf(list: seq<Segment>, i: nat, k: nat, address: nat)
    requires IsPlace(list, i, address)
    ensures i <= |list| && (k < |list| ==> (k < i <==> list[k].end <= address))
  {
  }

  /** After a segment has been taken out, the next one with anything in it is next. */
  lemma SamePosition(was: seq<Segment>, list: seq<Segment>, idx: nat, idx': nat, j: nat, a: nat, address: nat, b: nat)
    requires Removal(was, list, idx, j, a, address, b) && RemovingFrom(list, idx, a, address, b)
    requires Removing(list, idx', a, address, b)
    ensures Removal(was, list, idx', j, a, address, b)
  {
    if NoEmpty(was) {
      forall k | idx <= k < |list|
        ensures list[k].end > address
      {
        assert list[k] == list[idx..][k - idx] == was[j..][k - idx] == was[j + k - idx];
      }
      SamePlace(list, idx, idx', address);
    }
  }

  lemma ReplacedShrinks(pre: seq<Segment>, seg: Segment, post: seq<Segment>, mid: seq<Segment>)
    requires forall s :: s in mid ==> s.sort == seg.sort && seg.start <= s.start && s.end <= seg.end
    ensures Shrunken(pre + [seg] + post, pre + mid + post)
  {
    var before := pre + [seg] + post;
    assert seg in before && forall s :: s in pre || s in post ==> s in before;
    forall s | s in pre + mid + post
      ensures PartOfOne(before, s)
    {
      assert s in pre || s in mid || s in post;
    }
  }

  lemma ListWithout(list: seq<Segment>, idx: nat)
    requires idx < |list|
    ensures list == list[..idx] + [list[idx]] + list[idx + 1..]
    ensures forall m :: list[idx := m] == list[..idx] + [m] + list[idx + 1..]
    ensures list[..idx] + [] + list[idx + 1..] == list[..idx] + list[idx + 1..]
  {
  }

  lemma ShrunkRemoval(was: seq<Segment>, list: seq<Segment>, idx: nat, j: nat, a: nat, address: nat, b: nat)
    requires Removing(list, idx, a, address, b) && Removal(was, list, idx, j, a, address, b)
    requires idx < |list| && list[idx].start <= address < list[idx].end < b
    requires Releasing(list, list[idx := list[idx].(end := address)], a, b)
    ensures Removal(was, list[idx := list[idx].(end := address)], idx + 1, j + 1, a, address, b)
  {
    hide Ordered, Releasing, Shrunken, Tracks, NoEmpty;
    var list' := list[idx := list[idx].(end := address)];
    ReleasingTwice(was, list, list', a, b);
    ListWithout(list, idx);
    ReplacedShrinks(list[..idx], list[idx], list[idx + 1..], [list[idx].(end := address)]);
    ShrunkenTwice(was, list, list');
    if NoEmpty(was) {
      ShrunkTracks(was, list, idx, j, a, address, b);
    }
  }

  lemma ShrunkTracks(was: seq<Segment>, list: seq<Segment>, idx: nat, j: nat, a: nat, address: nat, b: nat)
    requires NoEmpty(was) && Ordered(was) && Tracks(was, list, idx, j, a, address, b)
    requires idx < |list| && list[idx].start <= address < list[idx].end < b
    requires a <= address && (address > a ==> address <= list[idx].start)
    ensures Tracks(was, list[idx := list[idx].(end := address)], idx + 1, j + 1, a, address, b)
  {
    var list' := list[idx := list[idx].(end := address)];
    NextTracked(was, list, idx, j);
    assert list'[idx + 1..] == list[idx..][1..] == was[j..][1..] == was[j + 1..];
    if exists i :: 0 <= i < j && Emptied(was, i, a, b) {
      var k :| 0 <= k < idx && list[k].start >= list[k].end;
      assert list'[k] == list[k];
    } else {
      assert Emptied(was, j, a, b) <==> list[idx].start == address;
      if list[idx].start == address {
        assert list'[idx].start >= list'[idx].end;
      } else {
        assert forall i :: 0 <= i < j + 1 ==> !Emptied(was, i, a, b);
        assert j + 1 < |was| ==> Apart(was[j], was[j + 1]);
      }
    }
  }

  lemma NextTracked(was: seq<Segment>, list: seq<Segment>, idx: nat, j: nat)
    requires j <= |was| && idx < |list| && list[idx..] == was[j..]
    ensures j < |was| && list[idx] == was[j] && list[idx + 1..] == was[j + 1..]
  {
    assert list[idx..][0] == list[idx];
    assert list[idx..][1..] == list[idx + 1..] && was[j..][1..] == was[j + 1..];
  }

  lemma TakenOutRemoval(was: seq<Segment>, list: seq<Segment>, idx: nat, j: nat, a: nat, address: nat, b: nat)
    requires Removing(list, idx, a, address, b) && Removal(was, list, idx, j, a, address, b)
    requires idx < |list| && address < list[idx].start && list[idx].end < b
    requires Releasing(list, list[..idx] + list[idx + 1..], a, b)
    ensures Removal(was, list[..idx] + list[idx + 1..], idx, j + 1, a, list[idx].end, b)
  {
    hide Ordered, Releasing, Shrunken, Tracks, NoEmpty;
    var list' := list[..idx] + list[idx + 1..];
    ReleasingTwice(was, list, list', a, b);
    ListWithout(list, idx);
    ReplacedShrinks(list[..idx], list[idx], list[idx + 1..], []);
    ShrunkenTwice(was, list, list');
    if NoEmpty(was) {
      TakenOutTracks(was, list, idx, j, a, address, b);
    }
  }

  lemma TakenOutTracks(was: seq<Segment>, list: seq<Segment>, idx: nat, j: nat, a: nat, address: nat, b: nat)
    requires NoEmpty(was) && Ordered(was) && Tracks(was, list, idx, j, a, address, b)
    requires idx < |list| && address < list[idx].start && list[idx].end < b && a <= address
    ensures Tracks(was, list[..idx] + list[idx + 1..], idx, j + 1, a, list[idx].end, b)
  {
    var list' := list[..idx] + list[idx + 1..];
    NextTracked(was, list, idx, j);
    assert list'[idx..] == list[idx + 1..];
    assert forall k :: 0 <= k < idx ==> list'[k] == list[k];
    if exists i :: 0 <= i < j && Emptied(was, i, a, b) {
      var k :| 0 <= k < idx && list[k].start >= list[k].end;
      assert list'[k] == list[k];
    } else {
      assert !Emptied(was, j, a, b);
      assert forall i :: 0 <= i < j + 1 ==> !Emptied(was, i, a, b);
    }
  }

  /** The position has come to a segment that ends at `b` or after it, of which something may be cut off. */
  lemma LastRemoval(was: seq<Segment>, list: seq<Segment>, idx: nat, j: nat, a: nat, address: nat, b: nat, mid: seq<Segment>)
    requires Removing(list, idx, a, address, b) && Removal(was, list, idx, j, a, address, b)
    requires idx < |list| && b <= list[idx].end
    requires forall s :: s in mid ==> s.sort == list[idx].sort && list[idx].start <= s.start < s.end <= list[idx].end
    requires Releasing(list, list[..idx] + mid + list[idx + 1..], a, b)
    ensures var list' := list[..idx] + mid + list[idx + 1..];
            && Releasing(was, list', a, b) && Shrunken(was, list')
            && (NoEmpty(was) ==> (NoEmpty(list') <==> !LeavesEmpty(was, a, b)))
  {
    hide Ordered, Releasing, Shrunken, Tracks, NoEmpty, LeavesEmpty;
    var list' := list[..idx] + mid + list[idx + 1..];
    ReleasingTwice(was, list, list', a, b);
    ListWithout(list, idx);
    ReplacedShrinks(list[..idx], list[idx], list[idx + 1..], mid);
    ShrunkenTwice(was, list, list');
    if NoEmpty(was) {
      LastTracks(was, list, idx, j, a, address, b, mid);
    }
  }

  lemma LastTracks(was: seq<Segment>, list: seq<Segment>, idx: nat, j: nat, a: nat, address: nat, b: nat, mid: seq<Segment>)
    requires NoEmpty(was) && Ordered(was) && Tracks(was, list, idx, j, a, address, b)
    requires idx < |list| && b <= list[idx].end && forall s :: s in mid ==> s.start < s.end
    ensures NoEmpty(list[..idx] + mid + list[idx + 1..]) <==> !LeavesEmpty(was, a, b)
  {
    NextTracked(was, list, idx, j);
    RestNotEmptied(was, j, a, b);
    NoEmptyParts(list[..idx], mid, list[idx + 1..]);
    NoEmptyParts(was[..j + 1], [], was[j + 1..]);
    assert was[..j + 1] + [] + was[j + 1..] == was;
    PrefixTracks(was, list, idx, j, a, address, b);
  }

  lemma RestNotEmptied(was: seq<Segment>, j: nat, a: nat, b: nat)
    requires Ordered(was) && j < |was| && b <= was[j].end && NoEmpty(was)
    ensures forall i :: j <= i < |was| ==> !Emptied(was, i, a, b)
  {
    OrderedAll(was);
  }

  lemma PrefixTracks(was: seq<Segment>, list: seq<Segment>, idx: nat, j: nat, a: nat, address: nat, b: nat)
    requires Tracks(was, list, idx, j, a, address, b)
    requires forall i :: j <= i < |was| ==> !Emptied(was, i, a, b)
    ensures NoEmpty(list[..idx]) <==> !LeavesEmpty(was, a, b)
  {
    if exists i :: 0 <= i < j && Emptied(was, i, a, b) {
      var k :| 0 <= k < idx && list[k].start >= list[k].end;
      assert list[..idx][k] == list[k];
    }
  }

  lemma NoEmptyParts(l: seq<Segment>, m: seq<Segment>, r: seq<Segment>)
    ensures NoEmpty(l + m + r) <==> NoEmpty(l) && NoEmpty(m) && NoEmpty(r)
  {
    var all := l + m + r;
    if NoEmpty(all) {
      assert forall i :: 0 <= i < |l| ==> l[i] == all[i];
      assert forall i :: 0 <= i < |m| ==> m[i] == all[|l| + i];
      assert forall i :: 0 <= i < |r| ==> r[i] == all[|l| + |m| + i];
    }
  }

  lemma BrokenRemoval(was: seq<Segment>, list: seq<Segment>, idx: nat, j: nat, a: nat, address: nat, b: nat)
    requires Removing(list, idx, a, address, b) && Removal(was, list, idx, j, a, address, b)
    requires idx < |list| && list[idx].start <= address < b <= list[idx].end
    requires Releasing(list, list[..idx] + Remains(list[idx], address, b) + list[idx + 1..], a, b)
    ensures var list' := list[..idx] + Remains(list[idx], address, b) + list[idx + 1..];
            && Releasing(was, list', a, b) && Shrunken(was, list')
            && (NoEmpty(was) ==> (NoEmpty(list') <==> !LeavesEmpty(was, a, b)))
  {
    hide Removing, Removal, Releasing, Shrunken, NoEmpty, LeavesEmpty;
    LastRemoval(was, list, idx, j, a, address, b, Remains(list[idx], address, b));
  }

  lemma BeheadedRemoval(was: seq<Segment>, list: seq<Segment>, idx: nat, j: nat, a: nat, address: nat, b: nat)
    requires Removing(list, idx, a, address, b) && Removal(was, list, idx, j, a, address, b)
    requires idx < |list| && address < list[idx].start < b <= list[idx].end
    requires var seg := list[idx].(start := b);
             Releasing(list, list[..idx] + (if seg.Size() == 0 then [] else [seg]) + list[idx + 1..], a, b)
    ensures var seg := list[idx].(start := b);
            var list' := list[..idx] + (if seg.Size() == 0 then [] else [seg]) + list[idx + 1..];
            && Releasing(was, list', a, b) && Shrunken(was, list')
            && (NoEmpty(was) ==> (NoEmpty(list') <==> !LeavesEmpty(was, a, b)))
  {
    hide Removing, Removal, Releasing, Shrunken, NoEmpty, LeavesEmpty;
    var seg := list[idx].(start := b);
    LastRemoval(was, list, idx, j, a, address, b, if seg.Size() == 0 then [] else [seg]);
  }

  /** Nothing from the position on reaches into the block. */
  lemma EndOfRemoval(was: seq<Segment>, list: seq<Segment>, idx: nat, j: nat, a: nat, address: nat, b: nat)
    requires Removing(list, idx, a, address, b) && Removal(was, list, idx, j, a, address, b)
    requires idx < |list| ==> b <= list[idx].start
    ensures Releasing(was, list, a, b) && Shrunken(was, list)
    ensures NoEmpty(was) ==> (NoEmpty(list) <==> !LeavesEmpty(was, a, b))
  {
    if NoEmpty(was) {
      EndTracks(was, list, idx, j, a, address, b);
    }
  }

  lemma EndTracks(was: seq<Segment>, list: seq<Segment>, idx: nat, j: nat, a: nat, address: nat, b: nat)
    requires NoEmpty(was) && Ordered(was) && Ordered(list) && Tracks(was, list, idx, j, a, address, b)
    requires idx < |list| ==> b <= list[idx].start
    ensures NoEmpty(list) <==> !LeavesEmpty(was, a, b)
  {
    assert was[..j] + was[j..] == was && list[..idx] + list[idx..] == list;
    NoEmptyParts(was[..j], [], was[j..]);
    NoEmptyParts(list[..idx], [], list[idx..]);
    assert was[..j] + [] == was[..j] && list[..idx] + [] == list[..idx];
    if idx < |list| {
      NextTracked(was, list, idx, j);
      SegmentOk(list, idx);
      RestNotEmptied(was, j, a, b);
    } else {
      assert |was[j..]| == |was| - j;
    }
    PrefixTracks(was, list, idx, j, a, address, b);
  }

  /** The block is put into the list and merged with what it touches. */
  ghost predicate Occupied(before: seq<Segment>, after: seq<Segment>, a: nat, b: nat, sort: string) {
    forall x: int, s: string ::
      Holds(after, x, s) <==> if a <= x < b then s == sort else Holds(before, x, s)
  }

  /** What was held is still held, and so is the block in its sort. */
  ghost predicate HeldAlso(before: seq<Segment>, after: seq<Segment>, a: nat, b: nat, sort: string) {
    forall x: int, s: string :: Holds(after, x, s) <==> Holds(before, x, s) || (a <= x < b && s == sort)
  }

  /** The list with the block in its place, before anything is merged. */
  lemma BlockInserted(list: seq<Segment>, idx: nat, m: Segment)
    requires Ordered(list) && m.start < m.end && idx <= |list|
    requires forall i :: 0 <= i < idx ==> list[i].end <= m.start
    requires forall i :: idx <= i < |list| ==> list[i].end > m.start
    ensures var l, r := list[..idx], list[idx..];
            && list[..idx] + [m] + list[idx..] == Around(l, m, r)
            && Forward(l, m, r, m.start) && (Clear(m, r) <==> NoClash(list, m.start, m.end, m.sort))
            && (Clear(m, r) ==> Miscounted(m, r) == 0)
            && HeldAlso(list, Around(l, m, r), m.start, m.end, m.sort)
            && TotalSize(Around(l, m, r)) == TotalSize(list) + m.Size()
  {
    hide Holds, HeldAlso, Ordered, Forward, Clear, NoClash, MergingEnds, Miscounted, TotalSize;
    var l, r := list[..idx], list[idx..];
    assert list == l + r;
    InsertedHolds(l, m, r);
    InsertedForward(l, m, r);
    SizeAround(l, m, r);
    TotalSizeAppend(l, r);
    if Clear(m, r) {
      ClearEnds(l, m, r, m.start);
    }
  }

  lemma StillHeld(before: seq<Segment>, between: seq<Segment>, after: seq<Segment>, a: nat, b: nat, sort: string)
    requires HeldAlso(before, between, a, b, sort)
    requires forall x: int, s: string :: Holds(after, x, s) <==> Holds(between, x, s)
    ensures HeldAlso(before, after, a, b, sort)
  {
    hide Holds;
  }

  lemma InsertedHolds(l: seq<Segment>, m: Segment, r: seq<Segment>)
    ensures HeldAlso(l + r, Around(l, m, r), m.start, m.end, m.sort)
  {
    forall x: int, s: string
      ensures Holds(Around(l, m, r), x, s) <==> Holds(l + r, x, s) || (m.start <= x < m.end && s == m.sort)
    {
      HoldsAround(l, m, r, x, s);
      HoldsJoin(l, r, x, s);
    }
  }

  /** In a list that is in order no address is held in two sorts. */
  lemma HeldIsOccupied(before: seq<Segment>, after: seq<Segment>, a: nat, b: nat, sort: string)
    requires HeldAlso(before, after, a, b, sort) && Ordered(after)
    ensures Occupied(before, after, a, b, sort)
  {
    hide Holds, Ordered;
    forall x: int, s: string
      ensures Holds(after, x, s) <==> if a <= x < b then s == sort else Holds(before, x, s)
    {
      if a <= x < b && Holds(after, x, s) {
        OneSort(after, x, s, sort);
      }
    }
  }

  lemma InsertedForward(l: seq<Segment>, m: Segment, r: seq<Segment>)
    requires Ordered(l + r) && m.start < m.end
    requires forall i :: 0 <= i < |l| ==> l[i].end <= m.start
    requires forall i :: 0 <= i < |r| ==> r[i].end > m.start
    ensures Forward(l, m, r, m.start)
    ensures Clear(m, r) <==> NoClash(l + r, m.start, m.end, m.sort)
  {
    assert forall i :: 0 <= i < |r| ==> (l + r)[|l| + i] == r[i];
    assert forall i :: 0 <= i < |l| ==> (l + r)[i] == l[i];
    assert forall i :: |l| <= i < |l + r| ==> (l + r)[i] == r[i - |l|];
  }

  lemma EmptySize()
    ensures TotalSize([]) == 0
  {
  }

  /** Writing the second of two neighbours and removing the first. */
  lemma Spliced(list: seq<Segment>, p: nat, m: Segment)
    requires p + 1 < |list|
    ensures list[p + 1 := m][..p] + list[p + 1 := m][p + 1..] == list[..p] + [m] + list[p + 2..]
    ensures list[..p] + [m] + list[p + 2..] == Around(list[..p], m, list[p + 2..])
  {
  }

  lemma MergedSize(list: seq<Segment>, p: nat)
    requires p + 1 < |list|
    ensures var m := Merged(list[p], list[p + 1]);
            && list[p + 1 := m][..p] + list[p + 1 := m][p + 1..] == list[..p] + [m] + list[p + 2..]
            && TotalSize(list[..p] + [m] + list[p + 2..]) ==
                 TotalSize(list) - list[p].Size() - list[p + 1].Size() + m.Size()
  {
    hide TotalSize, Merged;
    var l, s, t, r := list[..p], list[p], list[p + 1], list[p + 2..];
    var m := Merged(s, t);
    assert list == Around(l, s, [t] + r);
    SizeAround(l, s, [t] + r);
    assert [t] + r == Around([], t, r);
    SizeAround([], t, r);
    SizeAround(l, m, r);
    EmptySize();
    Spliced(list, p, m);
  }

  lemma EndIsFree(list: seq<Segment>, i: nat)
    requires Ordered(list) && i < |list| && (i + 1 < |list| ==> list[i].end != list[i + 1].start)
    ensures !IsOccupied(list, list[i].end)
  {
    OrderedAll(list);
    assert i + 1 < |list| ==> Apart(list[i], list[i + 1]);
  }

  // ---- what the list represents ----

  /** An address is never in segments of two sorts. */
  lemma OneSort(list: seq<Segment>, a: int, s: string, t: string)
    requires Ordered(list) && Holds(list, a, s) && Holds(list, a, t)
    ensures s == t
  {
    OrderedAll(list);
  }

  /** If there is only one sort the segments are strictly separated. */
  lemma OneSortSeparated(list: seq<Segment>, i: nat, j: nat)
    requires Ordered(list) && i < j < |list|
    requires forall k :: 0 <= k < |list| ==> list[k].sort == list[0].sort
    ensures list[i].end < list[j].start
  {
    OrderedAll(list);
    assert Apart(list[i], list[i + 1]);
    assert list[i + 1].start <= list[i + 1].end;
  }

  function Range(a: int, b: int): (r: set<int>)
    ensures forall x :: x in r <==> a <= x < b
    ensures a <= b ==> |r| == b - a
    decreases b - a
  {
    if b <= a then {} else Range(a, b - 1) + {b - 1}
  }

  function Addresses(list: seq<Segment>): set<int> {
    if list == [] then {}
    else Addresses(list[..|list| - 1]) + Range(list[|list| - 1].start, list[|list| - 1].end)
  }

  lemma OccupiedJoin(l: seq<Segment>, s: Segment, a: int)
    ensures IsOccupied(l + [s], a) <==> IsOccupied(l, a) || s.Has(a)
  {
    var all := l + [s];
    if IsOccupied(l, a) {
      var i :| 0 <= i < |l| && l[i].Has(a);
      assert all[i].Has(a);
    }
    if s.Has(a) {
      assert all[|l|].Has(a);
    }
  }

  lemma {:induction false} AddressesOccupied(list: seq<Segment>, a: int)
    ensures a in Addresses(list) <==> IsOccupied(list, a)
  {
    if list != [] {
      hide IsOccupied;
      var n := |list| - 1;
      AddressesOccupied(list[..n], a);
      assert list == list[..n] + [list[n]];
      OccupiedJoin(list[..n], list[n], a);
    }
  }

  /** The sizes add up to the number of addresses that are occupied. */
  lemma {:induction false} SizeIsCardinality(list: seq<Segment>)
    requires Ordered(list)
    ensures TotalSize(list) == |Addresses(list)|
  {
    if list != [] {
      var n := |list| - 1;
      assert list == list[..n] + [list[n]];
      OrderedParts(list[..n], [list[n]]);
      SizeIsCardinality(list[..n]);
      OrderedAll(list);
      forall a | a in Addresses(list[..n])
        ensures a < list[n].start
      {
        AddressesOccupied(list[..n], a);
        var i :| 0 <= i < n && list[..n][i].Has(a);
        assert list[i].end <= list[n].start;
      }
      assert Addresses(list[..n]) !! Range(list[n].start, list[n].end);
    }
  }

  lemma ReleasedAddresses(before: seq<Segment>, after: seq<Segment>, a: nat, b: nat)
    requires Releasing(before, after, a, b) && Released(after, a, b)
    ensures Addresses(after) == Addresses(before) - Range(a, b)
  {
    forall x: int
      ensures x in Addresses(after) <==> x in Addresses(before) && !(a <= x < b)
    {
      AddressesOccupied(before, x);
      AddressesOccupied(after, x);
      OccupiedHolds(before, x);
      OccupiedHolds(after, x);
      ReleasedAt(before, after, a, b, x);
    }
  }

  lemma ReleasedAt(before: seq<Segment>, after: seq<Segment>, a: nat, b: nat, x: int)
    requires Releasing(before, after, a, b) && Released(after, a, b)
    ensures forall s: string :: Holds(after, x, s) <==> Holds(before, x, s) && !(a <= x < b)
  {
  }

  lemma PartsAddUp(all: set<int>, rest: set<int>, taken: set<int>)
    requires rest == all - taken
    ensures |all| == |rest| + |all * taken|
  {
    assert all == rest + all * taken && rest !! all * taken;
  }

  lemma DisjointIff(s: set<int>, t: set<int>)
    ensures s !! t <==> |s * t| == 0
  {
    if s * t == {} {
      forall x | x in s
        ensures x !in t
      {
        assert x in t ==> x in s * t;
      }
    }
    if s !! t {
      assert s * t == {};
    }
  }

  /** A number that was the size of the set still is, after a release, only if nothing was taken out. */
  lemma ReleasedSize(before: seq<Segment>, after: seq<Segment>, a: nat, b: nat, bytes: int)
    requires Releasing(before, after, a, b) && Released(after, a, b)
    requires bytes == |Addresses(before)|
    ensures Addresses(after) == Addresses(before) - Range(a, b)
    ensures bytes == |Addresses(after)| <==> Addresses(before) !! Range(a, b)
  {
    hide Releasing, Released, Addresses, Range;
    ReleasedAddresses(before, after, a, b);
    PartsAddUp(Addresses(before), Addresses(after), Range(a, b));
    DisjointIff(Addresses(before), Range(a, b));
  }

  lemma OccupiedHolds(list: seq<Segment>, a: int)
    ensures IsOccupied(list, a) <==> exists s: string :: Holds(list, a, s)
  {
    if IsOccupied(list, a) {
      var i :| 0 <= i < |list| && list[i].Has(a);
      assert Holds(list, a, list[i].sort);
    }
  }

  /** Occupying a block makes the set the union with the block, whatever the list looked like. */
  lemma OccupiedSet(before: seq<Segment>, after: seq<Segment>, a: nat, b: nat, sort: string)
    requires Occupied(before, after, a, b, sort)
    ensures Addresses(after) == Addresses(before) + Range(a, b)
  {
    forall x: int
      ensures x in Addresses(after) <==> x in Addresses(before) || a <= x < b
    {
      AddressesOccupied(before, x);
      AddressesOccupied(after, x);
      OccupiedHolds(before, x);
      OccupiedHolds(after, x);
      assert a <= x < b ==> Holds(after, x, sort);
    }
  }
}
