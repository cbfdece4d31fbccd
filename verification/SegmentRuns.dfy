/** What any sequence of calls makes of a segment list, and when occupying a block comes to an end. */
module SegmentRuns {
  import opened Wrappers
  import opened SegmentLists

  // ---- when occupying ends, from the segments ----

  /** A segment of another sort reaches into `[a, b)`. */
  predicate InTheWay(s: Segment, a: nat, b: nat, sort: string) {
    s.sort != sort && a < s.end && s.start < b
  }

  predicate IsFirstInTheWay(list: seq<Segment>, i: nat, a: nat, b: nat, sort: string) {
    i < |list| && InTheWay(list[i], a, b, sort) && forall k :: 0 <= k < i ==> !InTheWay(list[k], a, b, sort)
  }

  /** The first segment in the way, if there is one, sticks out of the block. */
  predicate FirstSticksOut(list: seq<Segment>, a: nat, b: nat, sort: string) {
    forall i :: 0 <= i < |list| && IsFirstInTheWay(list, i, a, b, sort) ==> list[i].start < a || b < list[i].end
  }

  /** The block as it grows: beyond `[a, b)` it has taken in only what lies before the other segments. */
  ghost predicate Growing(m: Segment, r: seq<Segment>, a: nat, b: nat) {
    && Ordered(r) && m.start <= a < b <= m.end
    && (forall i :: 0 <= i < |r| ==> a < r[i].end)
    && (m.start == a || forall i :: 0 <= i < |r| ==> a <= r[i].start)
    && (m.end == b || forall i :: 0 <= i < |r| ==> m.end <= r[i].start)
  }

  lemma GrowsOn(m: Segment, r: seq<Segment>, a: nat, b: nat)
    requires Growing(m, r, a, b) && r != []
    ensures Growing(Merged(m, r[0]), r[1..], a, b)
  {
    OrderedAll(r);
    OrderedRest(r);
    assert forall i :: 0 <= i < |r[1..]| ==> r[1..][i] == r[i + 1];
  }

  lemma OrderedRest(r: seq<Segment>)
    requires Ordered(r) && r != []
    ensures Ordered(r[1..])
  {
    assert r == [r[0]] + r[1..];
    OrderedParts([r[0]], r[1..]);
  }

  lemma {:induction false} EndsIfSticksOut(m: Segment, r: seq<Segment>, a: nat, b: nat)
    requires Growing(m, r, a, b)
    ensures MergingEnds(m, r) <==> FirstSticksOut(r, a, b, m.sort)
    decreases |r|
  {
    if r != [] {
      OrderedAll(r);
      if Apart(m, r[0]) {
        assert forall i :: 0 <= i < |r| ==> r[0].start <= r[i].start;
      } else if m.sort == r[0].sort {
        GrowsOn(m, r, a, b);
        EndsIfSticksOut(Merged(m, r[0]), r[1..], a, b);
        SticksOutAfter(r, a, b, m.sort);
      } else {
        assert IsFirstInTheWay(r, 0, a, b, m.sort);
      }
    }
  }

  /** A segment that is not in the way makes no difference. */
  lemma SticksOutAfter(r: seq<Segment>, a: nat, b: nat, sort: string)
    requires r != [] && !InTheWay(r[0], a, b, sort)
    ensures FirstSticksOut(r[1..], a, b, sort) <==> FirstSticksOut(r, a, b, sort)
  {
    var rest := r[1..];
    assert forall i :: 0 <= i < |rest| ==> rest[i] == r[i + 1];
    forall i | 0 <= i < |rest|
      ensures IsFirstInTheWay(rest, i, a, b, sort) <==> IsFirstInTheWay(r, i + 1, a, b, sort)
    {
      if IsFirstInTheWay(rest, i, a, b, sort) {
        assert forall k :: 0 < k < i + 1 ==> r[k] == rest[k - 1];
      }
    }
    if FirstSticksOut(rest, a, b, sort) {
      forall i | 0 <= i < |r| && IsFirstInTheWay(r, i, a, b, sort)
        ensures r[i].start < a || b < r[i].end
      {
        assert IsFirstInTheWay(rest, i - 1, a, b, sort);
      }
    }
  }

  /** Occupying `[a, b)` comes to an end exactly if the first segment of another sort in it sticks out of it. */
  lemma {:induction false} OccupyEndsWhen(list: seq<Segment>, a: nat, b: nat, sort: string)
    requires Ordered(list) && a < b
    ensures MergingEnds(Segment(a, b, sort), From(list, a)) <==> FirstSticksOut(list, a, b, sort)
    decreases |list|
  {
    if list != [] && list[0].end <= a {
      OrderedRest(list);
      OccupyEndsWhen(list[1..], a, b, sort);
      SticksOutAfter(list, a, b, sort);
    } else {
      FromTheFirst(list, a);
      EndsIfSticksOut(Segment(a, b, sort), list, a, b);
    }
  }

  lemma FromTheFirst(list: seq<Segment>, a: nat)
    requires Ordered(list) && (list != [] ==> a < list[0].end)
    ensures forall i :: 0 <= i < |list| ==> a < list[i].end
  {
    OrderedAll(list);
  }

  // ---- the same, from the addresses that are held ----

  /** `[x, y)` is held in the sort `t`, and neither the address before nor the one after it is. */
  ghost predicate IsRun(list: seq<Segment>, x: int, y: int, t: string) {
    && x < y && (forall z: int :: x <= z < y ==> Holds(list, z, t))
    && !Holds(list, x - 1, t) && !Holds(list, y, t)
  }

  /** Without empty segments, the segments are the runs: the list is determined by what is held. */
  lemma SegmentsAreRuns(list: seq<Segment>, x: nat, y: nat, t: string)
    requires Ordered(list) && NoEmpty(list)
    ensures Segment(x, y, t) in list <==> IsRun(list, x, y, t)
  {
    if Segment(x, y, t) in list {
      var i :| 0 <= i < |list| && list[i] == Segment(x, y, t);
      SegmentIsRun(list, i);
    }
    if IsRun(list, x, y, t) {
      RunIsSegment(list, x, y, t);
    }
  }

  lemma SegmentIsRun(list: seq<Segment>, i: nat)
    requires Ordered(list) && NoEmpty(list) && i < |list|
    ensures IsRun(list, list[i].start, list[i].end, list[i].sort)
  {
    var s := list[i];
    forall z: int | s.start <= z < s.end
      ensures Holds(list, z, s.sort)
    {
      assert list[i].Has(z);
    }
    NotHeldBeside(list, i, s.start - 1);
    NotHeldBeside(list, i, s.end);
  }

  lemma NotHeldBeside(list: seq<Segment>, i: nat, z: int)
    requires Ordered(list) && NoEmpty(list) && i < |list| && (z == list[i].start - 1 || z == list[i].end)
    ensures !Holds(list, z, list[i].sort)
  {
    OrderedAll(list);
    forall k | 0 <= k < |list| && list[k].Has(z)
      ensures list[k].sort != list[i].sort
    {
      if k < i {
        NextTo(list, k, i);
      } else {
        NextTo(list, i, k);
      }
    }
  }

  /** Segments that touch are neighbours, and of different sorts. */
  lemma NextTo(list: seq<Segment>, i: nat, k: nat)
    requires Ordered(list) && NoEmpty(list) && i <= k < |list|
    ensures i < k && list[i].end == list[k].start ==> k == i + 1 && list[i].sort != list[k].sort
  {
    OrderedAll(list);
    if i + 1 < k {
      assert list[i].end <= list[i + 1].start < list[i + 1].end <= list[k].start;
    } else if i + 1 == k {
      assert Apart(list[i], list[i + 1]);
    }
  }

  lemma RunIsSegment(list: seq<Segment>, x: nat, y: nat, t: string)
    requires Ordered(list) && NoEmpty(list) && IsRun(list, x, y, t)
    ensures Segment(x, y, t) in list
  {
    assert Holds(list, x, t);
    var i :| 0 <= i < |list| && list[i].Has(x) && list[i].sort == t;
    SegmentIsRun(list, i);
    var s := list[i];
    assert s.start <= x - 1 ==> Holds(list, x - 1, t);
    assert y < s.end ==> Holds(list, y, t);
    assert s.end < y ==> Holds(list, s.end, t);
  }

  /** The first run of another sort in `[a, b)` lies inside it. */
  ghost predicate FirstRunInside(list: seq<Segment>, a: nat, b: nat, sort: string, x: nat, y: nat, t: string) {
    && t != sort && IsRun(list, x, y, t) && a <= x && y <= b
    && forall z: int, u: string :: a <= z < x && Holds(list, z, u) ==> u == sort
  }

  /** Without empty segments, it can be told from what is held whether occupying comes to an end. */
  lemma OccupyEndsByHeld(list: seq<Segment>, a: nat, b: nat, sort: string)
    requires Ordered(list) && NoEmpty(list) && a < b
    ensures MergingEnds(Segment(a, b, sort), From(list, a)) <==>
              !exists x: nat, y: nat, t: string :: FirstRunInside(list, a, b, sort, x, y, t)
  {
    OccupyEndsWhen(list, a, b, sort);
    if !FirstSticksOut(list, a, b, sort) {
      var i :| 0 <= i < |list| && IsFirstInTheWay(list, i, a, b, sort) && a <= list[i].start && list[i].end <= b;
      FirstInTheWayIsRun(list, i, a, b, sort);
    }
    if x: nat, y: nat, t: string :| FirstRunInside(list, a, b, sort, x, y, t) {
      SegmentsAreRuns(list, x, y, t);
      var i :| 0 <= i < |list| && list[i] == Segment(x, y, t);
      RunIsFirstInTheWay(list, i, a, b, sort);
    }
  }

  lemma FirstInTheWayIsRun(list: seq<Segment>, i: nat, a: nat, b: nat, sort: string)
    requires Ordered(list) && NoEmpty(list) && IsFirstInTheWay(list, i, a, b, sort)
    requires a <= list[i].start && list[i].end <= b
    ensures FirstRunInside(list, a, b, sort, list[i].start, list[i].end, list[i].sort)
  {
    OrderedAll(list);
    SegmentIsRun(list, i);
    forall z: int, u: string | a <= z < list[i].start && Holds(list, z, u)
      ensures u == sort
    {
      var k :| 0 <= k < |list| && list[k].Has(z) && list[k].sort == u;
      assert k < i;
    }
  }

  lemma RunIsFirstInTheWay(list: seq<Segment>, i: nat, a: nat, b: nat, sort: string)
    requires Ordered(list) && NoEmpty(list) && a < b && i < |list|
    requires FirstRunInside(list, a, b, sort, list[i].start, list[i].end, list[i].sort)
    ensures IsFirstInTheWay(list, i, a, b, sort)
  {
    OrderedAll(list);
    forall k | 0 <= k < i
      ensures !InTheWay(list[k], a, b, sort)
    {
      var z := if list[k].start < a then a else list[k].start;
      assert list[k].Has(z) ==> Holds(list, z, list[k].sort);
    }
  }

  /** Whether a release leaves an empty segment, from what is held. */
  ghost predicate EmptiesRun(list: seq<Segment>, a: nat, b: nat) {
    exists x: nat, y: nat, t: string ::
      IsRun(list, x, y, t) && a < y < b && (x == a || exists w: nat, u: string :: a < w && IsRun(list, w, x, u))
  }

  lemma LeavesEmptyByHeld(list: seq<Segment>, a: nat, b: nat)
    requires Ordered(list) && NoEmpty(list)
    ensures LeavesEmpty(list, a, b) <==> EmptiesRun(list, a, b)
  {
    if LeavesEmpty(list, a, b) {
      var i :| 0 <= i < |list| && Emptied(list, i, a, b);
      SegmentIsRun(list, i);
      if list[i].start != a {
        SegmentIsRun(list, i - 1);
      }
    }
    if x: nat, y: nat, t: string :|
         IsRun(list, x, y, t) && a < y < b && (x == a || exists w: nat, u: string :: a < w && IsRun(list, w, x, u)) {
      RunIsSegment(list, x, y, t);
      var i :| 0 <= i < |list| && list[i] == Segment(x, y, t);
      if x != a {
        var w: nat, u: string :| a < w && IsRun(list, w, x, u);
        RunIsSegment(list, w, x, u);
        var k :| 0 <= k < |list| && list[k] == Segment(w, x, u);
        OrderedAll(list);
        assert k < i;
        NextTo(list, k, i);
      }
      assert Emptied(list, i, a, b);
    }
  }

  // ---- sequences of calls ----

  datatype Op = Occupy(address: nat, size: int, sort: string) | Release(address: nat, size: int)

  /** The sort in which an address is held after these calls: the last one that has the address decides. */
  function SortAt(ops: seq<Op>, x: int): Option<string> {
    if ops == [] then None
    else
      var n := |ops| - 1;
      var op := ops[n];
      if op.address <= x < op.address + op.size then if op.Occupy? then Some(op.sort) else None
      else SortAt(ops[..n], x)
  }

  /** The addresses that are held: union and difference of the blocks in turn. */
  function Taken(ops: seq<Op>): set<int> {
    if ops == [] then {}
    else
      var n := |ops| - 1;
      var block := Range(ops[n].address, ops[n].address + ops[n].size);
      if ops[n].Occupy? then Taken(ops[..n]) + block else Taken(ops[..n]) - block
  }

  /** How many addresses the releases have given back, each time that they did. */
  function GivenBack(ops: seq<Op>): nat {
    if ops == [] then 0
    else
      var n := |ops| - 1;
      GivenBack(ops[..n])
      + if ops[n].Occupy? then 0
        else |Taken(ops[..n]) * Range(ops[n].address, ops[n].address + ops[n].size)|
  }

  lemma {:induction false} TakenIsHeld(ops: seq<Op>, x: int)
    ensures x in Taken(ops) <==> SortAt(ops, x).Some?
  {
    if ops != [] {
      TakenIsHeld(ops[..|ops| - 1], x);
    }
  }

  lemma {:induction false} NothingGivenBack(ops: seq<Op>)
    requires forall i :: 0 <= i < |ops| ==> ops[i].Occupy?
    ensures GivenBack(ops) == 0
  {
    if ops != [] {
      NothingGivenBack(ops[..|ops| - 1]);
    }
  }

  /** The list is in order and holds what the calls have left. */
  ghost predicate Represents(list: seq<Segment>, ops: seq<Op>) {
    Ordered(list) && forall x: int, t: string :: Holds(list, x, t) <==> SortAt(ops, x) == Some(t)
  }

  /** The count is off by what has been given back. */
  ghost predicate InStep(l: SegmentList, ops: seq<Op>)
    reads l
  {
    Represents(l.list, ops) && l.bytesOccupied == |Taken(ops)| + GivenBack(ops)
  }

  lemma AddressesTaken(list: seq<Segment>, ops: seq<Op>)
    requires Represents(list, ops)
    ensures Addresses(list) == Taken(ops)
  {
    hide Holds, IsOccupied, SortAt, Taken, Addresses, Ordered;
    forall x: int
      ensures x in Addresses(list) <==> x in Taken(ops)
    {
      AddressesOccupied(list, x);
      OccupiedHolds(list, x);
      TakenIsHeld(ops, x);
      if SortAt(ops, x).Some? {
        assert Holds(list, x, SortAt(ops, x).value);
      }
    }
  }

  lemma OneMoreCall(ops: seq<Op>, op: Op)
    ensures forall x :: SortAt(ops + [op], x) ==
              if op.address <= x < op.address + op.size then if op.Occupy? then Some(op.sort) else None else SortAt(ops, x)
    ensures var block := Range(op.address, op.address + op.size);
            && Taken(ops + [op]) == (if op.Occupy? then Taken(ops) + block else Taken(ops) - block)
            && GivenBack(ops + [op]) == GivenBack(ops) + (if op.Occupy? then 0 else |Taken(ops) * block|)
  {
    hide Range;
    LastCall(ops, op);
    SortAfter(ops + [op], ops, op);
    TakenAfter(ops + [op], ops, op);
    GivenBackAfter(ops + [op], ops, op);
  }

  lemma LastCall(ops: seq<Op>, op: Op)
    ensures var all := ops + [op]; all != [] && all[..|all| - 1] == ops && all[|all| - 1] == op
  {
  }

  lemma SortAfter(all: seq<Op>, ops: seq<Op>, op: Op)
    requires all != [] && all[..|all| - 1] == ops && all[|all| - 1] == op
    ensures forall x :: SortAt(all, x) ==
              if op.address <= x < op.address + op.size then if op.Occupy? then Some(op.sort) else None else SortAt(ops, x)
  {
  }

  lemma TakenAfter(all: seq<Op>, ops: seq<Op>, op: Op)
    requires all != [] && all[..|all| - 1] == ops && all[|all| - 1] == op
    ensures var block := Range(op.address, op.address + op.size);
            Taken(all) == if op.Occupy? then Taken(ops) + block else Taken(ops) - block
  {
    hide Range;
  }

  lemma GivenBackAfter(all: seq<Op>, ops: seq<Op>, op: Op)
    requires all != [] && all[..|all| - 1] == ops && all[|all| - 1] == op
    ensures var block := Range(op.address, op.address + op.size);
            GivenBack(all) == GivenBack(ops) + if op.Occupy? then 0 else |Taken(ops) * block|
  {
    hide Range, Taken;
  }

  lemma OccupiedRepresents(before: seq<Segment>, after: seq<Segment>, ops: seq<Op>, op: Op)
    requires Represents(before, ops) && Ordered(after) && op.Occupy? && op.size > 0
    requires Occupied(before, after, op.address, op.address + op.size, op.sort)
    ensures Represents(after, ops + [op])
  {
    hide Holds, SortAt, Ordered;
    OneMoreCall(ops, op);
  }

  lemma ReleasedRepresents(before: seq<Segment>, after: seq<Segment>, ops: seq<Op>, op: Op)
    requires Represents(before, ops) && Ordered(after) && op.Release? && op.size > 0
    requires Releasing(before, after, op.address, op.address + op.size)
    requires Released(after, op.address, op.address + op.size)
    ensures Represents(after, ops + [op])
  {
    hide Ordered;
    OneMoreCall(ops, op);
    forall x: int, t: string
      ensures Holds(after, x, t) <==> SortAt(ops + [op], x) == Some(t)
    {
      ReleasedAt(before, after, op.address, op.address + op.size, x);
    }
  }

  lemma NothingChanged(list: seq<Segment>, ops: seq<Op>, op: Op)
    requires op.size <= 0
    ensures Represents(list, ops + [op]) <==> Represents(list, ops)
    ensures Taken(ops + [op]) == Taken(ops) && GivenBack(ops + [op]) == GivenBack(ops)
  {
    hide Holds, Ordered, SortAt;
    OneMoreCall(ops, op);
    assert Range(op.address, op.address + op.size) == {};
  }

  /** A call that comes to an end, and on a block that no segment of another sort reaches into. */
  ghost predicate GoesWell(list: seq<Segment>, op: Op) {
    op.Occupy? && op.size > 0 ==> NoClash(list, op.address, op.address + op.size, op.sort)
  }

  lemma WellEnds(list: seq<Segment>, op: Op)
    requires Ordered(list) && GoesWell(list, op) && op.Occupy? && op.size > 0
    ensures MergingEnds(Segment(op.address, op.address + op.size, op.sort), From(list, op.address))
  {
    OccupyEndsWhen(list, op.address, op.address + op.size, op.sort);
  }

  method CarryOccupy(l: SegmentList, ghost done: seq<Op>, op: Op)
    requires InStep(l, done) && GoesWell(l.list, op) && op.Occupy?
    modifies l
    ensures InStep(l, done + [op])
    ensures op.size <= 0 ==> l.list == old(l.list)
    ensures op.size > 0 ==> Grown(old(l.list) + [Segment(op.address, op.address + op.size, op.sort)], l.list)
  {
    hide Holds, Ordered, SortAt, Taken, GivenBack, Occupied, HeldAlso, NoClash, MergingEnds, Grown, TotalSize, Addresses;
    if op.size > 0 {
      WellEnds(l.list, op);
    }
    ghost var before := l.list;
    AddressesTaken(before, done);
    SizeIsCardinality(before);
    l.Occupy(op.address, op.size, op.sort);
    OneMoreCall(done, op);
    if op.size <= 0 {
      NothingChanged(before, done, op);
    } else {
      OccupiedRepresents(before, l.list, done, op);
      AddressesTaken(l.list, done + [op]);
      SizeIsCardinality(l.list);
    }
  }

  method CarryRelease(l: SegmentList, ghost done: seq<Op>, op: Op)
    requires InStep(l, done) && op.Release?
    modifies l
    ensures InStep(l, done + [op]) && Shrunken(old(l.list), l.list)
    ensures op.size <= 0 ==> l.list == old(l.list)
    ensures op.size > 0 && old(NoEmpty(l.list)) ==>
              (NoEmpty(l.list) <==> !LeavesEmpty(old(l.list), op.address, op.address + op.size))
  {
    hide Holds, Ordered, SortAt, Taken, GivenBack, Releasing, Released, LeavesEmpty, NoEmpty, Shrunken;
    ghost var before := l.list;
    l.Release(op.address, op.size);
    OneMoreCall(done, op);
    if op.size <= 0 {
      NothingChanged(before, done, op);
    } else {
      ReleasedRepresents(before, l.list, done, op);
      PartsAddUp(Taken(done), Taken(done + [op]), Range(op.address, op.address + op.size));
    }
  }

  method Carry(l: SegmentList, ghost done: seq<Op>, op: Op)
    requires InStep(l, done) && GoesWell(l.list, op)
    modifies l
    ensures InStep(l, done + [op])
    ensures forall t :: old(OfSort(l.list, t)) && (op.Occupy? ==> op.sort == t) ==> OfSort(l.list, t)
    ensures (op.Release? && op.size > 0 ==> !LeavesEmpty(old(l.list), op.address, op.address + op.size)) ==>
              old(NoEmpty(l.list)) ==> NoEmpty(l.list)
  {
    hide InStep, GoesWell, Grown, Shrunken, OfSort, NoEmpty, LeavesEmpty;
    ghost var before := l.list;
    match op {
      case Occupy(address, size, sort) =>
        CarryOccupy(l, done, op);
        if size > 0 {
          OccupyKeepsShape(before, l.list, Segment(address, address + size, sort));
        }
      case Release(_, _) =>
        CarryRelease(l, done, op);
        forall t | OfSort(before, t)
          ensures OfSort(l.list, t)
        {
          SortsStay(before, l.list, t);
        }
    }
  }

  lemma OccupyKeepsShape(before: seq<Segment>, after: seq<Segment>, m: Segment)
    requires Grown(before + [m], after) && m.start < m.end
    ensures OfSort(before, m.sort) ==> OfSort(after, m.sort)
    ensures NoEmpty(before) ==> NoEmpty(after)
  {
    if OfSort(before, m.sort) {
      SortsStay(before + [m], after, m.sort);
    }
    if NoEmpty(before) {
      GrownIsNotEmpty(before + [m], after);
    }
  }

  method Start() returns (l: SegmentList)
    ensures fresh(l) && InStep(l, []) && l.list == []
  {
    l := new SegmentList();
  }

  /**
   With one sort, every call of every sequence comes to an end. The segments are strictly separated,
   they hold what the calls have left, and the count is right exactly if nothing was given back.
   */
  method RunOneSort(ops: seq<Op>, sort: string) returns (l: SegmentList)
    requires forall i :: 0 <= i < |ops| && ops[i].Occupy? ==> ops[i].sort == sort
    ensures fresh(l) && l.Valid() && OfSort(l.list, sort)
    ensures forall i, j :: 0 <= i < j < |l.list| ==> l.list[i].end < l.list[j].start
    ensures Addresses(l.list) == Taken(ops) && l.bytesOccupied == |Addresses(l.list)| + GivenBack(ops)
    ensures (forall i :: 0 <= i < |ops| ==> ops[i].Occupy?) ==> l.bytesOccupied == |Addresses(l.list)|
  {
    hide InStep, GoesWell, OfSort, Taken, GivenBack;
    l := Start();
    NoneOfAnySort(sort);
    for i := 0 to |ops|
      invariant fresh(l) && InStep(l, ops[..i]) && OfSort(l.list, sort)
    {
      OneSortGoesWell(l, ops[..i], ops[i], sort);
      Carry(l, ops[..i], ops[i]);
      assert ops[..i + 1] == ops[..i] + [ops[i]];
    }
    assert ops[..|ops|] == ops;
    OneSortAfterwards(l, ops, sort);
  }

  lemma NoneOfAnySort(sort: string)
    ensures OfSort([], sort) && NoEmpty([])
  {
  }

  lemma OneSortGoesWell(l: SegmentList, done: seq<Op>, op: Op, sort: string)
    requires InStep(l, done) && OfSort(l.list, sort) && (op.Occupy? ==> op.sort == sort)
    ensures GoesWell(l.list, op)
  {
    if op.Occupy? && op.size > 0 {
      OneSortEnds(l.list, op.address, op.address + op.size, sort);
    }
  }

  lemma OneSortAfterwards(l: SegmentList, ops: seq<Op>, sort: string)
    requires InStep(l, ops) && OfSort(l.list, sort)
    ensures l.Valid() && Addresses(l.list) == Taken(ops) && l.bytesOccupied == |Addresses(l.list)| + GivenBack(ops)
    ensures forall i, j :: 0 <= i < j < |l.list| ==> l.list[i].end < l.list[j].start
    ensures (forall i :: 0 <= i < |ops| ==> ops[i].Occupy?) ==> l.bytesOccupied == |Addresses(l.list)|
  {
    hide Taken, GivenBack;
    AddressesTaken(l.list, ops);
    forall i, j | 0 <= i < j < |l.list|
      ensures l.list[i].end < l.list[j].start
    {
      OneSortSeparated(l.list, i, j);
    }
    if forall i :: 0 <= i < |ops| ==> ops[i].Occupy? {
      NothingGivenBack(ops);
    }
  }

  // ---- several sorts ----

  /** `[x, y)` is held in the sort `t` after these calls, and neither the address before nor the one after it is. */
  ghost predicate IsRunAfter(ops: seq<Op>, x: int, y: int, t: string) {
    && x < y && (forall z: int :: x <= z < y ==> SortAt(ops, z) == Some(t))
    && SortAt(ops, x - 1) != Some(t) && SortAt(ops, y) != Some(t)
  }

  /**
   No address of an occupied block is held in another sort. No release goes past the end of a run that it
   begins with, or that touches a run before it behind the beginning of the release.
   */
  ghost predicate IsApart(ops: seq<Op>, op: Op) {
    var a, b := op.address, op.address + op.size;
    op.size > 0 ==>
      if op.Occupy? then forall x :: a <= x < b && SortAt(ops, x).Some? ==> SortAt(ops, x) == Some(op.sort)
      else
        !exists x: nat, y: nat, t: string ::
          IsRunAfter(ops, x, y, t) && a < y < b && (x == a || exists w: nat, u: string :: a < w && IsRunAfter(ops, w, x, u))
  }

  lemma SameRuns(list: seq<Segment>, ops: seq<Op>, x: int, y: int, t: string)
    requires Represents(list, ops)
    ensures IsRun(list, x, y, t) <==> IsRunAfter(ops, x, y, t)
  {
    hide Holds, SortAt, Ordered;
  }

  lemma ApartGoesWell(l: SegmentList, done: seq<Op>, op: Op)
    requires InStep(l, done) && NoEmpty(l.list) && IsApart(done, op)
    ensures GoesWell(l.list, op)
    ensures op.Release? && op.size > 0 ==> !LeavesEmpty(l.list, op.address, op.address + op.size)
  {
    hide SortAt, Ordered, LeavesEmpty, IsRun, IsRunAfter, Taken, GivenBack;
    var a, b := op.address, op.address + op.size;
    if op.size > 0 {
      if op.Occupy? {
        forall i | 0 <= i < |l.list| && l.list[i].sort != op.sort
          ensures l.list[i].end <= a || b <= l.list[i].start
        {
          var z: int := if l.list[i].start < a then a else l.list[i].start;
          assert l.list[i].Has(z) ==> Holds(l.list, z, l.list[i].sort);
        }
      } else {
        LeavesEmptyByHeld(l.list, a, b);
        forall x: nat, y: nat, t: string
          ensures IsRun(l.list, x, y, t) <==> IsRunAfter(done, x, y, t)
        {
          SameRuns(l.list, done, x, y, t);
        }
      }
    }
  }

  /**
   Whatever the sorts: as long as no block clashes and no release leaves an empty segment, every call comes
   to an end, and the segments are exactly the runs of addresses that the calls have left in one sort.
   */
  method RunApart(ops: seq<Op>) returns (l: SegmentList)
    requires forall i :: 0 <= i < |ops| ==> IsApart(ops[..i], ops[i])
    ensures fresh(l) && l.Valid() && Addresses(l.list) == Taken(ops)
    ensures forall x: nat, y: nat, t: string :: Segment(x, y, t) in l.list <==> IsRunAfter(ops, x, y, t)
    ensures l.bytesOccupied == |Addresses(l.list)| + GivenBack(ops)
  {
    hide InStep, GoesWell, IsApart, NoEmpty, LeavesEmpty, OfSort, Taken, GivenBack, IsRunAfter;
    l := Start();
    NoneOfAnySort("");
    for i := 0 to |ops|
      invariant fresh(l) && InStep(l, ops[..i]) && NoEmpty(l.list)
    {
      ApartGoesWell(l, ops[..i], ops[i]);
      Carry(l, ops[..i], ops[i]);
      assert ops[..i + 1] == ops[..i] + [ops[i]];
    }
    assert ops[..|ops|] == ops;
    RunsAfterwards(l, ops);
  }

  lemma RunsAfterwards(l: SegmentList, ops: seq<Op>)
    requires InStep(l, ops) && NoEmpty(l.list)
    ensures l.Valid() && Addresses(l.list) == Taken(ops) && l.bytesOccupied == |Addresses(l.list)| + GivenBack(ops)
    ensures forall x: nat, y: nat, t: string :: Segment(x, y, t) in l.list <==> IsRunAfter(ops, x, y, t)
  {
    hide NoEmpty, IsRun, IsRunAfter, Taken, GivenBack;
    AddressesTaken(l.list, ops);
    forall x: nat, y: nat, t: string
      ensures Segment(x, y, t) in l.list <==> IsRunAfter(ops, x, y, t)
    {
      SegmentsAreRuns(l.list, x, y, t);
      SameRuns(l.list, ops, x, y, t);
    }
  }

  // ---- an empty segment ----

  /** An empty segment in the block is as much in the way as any other. */
  lemma EmptySegmentRepeats(k: nat)
    ensures var list := [Segment(0, 20, "data"), Segment(5, 5, "code")];
            ForwardStep(list, 0) == (list, true, 0) && !LoopEnds(list, 0, k)
  {
    var m, s := Segment(0, 20, "data"), Segment(5, 5, "code");
    SortsDiffer();
    PiecesForward(m, s);
    StuckInPlace([m, s], 0, k);
  }

  lemma SortsDiffer()
    ensures "code" != "data"
  {
    assert "code"[0] != "data"[0];
  }

  /** After occupying and releasing in one sort no address is held, and yet a block of another sort never ends. */
  method EmptySegmentStays() returns (l: SegmentList)
    ensures fresh(l) && l.Valid() && Addresses(l.list) == {} && !l.OccupyEnds(0, 20, "data")
  {
    hide InStep, GoesWell, NoEmpty, LeavesEmpty, Grown, Shrunken, MergingEnds, Addresses;
    l := Start();
    NoneOfAnySort("code");
    FirstGoesWell(Occupy(5, 5, "code"));
    CarryOccupy(l, [], Occupy(5, 5, "code"));
    OccupyKeepsShape([], l.list, Segment(5, 10, "code"));
    assert [] + [Occupy(5, 5, "code")] == [Occupy(5, 5, "code")];
    ghost var before := l.list;
    OneRunHeld(l);
    CarryRelease(l, [Occupy(5, 5, "code")], Release(5, 20));
    NothingHeldAnyMore(l);
    EmptyIsInTheWay(before, l.list);
  }

  lemma FirstGoesWell(op: Op)
    ensures GoesWell([], op)
  {
  }

  lemma OneRunHeld(l: SegmentList)
    requires InStep(l, [Occupy(5, 5, "code")]) && NoEmpty(l.list)
    ensures LeavesEmpty(l.list, 5, 25)
    ensures forall s :: s in l.list ==> s == Segment(5, 10, "code")
  {
    hide NoEmpty, LeavesEmpty, Ordered, Holds, Taken, GivenBack;
    var list, ops := l.list, [Occupy(5, 5, "code")];
    LastCall([], ops[0]);
    SortAfter(ops, [], ops[0]);
    assert IsRun(list, 5, 10, "code");
    RunIsSegment(list, 5, 10, "code");
    FirstIsEmptied(list);
    forall i | 0 <= i < |list|
      ensures list[i] == Segment(5, 10, "code")
    {
      SegmentIsRun(list, i);
      var x, y, t := list[i].start, list[i].end, list[i].sort;
      assert x < y by {
        NotEmptyAt(list, i);
      }
      assert Holds(list, x, t) && Holds(list, y - 1, t) && !Holds(list, x - 1, t) && !Holds(list, y, t);
    }
  }

  lemma NotEmptyAt(list: seq<Segment>, i: nat)
    requires NoEmpty(list) && i < |list|
    ensures list[i].start < list[i].end
  {
  }

  lemma FirstIsEmptied(list: seq<Segment>)
    requires Segment(5, 10, "code") in list
    ensures LeavesEmpty(list, 5, 25)
  {
    var i :| 0 <= i < |list| && list[i] == Segment(5, 10, "code");
    assert Emptied(list, i, 5, 25);
  }

  lemma NothingHeldAnyMore(l: SegmentList)
    requires InStep(l, [Occupy(5, 5, "code")] + [Release(5, 20)])
    ensures l.Valid() && Addresses(l.list) == {}
  {
    hide Ordered, Holds, SortAt, Taken, GivenBack, Addresses, Range;
    var first := [Occupy(5, 5, "code")];
    AddressesTaken(l.list, first + [Release(5, 20)]);
    OneMoreCall(first, Release(5, 20));
    OneMoreCall([], Occupy(5, 5, "code"));
    assert [] + first == first;
    NothingTaken();
  }

  lemma NothingTaken()
    ensures Taken([]) == {} && Range(5, 10) - Range(5, 25) == {}
  {
  }

  lemma EmptyIsInTheWay(before: seq<Segment>, list: seq<Segment>)
    requires Shrunken(before, list) && Ordered(list) && !NoEmpty(list)
    requires forall s :: s in before ==> s == Segment(5, 10, "code")
    ensures !MergingEnds(Segment(0, 20, "data"), From(list, 0))
  {
    hide Ordered, MergingEnds, From;
    SortsDiffer();
    assert list[0] in list && PartOfOne(before, list[0]);
    OrderedStarts(list);
    assert IsFirstInTheWay(list, 0, 0, 20, "data");
    OccupyEndsWhen(list, 0, 20, "data");
  }

  lemma OrderedStarts(list: seq<Segment>)
    requires Ordered(list)
    ensures forall i :: 0 <= i < |list| ==> list[i].start <= list[i].end
  {
  }
}
