/** Looking for the base address at which the offsets of strings coincide with pointers. */
module FindBaseStrings {
  import opened Wrappers
  import opened MachineArithmetic

  const MAX_UINT: nat := 0xFFFF_FFFF
  const MAX_ULONG: nat := 0xFFFF_FFFF_FFFF_FFFF

  predicate IsPowerOfTwo(n: nat) {
    exists k :: 0 <= k < 32 && n == Pow2(k)
  }

  /** Clearing the bits below a power of two. */
  function Aligned(a: nat, stride: nat): (r: nat)
    requires stride > 0
    ensures r <= a
  {
    a - Rem(a, stride)
  }

  datatype Interval = Interval(start: nat, end: nat)

  /** The number of addresses, shared out to `threads` before it is aligned, in 64-bit arithmetic. */
  function Share(index: nat, threads: nat): nat
    requires threads > 0
  {
    Quot(Rem(Times(index, MAX_UINT + threads - 1), MAX_ULONG + 1), threads)
  }

  /** Up to 65536 threads the product does not wrap around. */
  lemma ShareFits(index: nat, threads: nat)
    requires index <= threads <= 0x1_0000 && threads > 0
    ensures 0 <= Times(index, MAX_UINT + threads - 1) <= MAX_ULONG
    ensures Share(index, threads) == Quot(Times(index, MAX_UINT + threads - 1), threads)
  {
    hide Times, Quot, Rem;
    var n := MAX_UINT + threads - 1;
    TimesGrows(0, index, n);
    TimesGrows(index, 0x1_0000, n);
    TimesTimes(0x1_0000, n, 1);
    TimesGrows(n, MAX_UINT + 0x1_0000, 0x1_0000);
    LargestProduct();
    TimesOne(n);
    TimesOne(MAX_ULONG + 1);
    DivModIs(Times(index, n), MAX_ULONG + 1, 0, Times(index, n));
  }

  lemma LargestProduct()
    ensures Times(MAX_UINT + 0x1_0000, 0x1_0000) <= MAX_ULONG
    ensures forall n: nat :: Times(0x1_0000, n) == Times(n, 0x1_0000)
  {
  }

  datatype Failure = InvalidIndex | InvalidOffset

  /** The addresses that one of the threads looks at, both ends included. */
  function GetRange(index: nat, threads: nat, stride: nat): Result<Interval, Failure> {
    if index >= threads then Err(InvalidIndex)
    else if !IsPowerOfTwo(stride) then Err(InvalidOffset)
    else
      var start := Aligned(Share(index, threads), stride);
      var end := Share(index + 1, threads);
      Ok(Interval(start, if end >= MAX_UINT then MAX_UINT else Aligned(end, stride)))
  }

  lemma ShareGrows(i: nat, j: nat, threads: nat)
    requires 0 < threads <= 0x1_0000 && i <= j <= threads
    ensures Share(i, threads) <= Share(j, threads)
  {
    hide Times, Quot, Rem, Share;
    ShareFits(i, threads);
    ShareFits(j, threads);
    var n := MAX_UINT + threads - 1;
    TimesGrows(i, j, n);
    QuotGrows(Times(i, n), Times(j, n), threads);
  }

  lemma QuotGrows(a: int, b: int, m: int)
    requires m > 0 && a <= b
    ensures Quot(a, m) <= Quot(b, m)
  {
    hide Times, Quot, Rem;
    Division(a, m);
    Division(b, m);
    var p, q := Quot(a, m), Quot(b, m);
    if p > q {
      TimesGrows(q + 1, p, m);
      TimesSum(q, 1, m);
      TimesOne(m);
    }
  }

  /** The last share goes to the end of the address space, and up to 65536 threads no other does. */
  lemma OnlyLastShareEnds(index: nat, threads: nat)
    requires 0 < index <= threads <= 0x1_0000
    ensures Share(0, threads) == 0 && Share(threads, threads) >= MAX_UINT
    ensures index < threads ==> Share(index, threads) < MAX_UINT
  {
    hide Times, Quot, Rem, Share;
    ShareFits(0, threads);
    ShareFits(index, threads);
    ShareFits(threads, threads);
    var n := MAX_UINT + threads - 1;
    TimesOne(n);
    TimesOne(threads);
    DivModIs(0, threads, 0, 0);
    TimesTimes(threads, n, 1);
    DivModIs(Times(threads, n), threads, n, 0);
    if threads <= 0x1_0000 && index < threads {
      Square(threads);
      var t := threads - 1;
      TimesGrows(index, t, n);
      // t * (max + t) < max * (t + 1), since t * t < max
      TimesSum(MAX_UINT, t, t);
      TimesTimes(t, n, 1);
      TimesTimes(t, MAX_UINT, 1);
      TimesSum(t, 1, MAX_UINT);
      TimesOne(MAX_UINT);
      TimesTimes(MAX_UINT, threads, 1);
      assert Times(index, n) < Times(MAX_UINT, threads);
      QuotBelow(Times(index, n), MAX_UINT, threads);
    }
  }

  lemma Square(threads: nat)
    requires 0 < threads <= 0x1_0000
    ensures Times(threads - 1, threads - 1) < MAX_UINT
  {
    hide Times;
    var t := threads - 1;
    TimesGrows(t, 0xFFFF, t);
    TimesTimes(t, 0xFFFF, 1);
    TimesGrows(t, 0xFFFF, 0xFFFF);
    LargestSquare();
  }

  lemma LargestSquare()
    ensures Times(0xFFFF, 0xFFFF) < MAX_UINT
  {
  }

  lemma QuotBelow(a: int, q: int, m: int)
    requires m > 0 && a < Times(q, m)
    ensures Quot(a, m) < q
  {
    hide Times, Quot, Rem;
    Division(a, m);
    if Quot(a, m) >= q {
      TimesGrows(q, Quot(a, m), m);
    }
  }

  /** The ranges of the threads start at zero, each ends where the next one starts, and the last ends at the end. */
  lemma RangesAbut(index: nat, threads: nat, stride: nat)
    requires index < threads <= 0x1_0000 && IsPowerOfTwo(stride)
    ensures GetRange(index, threads, stride).Ok?
    ensures var r := GetRange(index, threads, stride).value;
            && r.start <= r.end <= MAX_UINT && Rem(r.start, stride) == 0
            && (index == 0 ==> r.start == 0)
            && (index == threads - 1 ==> r.end == MAX_UINT)
            && (index < threads - 1 ==> GetRange(index + 1, threads, stride).Ok?
                                        && GetRange(index + 1, threads, stride).value.start == r.end)
  {
    hide Times, Quot, Rem, Pow2;
    OnlyLastShareEnds(index + 1, threads);
    ShareGrows(index, index + 1, threads);
    AlignedIsMultiple(Share(index, threads), Share(index + 1, threads), stride);
    if index > 0 {
      OnlyLastShareEnds(index, threads);
    }
  }

  lemma AlignedIsMultiple(a: nat, b: nat, stride: nat)
    requires stride > 0
    ensures Rem(Aligned(a, stride), stride) == 0
    ensures a <= b ==> Aligned(a, stride) <= Aligned(b, stride)
    ensures a == 0 ==> Aligned(a, stride) == 0
  {
    hide Times, Quot, Rem;
    Division(a, stride);
    Division(b, stride);
    DivModIs(Aligned(a, stride), stride, Quot(a, stride), 0);
    if a <= b {
      QuotGrows(a, b, stride);
      TimesGrows(Quot(a, stride), Quot(b, stride), stride);
    }
  }

  // ---- looking for matches ----

  function AddOverflow(a: nat, b: nat): Option<nat>
    requires a <= MAX_ULONG && b <= MAX_ULONG
  {
    var s := (a + b) % (MAX_ULONG + 1);
    if s < a then None else Some(s)
  }

  /** The pointers that the strings' offsets come to at a base address. */
  function Hits(strings: set<nat>, pointers: set<nat>, base: nat): set<nat> {
    set s | s in strings && s + base <= MAX_ULONG && s + base in pointers :: s + base
  }

  lemma HitsOneMore(strings: set<nat>, s: nat, pointers: set<nat>, base: nat)
    ensures Hits(strings + {s}, pointers, base) ==
            Hits(strings, pointers, base) + if s + base <= MAX_ULONG && s + base in pointers then {s + base} else {}
  {
  }

  method CountHits(strings: set<nat>, pointers: set<nat>, base: nat) returns (count: nat)
    requires base <= MAX_ULONG && forall s :: s in strings ==> s <= MAX_ULONG
    ensures count == |Hits(strings, pointers, base)|
  {
    hide Hits, AddOverflow;
    var news: set<nat>, rest := {}, strings;
    ghost var done: set<nat> := {};
    NoHits(pointers, base);
    while rest != {}
      invariant done + rest == strings && news == Hits(done, pointers, base)
      decreases |rest|
    {
      var s :| s in rest;
      rest := rest - {s};
      RebasedIs(s, base);
      HitsOneMore(done, s, pointers, base);
      done := done + {s};
      var rebased := AddOverflow(s, base);
      if rebased.Some? && rebased.value in pointers {
        news := news + {rebased.value};
      }
    }
    assert done == strings;
    return |news|;
  }

  lemma NoHits(pointers: set<nat>, base: nat)
    ensures Hits({}, pointers, base) == {}
  {
  }

  /** The sum wraps around exactly if it comes out less than what was added to. */
  lemma RebasedIs(a: nat, b: nat)
    requires a <= MAX_ULONG && b <= MAX_ULONG
    ensures AddOverflow(a, b) == if a + b <= MAX_ULONG then Some(a + b) else None
  {
  }

  datatype Match = Match(count: nat, base: nat)

  /** The bases with matches among those that a scan from `start` to `end` looks at. */
  ghost predicate IsMatch(m: Match, strings: set<nat>, pointers: set<nat>, start: nat, end: nat, stride: nat)
    requires stride > 0
  {
    && start <= m.base <= end && Rem(m.base, stride) == 0
    && m.count == |Hits(strings, pointers, m.base)| && m.count > 0
  }

  method FindMatches(strings: set<nat>, pointers: set<nat>, interval: Interval, stride: nat) returns (heap: seq<Match>)
    requires forall s :: s in strings ==> s <= MAX_ULONG
    requires 0 < stride <= MAX_UINT && interval.start <= interval.end <= MAX_UINT && Rem(interval.start, stride) == 0
    ensures forall m :: m in heap <==> IsMatch(m, strings, pointers, interval.start, interval.end, stride)
  {
    hide Hits, Rem;
    heap := [];
    var uBaseAddr := interval.start;
    while uBaseAddr <= interval.end
      invariant interval.start <= uBaseAddr <= interval.end + stride && Rem(uBaseAddr, stride) == 0
      invariant forall m :: m in heap <==>
                  m.base < uBaseAddr && IsMatch(m, strings, pointers, interval.start, interval.end, stride)
      decreases interval.end + stride - uBaseAddr
    {
      var count := CountHits(strings, pointers, uBaseAddr);
      if count > 0 {
        heap := heap + [Match(count, uBaseAddr)];
      }
      var next := AddOverflow(uBaseAddr, stride);
      assert next == Some(uBaseAddr + stride);
      NextMultiple(uBaseAddr, stride);
      uBaseAddr := next.value;
    }
  }

  /** There is no multiple between one and the next. */
  lemma NextMultiple(a: nat, stride: nat)
    requires stride > 0 && Rem(a, stride) == 0
    ensures Rem(a + stride, stride) == 0
    ensures forall b: nat :: a < b < a + stride ==> Rem(b, stride) != 0
  {
    hide Times, Quot, Rem;
    Division(a, stride);
    var q := Quot(a, stride);
    TimesSum(q, 1, stride);
    TimesOne(stride);
    DivModIs(a + stride, stride, q + 1, 0);
    forall b: nat | a < b < a + stride
      ensures Rem(b, stride) != 0
    {
      DivModIs(b, stride, q, b - a);
    }
  }

  /** Together the threads find exactly what a single scan of all addresses finds. */
  lemma {:induction false} ThreadsFindAll(m: Match, strings: set<nat>, pointers: set<nat>, threads: nat, stride: nat)
    requires 0 < threads <= 0x1_0000 && IsPowerOfTwo(stride)
    ensures IsMatch(m, strings, pointers, 0, MAX_UINT, stride) <==>
              exists i: nat :: i < threads && FoundBy(m, strings, pointers, i, threads, stride)
  {
    hide Hits, GetRange;
    RangesAbut(threads - 1, threads, stride);
    if IsMatch(m, strings, pointers, 0, MAX_UINT, stride) {
      var i := ThreadFor(m.base, threads - 1, threads, stride);
      assert FoundBy(m, strings, pointers, i, threads, stride);
    }
    if i: nat :| i < threads && FoundBy(m, strings, pointers, i, threads, stride) {
      RangesAbut(i, threads, stride);
    }
  }

  ghost predicate FoundBy(m: Match, strings: set<nat>, pointers: set<nat>, i: nat, threads: nat, stride: nat)
    requires stride > 0
  {
    var r := GetRange(i, threads, stride);
    r.Ok? && IsMatch(m, strings, pointers, r.value.start, r.value.end, stride)
  }

  lemma {:induction false} ThreadFor(base: nat, last: nat, threads: nat, stride: nat) returns (i: nat)
    requires last < threads <= 0x1_0000 && IsPowerOfTwo(stride)
    requires GetRange(last, threads, stride).Ok? && base <= GetRange(last, threads, stride).value.end
    ensures i < threads && GetRange(i, threads, stride).Ok?
    ensures GetRange(i, threads, stride).value.start <= base <= GetRange(i, threads, stride).value.end
    decreases last
  {
    hide GetRange;
    RangesAbut(last, threads, stride);
    if base >= GetRange(last, threads, stride).value.start {
      i := last;
    } else {
      RangesAbut(last - 1, threads, stride);
      i := ThreadFor(base, last - 1, threads, stride);
    }
  }

  /** A base is found by two neighbouring threads exactly if it is where their ranges meet. */
  lemma FoundTwice(m: Match, strings: set<nat>, pointers: set<nat>, i: nat, threads: nat, stride: nat)
    requires i + 1 < threads <= 0x1_0000 && IsPowerOfTwo(stride)
    ensures GetRange(i, threads, stride).Ok?
    ensures FoundBy(m, strings, pointers, i, threads, stride) && FoundBy(m, strings, pointers, i + 1, threads, stride) <==>
              IsMatch(m, strings, pointers, 0, MAX_UINT, stride) && m.base == GetRange(i, threads, stride).value.end
  {
    hide Hits, GetRange;
    RangesAbut(i, threads, stride);
    RangesAbut(i + 1, threads, stride);
  }
}
