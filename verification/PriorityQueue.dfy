/** The binary heap from which a worker takes its items. */
module PriorityQueues {
  import opened Wrappers

  datatype HeapItem<T> = HeapItem(value: T, priority: int)

  function Parent(i: int): int { (i - 1) / 2 }

  ghost predicate Above<T>(s: seq<HeapItem<T>>, i: int)
    requires 0 < i < |s|
  {
    s[Parent(i)].priority >= s[i].priority
  }

  /** No item has a lower priority than the items below it. */
  ghost predicate IsHeap<T>(s: seq<HeapItem<T>>) {
    forall i :: 0 < i < |s| ==> Above(s, i)
  }

  /** What is required of item `i` while the item at `hole` is about to be written. */
  ghost predicate AboveBut<T>(s: seq<HeapItem<T>>, hole: int, i: int)
    requires 0 < i < |s|
  {
    if i == hole then true
    else if Parent(i) != hole then Above(s, i)
    else 0 < hole < |s| ==> s[Parent(hole)].priority >= s[i].priority
  }

  ghost predicate HeapBut<T>(s: seq<HeapItem<T>>, hole: int) {
    forall i :: 0 < i < |s| ==> AboveBut(s, hole, i)
  }

  ghost predicate Below<T>(s: seq<HeapItem<T>>, hole: int, i: int, priority: int)
    requires 0 < i < |s|
  {
    Parent(i) == hole ==> priority >= s[i].priority
  }

  /** The children of the hole do not have a higher priority than this. */
  ghost predicate AllBelow<T>(s: seq<HeapItem<T>>, hole: int, priority: int) {
    forall i :: 0 < i < |s| ==> Below(s, hole, i, priority)
  }

  lemma {:induction false} RootIsMax<T>(s: seq<HeapItem<T>>, i: nat)
    requires IsHeap(s) && i < |s|
    ensures s[0].priority >= s[i].priority
  {
    if i > 0 {
      assert Above(s, i);
      RootIsMax(s, Parent(i));
    }
  }

  lemma {:induction false} HoleFilled<T>(s: seq<HeapItem<T>>, hole: nat, item: HeapItem<T>)
    requires hole < |s| && HeapBut(s, hole) && AllBelow(s, hole, item.priority)
    requires hole > 0 ==> s[Parent(hole)].priority >= item.priority
    ensures IsHeap(s[hole := item])
  {
    var t := s[hole := item];
    forall i | 0 < i < |t|
      ensures Above(t, i)
    {
      assert AboveBut(s, hole, i) && Below(s, hole, i, item.priority);
    }
  }

  /** The hole moves up: what was above it takes its place. */
  lemma {:induction false} HoleUp<T>(s: seq<HeapItem<T>>, hole: nat, item: HeapItem<T>)
    requires 0 < hole < |s| && HeapBut(s, hole) && AllBelow(s, hole, item.priority)
    requires s[Parent(hole)].priority < item.priority
    ensures var t := s[hole := s[Parent(hole)]];
            HeapBut(t, Parent(hole)) && AllBelow(t, Parent(hole), item.priority)
    ensures multiset(s[hole := s[Parent(hole)]][Parent(hole) := item]) == multiset(s[hole := item])
  {
    var p := Parent(hole);
    var t := s[hole := s[p]];
    forall i | 0 < i < |t|
      ensures AboveBut(t, p, i) && Below(t, p, i, item.priority)
    {
      assert AboveBut(s, hole, i) && Below(s, hole, i, item.priority);
      assert p > 0 ==> AboveBut(s, hole, p);
    }
  }

  /** The hole moves down to the greater of its children, which takes its place. */
  lemma {:induction false} HoleDown<T>(s: seq<HeapItem<T>>, hole: nat, child: nat, item: HeapItem<T>)
    requires hole < |s| && HeapBut(s, hole)
    requires 0 < child < |s| && Parent(child) == hole && AllBelow(s, hole, s[child].priority)
    ensures HeapBut(s[hole := s[child]], child)
    ensures multiset(s[hole := s[child]][child := item]) == multiset(s[hole := item])
  {
    var t := s[hole := s[child]];
    forall i | 0 < i < |t|
      ensures AboveBut(t, child, i)
    {
      assert AboveBut(s, hole, i) && Below(s, hole, i, s[child].priority) && AboveBut(s, hole, child);
    }
  }

  class PriorityQueue<T(0)> {
    var heap: array<HeapItem<T>>
    var count: nat

    ghost predicate Valid()
      reads this, heap
    {
      count <= heap.Length && heap.Length >= 4 && IsHeap(heap[..count])
    }

    ghost function Contents(): seq<HeapItem<T>>
      reads this, heap
      requires count <= heap.Length
    {
      heap[..count]
    }

    constructor ()
      ensures Valid() && fresh(heap) && Contents() == []
    {
      heap := new HeapItem<T>[4];
      count := 0;
    }

    method GrowHeap()
      modifies this`heap
      ensures fresh(heap) && heap.Length == 2 * old(heap.Length) + 1
      ensures heap[..old(heap.Length)] == old(heap[..])
    {
      var newHeap := new HeapItem<T>[heap.Length * 2 + 1];
      forall i | 0 <= i < heap.Length {
        newHeap[i] := heap[i];
      }
      heap := newHeap;
    }

    /** Finds the place of an item on the way from `idx` to the root. */
    method BubbleUp(start: nat, item: HeapItem<T>)
      requires start < count <= heap.Length
      requires HeapBut(heap[..count], start) && AllBelow(heap[..count], start, item.priority)
      modifies heap
      ensures IsHeap(heap[..count]) && multiset(heap[..count]) == multiset(old(heap[..count])[start := item])
    {
      hide IsHeap, HeapBut, AboveBut, AllBelow, Below;
      var idx := start;
      ghost var n := count;
      var iParent := Parent(idx);
      while idx > 0 && heap[iParent].priority < item.priority
        invariant 0 <= idx < count && iParent == Parent(idx)
        invariant HeapBut(heap[..n], idx) && AllBelow(heap[..n], idx, item.priority)
        invariant multiset(heap[..n][idx := item]) == multiset(old(heap[..count])[start := item])
      {
        ghost var s := heap[..n];
        HoleUp(s, idx, item);
        heap[idx] := heap[iParent];
        assert heap[..n] == s[idx := s[iParent]];
        idx := iParent;
        iParent := Parent(idx);
      }
      ghost var s := heap[..n];
      HoleFilled(s, idx, item);
      heap[idx] := item;
      assert heap[..n] == s[idx := item];
    }

    /** Sinks the hole at `start` to a leaf before the item is put where it belongs. */
    method TrickleDown(start: nat, item: HeapItem<T>)
      requires start < count <= heap.Length && HeapBut(heap[..count], start)
      modifies heap
      ensures IsHeap(heap[..count]) && multiset(heap[..count]) == multiset(old(heap[..count])[start := item])
    {
      var idx := start;
      ghost var n := count;
      var iChild := idx * 2 + 1;
      while iChild < count
        invariant 0 <= idx < count && iChild == idx * 2 + 1
        invariant HeapBut(heap[..n], idx)
        invariant multiset(heap[..n][idx := item]) == multiset(old(heap[..count])[start := item])
        decreases count - idx
      {
        if iChild + 1 < count && heap[iChild].priority < heap[iChild + 1].priority {
          iChild := iChild + 1;
        }
        ghost var s := heap[..n];
        OnlyTwoChildren(s, idx, iChild);
        HoleDown(s, idx, iChild, item);
        heap[idx] := heap[iChild];
        assert heap[..n] == s[idx := s[iChild]];
        idx := iChild;
        iChild := idx * 2 + 1;
      }
      BubbleUp(idx, item);
    }

    method Enqueue(value: T, priority: int)
      requires Valid()
      modifies this, heap
      ensures Valid() && (heap == old(heap) || fresh(heap))
      ensures multiset(Contents()) == multiset(old(Contents())) + multiset{HeapItem(value, priority)}
    {
      ghost var before := Contents();
      var item := HeapItem(value, priority);
      count := count + 1;
      if count >= heap.Length {
        GrowHeap();
      }
      assert heap[..count - 1] == before;
      LeafHole(heap[..count], before, item);
      BubbleUp(count - 1, item);
    }

    /** Takes out an item of the highest priority, if there is any item at all. */
    method TryDequeue() returns (found: bool, item: Option<T>, ghost top: Option<HeapItem<T>>)
      requires Valid()
      modifies this`count, heap
      ensures Valid() && found == (old(count) > 0)
      ensures !found ==> item.None? && top.None? && Contents() == old(Contents())
      ensures found ==>
                && top.Some? && item == Some(top.value.value) && top.value in old(Contents())
                && (forall x :: x in old(Contents()) ==> x.priority <= top.value.priority)
                && multiset(Contents()) == multiset(old(Contents())) - multiset{top.value}
                && count == old(count) - 1
    {
      if count <= 0 {
        return false, None, None;
      }
      ghost var before := Contents();
      found, item, top := true, Some(heap[0].value), Some(heap[0]);
      RootIsTop(before);
      RootTaken(before);
      RootHole(before);
      count := count - 1;
      assert heap[..count] == before[..count] && heap[count] == before[count];
      if count > 0 {
        TrickleDown(0, heap[count]);
      } else {
        heap[0] := heap[count];
      }
    }
  }

  lemma OnlyTwoChildren<T>(s: seq<HeapItem<T>>, hole: nat, child: nat)
    requires child < |s| && (child == 2 * hole + 1 || child == 2 * hole + 2)
    requires child == 2 * hole + 1 && child + 1 < |s| ==> s[child].priority >= s[child + 1].priority
    requires child == 2 * hole + 2 ==> s[child - 1].priority < s[child].priority
    ensures Parent(child) == hole && AllBelow(s, hole, s[child].priority)
  {
    forall i | 0 < i < |s|
      ensures Below(s, hole, i, s[child].priority)
    {
      assert Parent(i) == hole ==> i == 2 * hole + 1 || i == 2 * hole + 2;
    }
  }

  /** A heap with one place more, at the end. */
  lemma LeafHole<T>(s: seq<HeapItem<T>>, before: seq<HeapItem<T>>, item: HeapItem<T>)
    requires |s| == |before| + 1 && s[..|before|] == before && IsHeap(before)
    ensures HeapBut(s, |before|) && AllBelow(s, |before|, item.priority)
    ensures multiset(s[|before| := item]) == multiset(before) + multiset{item}
  {
    assert s[|before| := item] == before + [item];
    forall i | 0 < i < |s|
      ensures AboveBut(s, |before|, i) && Below(s, |before|, i, item.priority)
    {
      if i != |before| {
        assert Above(before, i) && before[i] == s[i] && before[Parent(i)] == s[Parent(i)];
      }
    }
  }

  /** A heap without its root, whose place the last item is to take. */
  lemma RootHole<T>(before: seq<HeapItem<T>>)
    requires before != [] && IsHeap(before)
    ensures var n := |before| - 1; IsHeap(before[..n]) && (n > 0 ==> HeapBut(before[..n], 0))
  {
    var n := |before| - 1;
    var rest := before[..n];
    forall i | 0 < i < n
      ensures Above(rest, i) && AboveBut(rest, 0, i)
    {
      assert Above(before, i) && rest[i] == before[i] && rest[Parent(i)] == before[Parent(i)];
    }
  }

  lemma RootTaken<T>(before: seq<HeapItem<T>>)
    requires before != []
    ensures var n := |before| - 1;
            multiset(if n == 0 then [] else before[..n][0 := before[n]]) == multiset(before) - multiset{before[0]}
  {
    var n := |before| - 1;
    assert before == before[..n] + [before[n]];
    assert n > 0 ==> before[..n] == [before[0]] + before[..n][1..];
    assert n > 0 ==> before[..n][0 := before[n]] == [before[n]] + before[..n][1..];
  }

  lemma {:induction false} RootIsTop<T>(s: seq<HeapItem<T>>)
    requires IsHeap(s) && s != []
    ensures forall x :: x in s ==> x.priority <= s[0].priority
  {
    forall x | x in s
      ensures x.priority <= s[0].priority
    {
      var i :| 0 <= i < |s| && s[i] == x;
      RootIsMax(s, i);
    }
  }

  /** The items taken out so far come before all the others, in the order of their priorities. */
  ghost predicate Drained<T>(items: seq<HeapItem<T>>, rest: seq<HeapItem<T>>, all: multiset<HeapItem<T>>) {
    && multiset(items) + multiset(rest) == all
    && (forall i, j :: 0 <= i < j < |items| ==> items[i].priority >= items[j].priority)
    && (forall i, x :: 0 <= i < |items| && x in rest ==> items[i].priority >= x.priority)
  }

  lemma DrainOne<T>(items: seq<HeapItem<T>>, rest: seq<HeapItem<T>>, rest': seq<HeapItem<T>>, top: HeapItem<T>, all: multiset<HeapItem<T>>)
    requires Drained(items, rest, all) && top in rest
    requires forall x :: x in rest ==> x.priority <= top.priority
    requires multiset(rest') == multiset(rest) - multiset{top}
    ensures Drained(items + [top], rest', all)
  {
    assert multiset(items + [top]) == multiset(items) + multiset{top};
    forall x | x in rest'
      ensures x in rest
    {
      assert x in multiset(rest') && x in multiset(rest);
    }
    assert top in multiset(rest);
  }

  /** Taking items out until there are none left gives all of them in the order of their priorities. */
  method Drain<T(0)>(q: PriorityQueue<T>) returns (values: seq<T>, ghost items: seq<HeapItem<T>>)
    requires q.Valid()
    modifies q, q.heap
    ensures |values| == |items| && forall i :: 0 <= i < |items| ==> values[i] == items[i].value
    ensures multiset(items) == multiset(old(q.Contents()))
    ensures forall i, j :: 0 <= i < j < |items| ==> items[i].priority >= items[j].priority
  {
    hide Drained, IsHeap;
    values, items := [], [];
    DrainNone(q.Contents());
    while q.count > 0
      invariant q.Valid() && q.heap == old(q.heap)
      invariant |values| == |items| && forall i :: 0 <= i < |items| ==> values[i] == items[i].value
      invariant Drained(items, q.Contents(), multiset(old(q.Contents())))
      decreases q.count
    {
      ghost var before := q.Contents();
      var _, item, top := q.TryDequeue();
      DrainOne(items, before, q.Contents(), top.value, multiset(old(q.Contents())));
      values, items := values + [item.value], items + [top.value];
    }
    assert q.Contents() == [];
    DrainedAll(items, multiset(old(q.Contents())));
  }

  lemma DrainNone<T>(rest: seq<HeapItem<T>>)
    ensures Drained([], rest, multiset(rest))
  {
  }

  lemma DrainedAll<T>(items: seq<HeapItem<T>>, all: multiset<HeapItem<T>>)
    requires Drained(items, [], all)
    ensures multiset(items) == all
    ensures forall i, j :: 0 <= i < j < |items| ==> items[i].priority >= items[j].priority
  {
  }
}
