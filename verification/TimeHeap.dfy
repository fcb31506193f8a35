/** time_heap.h: timers in an array heap on expiry, deleted lazily. As the declarations show, line 89 means
    array[parent] and line 155 means array[hole]; that is what is modelled. */
module TimeHeapModel {
  class HeapTimer {
    const id: nat
    const expire: int
    var hasCallback: bool  // cb_func != NULL

    constructor (id: nat, expire: int)
      ensures this.id == id && this.expire == expire && hasCallback
    {
      this.id, this.expire, hasCallback := id, expire, true;
    }
  }

  function Key(t: HeapTimer?): int {
    if t == null then 0 else t.expire
  }

  function Parent(i: nat): (p: nat)
    requires i > 0
    ensures 2 * p + 1 == i || 2 * p + 2 == i
  {
    (i - 1) / 2
  }

  function Swap(s: seq<HeapTimer?>, i: nat, j: nat): (r: seq<HeapTimer?>)
    requires i < |s| && j < |s|
  {
    s[i := s[j]][j := s[i]]
  }

  ghost predicate NonNull(s: seq<HeapTimer?>) {
    forall i :: 0 <= i < |s| ==> s[i] != null
  }

  ghost predicate InOrder(s: seq<HeapTimer?>, i: nat)
    requires 0 < i < |s|
  {
    Key(s[Parent(i)]) <= Key(s[i])
  }

  /** Heap order below every node from `from` on. */
  ghost predicate HeapFrom(s: seq<HeapTimer?>, from: nat) {
    forall i :: 0 < i < |s| && Parent(i) >= from ==> InOrder(s, i)
  }

  ghost predicate Heap(s: seq<HeapTimer?>) {
    forall i :: 0 < i < |s| ==> InOrder(s, i)
  }

  /** Sifting down: only the children of hole may be out of order, and they fit below hole's parent. */
  ghost predicate SinkingAt(s: seq<HeapTimer?>, from: nat, hole: nat)
    requires hole < |s|
  {
    && (forall i :: 0 < i < |s| && Parent(i) >= from && Parent(i) != hole ==> InOrder(s, i))
    && (hole > 0 && Parent(hole) >= from ==>
          forall i :: 0 < i < |s| && Parent(i) == hole ==> Key(s[Parent(hole)]) <= Key(s[i]))
  }

  /** Sifting up: only hole may be out of order with its parent, and its children fit below that parent. */
  ghost predicate RisingAt(s: seq<HeapTimer?>, hole: nat)
    requires hole < |s|
  {
    && (forall i :: 0 < i < |s| && i != hole ==> InOrder(s, i))
    && (hole > 0 ==> forall i :: 0 < i < |s| && Parent(i) == hole ==> Key(s[Parent(hole)]) <= Key(s[i]))
  }

  lemma SwapKeeps(s: seq<HeapTimer?>, i: nat, j: nat)
    requires i < |s| && j < |s| && i != j
    ensures multiset(Swap(s, i, j)) == multiset(s) && (NonNull(s) ==> NonNull(Swap(s, i, j)))
  {
  }

  lemma SinkStart(s: seq<HeapTimer?>, start: nat)
    requires start < |s| && HeapFrom(s, start + 1)
    ensures SinkingAt(s, start, start)
  {
  }

  lemma NonNullAt(s: seq<HeapTimer?>, i: nat)
    requires NonNull(s) && i < |s|
    ensures s[i] != null
  {
  }

  lemma LesserChildIs(s: seq<HeapTimer?>, hole: nat, child: nat)
    requires child < |s| && (child == 2 * hole + 1 || child == 2 * hole + 2)
    requires child == 2 * hole + 1 && child + 1 < |s| ==> Key(s[child]) <= Key(s[child + 1])
    requires child == 2 * hole + 2 ==> Key(s[child]) <= Key(s[child - 1])
    ensures Parent(child) == hole && forall i :: 0 < i < |s| && Parent(i) == hole ==> Key(s[child]) <= Key(s[i])
  {
  }

  lemma NoChildren(s: seq<HeapTimer?>, hole: nat)
    ensures 2 * hole + 1 > |s| - 1 ==> forall i :: 0 < i < |s| ==> Parent(i) != hole
  {
  }

  lemma SinkStep(s: seq<HeapTimer?>, from: nat, hole: nat, child: nat)
    requires hole < |s| && 0 < child < |s| && Parent(child) == hole && SinkingAt(s, from, hole)
    requires Key(s[child]) < Key(s[hole]) && from <= hole
    requires forall i :: 0 < i < |s| && Parent(i) == hole ==> Key(s[child]) <= Key(s[i])
    ensures SinkingAt(Swap(s, hole, child), from, child)
  {
    hide Parent;
    var r := Swap(s, hole, child);
    forall i | 0 < i < |r| && Parent(i) >= from && Parent(i) != child
      ensures InOrder(r, i)
    {
      assert Parent(i) != hole ==> InOrder(s, i);
    }
    forall i | 0 < i < |r| && Parent(i) == child
      ensures Key(r[hole]) <= Key(r[i])
    {
      assert InOrder(s, i);
    }
  }

  lemma SinkDone(s: seq<HeapTimer?>, from: nat, hole: nat)
    requires hole < |s| && SinkingAt(s, from, hole)
    requires forall i :: 0 < i < |s| && Parent(i) == hole ==> Key(s[hole]) <= Key(s[i])
    ensures HeapFrom(s, from)
  {
    forall i | 0 < i < |s| && Parent(i) >= from
      ensures InOrder(s, i)
    {
    }
  }

  lemma RiseStep(s: seq<HeapTimer?>, hole: nat)
    requires 0 < hole < |s| && RisingAt(s, hole) && Key(s[hole]) < Key(s[Parent(hole)])
    ensures RisingAt(Swap(s, hole, Parent(hole)), Parent(hole))
  {
    hide Parent;
    var p := Parent(hole);
    var r := Swap(s, hole, p);
    forall i | 0 < i < |r| && i != p
      ensures InOrder(r, i)
    {
      if i != hole { assert InOrder(s, i); }
    }
    if p > 0 {
      assert InOrder(s, p);
      forall i | 0 < i < |r| && Parent(i) == p
        ensures Key(r[Parent(p)]) <= Key(r[i])
      {
        if i != hole { assert InOrder(s, i); }
      }
    }
  }

  lemma RiseDone(s: seq<HeapTimer?>, hole: nat)
    requires hole < |s| && RisingAt(s, hole) && (hole > 0 ==> InOrder(s, hole))
    ensures Heap(s)
  {
  }

  lemma {:induction false} RootIsLeast(s: seq<HeapTimer?>, i: nat)
    requires Heap(s) && i < |s|
    ensures Key(s[0]) <= Key(s[i])
  {
    if i > 0 {
      assert InOrder(s, i);
      RootIsLeast(s, Parent(i));
    }
  }

  class TimeHeap {
    var arr: array<HeapTimer?>
    var capacity: nat
    var curSize: nat

    ghost function Timers(): seq<HeapTimer?>
      reads this, arr
      requires curSize <= arr.Length
    {
      arr[..curSize]
    }

    ghost predicate Sized()
      reads this, arr
    {
      arr.Length == capacity && curSize <= capacity && NonNull(Timers())
    }

    ghost predicate Valid()
      reads this, arr
    {
      Sized() && Heap(Timers())
    }

    constructor Empty(cap: nat)
      ensures Valid() && Timers() == [] && capacity == cap && fresh(arr)
    {
      arr := new HeapTimer?[cap](_ => null);
      capacity, curSize := cap, 0;
    }

    /** The array with tmp in the hole. */
    ghost predicate Filled(v: seq<HeapTimer?>, hole: nat, tmp: HeapTimer?)
      reads this, arr
    {
      && hole < curSize == |v| && curSize <= arr.Length && v[hole] == tmp
      && forall k :: 0 <= k < curSize && k != hole ==> arr[k] == v[k]
    }

    /** The hole moves to j; where it was, j's timer now is. */
    method MoveHole(hole: nat, j: nat, ghost v: seq<HeapTimer?>, ghost tmp: HeapTimer?)
      requires Filled(v, hole, tmp) && j < curSize && j != hole
      modifies arr
      ensures Filled(Swap(v, hole, j), j, tmp) && arr[..] == old(arr[..][hole := arr[j]])
    {
      arr[hole] := arr[j];
    }

    /** Lines 150-153. */
    method LesserChild(hole: nat, ghost v: seq<HeapTimer?>, ghost tmp: HeapTimer?) returns (child: nat)
      requires Filled(v, hole, tmp) && NonNull(v) && hole * 2 + 1 <= curSize - 1
      ensures hole < child < curSize && Parent(child) == hole && arr[child] != null && arr[child] == v[child]
      ensures forall i :: 0 < i < curSize && Parent(i) == hole ==> Key(v[child]) <= Key(v[i])
    {
      child := hole * 2 + 1;
      if child < curSize - 1 && arr[child + 1].expire < arr[child].expire {
        child := child + 1;
      }
      LesserChildIs(v, hole, child);
    }

    method PercolateDown(start: nat)
      requires Sized() && start < curSize && HeapFrom(Timers(), start + 1)
      modifies arr
      ensures Sized() && HeapFrom(Timers(), start) && multiset(Timers()) == old(multiset(Timers()))
      ensures arr[..start] == old(arr[..start]) && arr[curSize..] == old(arr[curSize..])
    {
      hide SinkingAt, Parent, Swap, HeapFrom, NonNull;
      var hole := start;
      var tmp := arr[hole];
      ghost var v := Timers();
      NonNullAt(v, hole);
      SinkStart(v, start);
      while hole * 2 + 1 <= curSize - 1
        invariant start <= hole && Filled(v, hole, tmp)
        invariant NonNull(v) && SinkingAt(v, start, hole) && multiset(v) == old(multiset(Timers()))
        invariant arr[..start] == old(arr[..start]) && arr[curSize..] == old(arr[curSize..])
        decreases curSize - hole
      {
        var child := LesserChild(hole, v, tmp);
        if arr[child].expire < tmp.expire {
          SinkStep(v, start, hole, child);
          SwapKeeps(v, hole, child);
          MoveHole(hole, child, v, tmp);
          v := Swap(v, hole, child);
        } else {
          break;
        }
        hole := child;
      }
      NoChildren(v, hole);
      SinkDone(v, start, hole);
      arr[hole] := tmp;
      assert Timers() == v;
    }

    /** The constructor from an array of timers; null stands for its exception. */
    static method FromArray(init: seq<HeapTimer>, cap: nat) returns (heap: TimeHeap?)
      ensures heap == null <==> cap < |init|
      ensures heap != null ==> fresh(heap) && fresh(heap.arr) && heap.Valid() && heap.capacity == cap
      ensures heap != null ==> multiset(heap.Timers()) == multiset(Nullable(init))
    {
      if cap < |init| {
        return null;
      }
      heap := new TimeHeap.Empty(cap);
      ghost var all := Nullable(init);
      forall i | 0 <= i < |init| {
        heap.arr[i] := init[i];
      }
      heap.curSize := |init|;
      assert heap.Timers() == all;
      if |init| != 0 {
        heap.Heapify();
      } else {
        assert Heap(heap.Timers());
      }
    }

    /** Lines 60-62. */
    method Heapify()
      requires Sized() && curSize > 0
      modifies arr
      ensures Valid() && multiset(Timers()) == old(multiset(Timers()))
    {
      hide HeapFrom, Heap, Parent, NonNull;
      var i := (curSize - 1) / 2;
      LeavesAreHeaps(Timers(), i + 1);
      while i >= 0
        invariant -1 <= i < curSize && Sized() && HeapFrom(Timers(), i + 1)
        invariant multiset(Timers()) == old(multiset(Timers()))
        decreases i
      {
        PercolateDown(i);
        i := i - 1;
      }
      WholeHeap(Timers());
    }

    method Resize()
      requires Valid()
      modifies this`arr, this`capacity
      ensures Valid() && fresh(arr) && capacity == 2 * old(capacity) && Timers() == old(Timers())
    {
      hide Heap, NonNull;
      var tmp := new HeapTimer?[2 * capacity](_ => null);
      ghost var before := Timers();
      forall i | 0 <= i < curSize {
        tmp[i] := arr[i];
      }
      assert tmp[..curSize] == before;
      capacity := 2 * capacity;
      arr := tmp;
    }

    /** Doubling a zero capacity makes no room, so the capacity must be positive. */
    method AddTimer(timer: HeapTimer?)
      requires Valid() && capacity > 0
      modifies this, arr
      ensures Valid() && (arr == old(arr) || fresh(arr))
      ensures multiset(Timers()) == old(multiset(Timers())) + if timer == null then multiset{} else multiset{timer}
      ensures capacity == if timer != null && old(curSize) >= old(capacity) then 2 * old(capacity) else old(capacity)
    {
      if timer == null {
        return;
      }
      if curSize >= capacity {
        Resize();
      }
      ghost var before := Timers();
      curSize := curSize + 1;
      PercolateUp(timer, before);
    }

    /** Lines 82-91, the size already raised: the last slot is a hole. */
    method PercolateUp(timer: HeapTimer, ghost before: seq<HeapTimer?>)
      requires arr.Length == capacity && 0 < curSize <= capacity
      requires before == arr[..curSize - 1] && NonNull(before) && Heap(before)
      modifies arr
      ensures Valid() && multiset(Timers()) == multiset(before) + multiset{timer}
    {
      hide RisingAt, Parent, Swap, Heap, NonNull;
      var hole: nat := curSize - 1;
      ghost var v := before + [timer];
      RiseStart(before, timer);
      while hole > 0
        invariant Filled(v, hole, timer) && NonNull(v) && RisingAt(v, hole)
        invariant multiset(v) == multiset(before) + multiset{timer}
        decreases hole
      {
        var parent := Parent(hole);
        NonNullAt(v, parent);
        if arr[parent].expire <= timer.expire {
          break;
        }
        RiseStep(v, hole);
        SwapKeeps(v, hole, parent);
        MoveHole(hole, parent, v, timer);
        v := Swap(v, hole, parent);
        hole := parent;
      }
      RiseDone(v, hole);
      arr[hole] := timer;
      assert Timers() == v;
    }

    method PopTimer()
      requires Valid()
      modifies this`curSize, arr
      ensures Valid() && (if old(curSize) == 0 then Timers() == old(Timers()) else curSize == old(curSize) - 1)
      ensures old(curSize) > 0 ==> multiset(Timers()) + multiset{old(Timers()[0])} == old(multiset(Timers()))
    {
      if curSize == 0 {
        return;
      }
      ghost var v := Timers();
      curSize := curSize - 1;
      arr[0] := arr[curSize];
      if curSize > 0 {  // with no timer left percolate_down only writes array[0] back
        LastToFront(v);
        assert Timers() == v[0 := v[curSize]][..curSize];
        PercolateDown(0);
        WholeHeap(Timers());
      } else {
        assert v == [v[0]];
      }
    }

    /** tick() at clock value cur: `popped` lists the timers removed, `fired` those whose callback ran. */
    method Tick(cur: int) returns (fired: seq<HeapTimer?>, ghost popped: seq<HeapTimer?>)
      requires Valid()
      modifies this`curSize, arr
      ensures Valid() && multiset(popped) + multiset(Timers()) == old(multiset(Timers()))
      ensures Ascending(popped) && Due(popped, cur) && NoneDue(Timers(), cur)
      ensures fired == WithCallback(popped)
    {
      hide Heap, NonNull, Ascending, Due, NoneDue, WithCallback, Popped;
      fired, popped := [], [];
      ghost var all := multiset(Timers());
      StartPopping(cur);
      while curSize > 0
        invariant Popped(popped, cur, all) && fired == WithCallback(popped)
        decreases curSize
      {
        var tmp := Top(popped, cur, all);
        if tmp.expire > cur {
          break;
        }
        MoreRuns(popped, tmp);
        if tmp.hasCallback {
          fired := fired + [tmp];
        }
        PopDue(popped, cur, all);
        popped := popped + [tmp];
      }
      DonePopping(popped, cur, all);
    }

    /** Some of the timers are popped, in order, and the heap holds the others. */
    ghost predicate Popped(popped: seq<HeapTimer?>, cur: int, all: multiset<HeapTimer?>)
      reads this, arr
    {
      && Valid() && multiset(popped) + multiset(Timers()) == all
      && Ascending(popped) && Due(popped, cur) && Below(popped, Timers())
    }

    lemma StartPopping(cur: int)
      requires Valid()
      ensures Popped([], cur, multiset(Timers())) && WithCallback([]) == []
    {
    }

    lemma DonePopping(popped: seq<HeapTimer?>, cur: int, all: multiset<HeapTimer?>)
      requires Popped(popped, cur, all) && (curSize > 0 ==> Key(arr[0]) > cur)
      ensures Valid() && multiset(popped) + multiset(Timers()) == all
      ensures Ascending(popped) && Due(popped, cur) && NoneDue(Timers(), cur)
    {
      hide Heap, NonNull, Ascending, Due, NoneDue, Below;
      if curSize > 0 {
        RootNotDue(Timers(), cur);
      } else {
        EmptyNotDue(cur);
        assert Timers() == [];
      }
    }

    method Top(ghost popped: seq<HeapTimer?>, ghost cur: int, ghost all: multiset<HeapTimer?>) returns (tmp: HeapTimer?)
      requires Popped(popped, cur, all) && curSize > 0
      ensures tmp != null && Timers()[0] == tmp
    {
      tmp := arr[0];
    }

    method PopDue(ghost popped: seq<HeapTimer?>, ghost cur: int, ghost all: multiset<HeapTimer?>)
      requires Popped(popped, cur, all) && curSize > 0 && arr[0] != null && arr[0].expire <= cur
      modifies this`curSize, arr
      ensures Popped(popped + [old(arr[0])], cur, all) && curSize < old(curSize)
    {
      hide Heap, NonNull, Ascending, Due, Below;
      ghost var before := Timers();
      OnePopped(popped, before, cur);
      PopTimer();
      PoppedBelow(popped, before, Timers());
    }
  }

  /** Lazy deletion. */
  method DelTimer(timer: HeapTimer?)
    modifies timer
    ensures timer != null ==> !timer.hasCallback
  {
    if timer != null {
      timer.hasCallback := false;
    }
  }

  function Nullable(s: seq<HeapTimer>): (r: seq<HeapTimer?>) {
    seq(|s|, i requires 0 <= i < |s| => s[i])
  }

  ghost predicate Ascending(s: seq<HeapTimer?>) {
    forall i, j :: 0 <= i < j < |s| ==> Key(s[i]) <= Key(s[j])
  }

  ghost predicate Due(s: seq<HeapTimer?>, cur: int) {
    forall t :: t in s ==> t != null && Key(t) <= cur
  }

  ghost predicate NoneDue(s: seq<HeapTimer?>, cur: int) {
    forall t :: t in s ==> Key(t) > cur
  }

  ghost predicate Below(s: seq<HeapTimer?>, r: seq<HeapTimer?>) {
    forall t, u :: t in s && u in r ==> Key(t) <= Key(u)
  }

  /** The timers that were not lazily deleted. */
  function WithCallback(s: seq<HeapTimer?>): seq<HeapTimer?>
    reads set t | t in s && t != null
  {
    if s == [] then [] else
      WithCallback(s[..|s| - 1]) +
      if s[|s| - 1] != null && s[|s| - 1].hasCallback then [s[|s| - 1]] else []
  }

  lemma EmptyNotDue(cur: int)
    ensures NoneDue([], cur)
  {
  }

  lemma RootNotDue(s: seq<HeapTimer?>, cur: int)
    requires Heap(s) && s != [] && Key(s[0]) > cur
    ensures NoneDue(s, cur)
  {
    forall i | 0 <= i < |s| ensures Key(s[i]) > cur {
      RootIsLeast(s, i);
    }
  }

  /** The root goes behind everything popped so far. */
  lemma OnePopped(popped: seq<HeapTimer?>, s: seq<HeapTimer?>, cur: int)
    requires Ascending(popped) && Due(popped, cur) && Below(popped, s) && s != [] && s[0] != null && Key(s[0]) <= cur
    ensures Ascending(popped + [s[0]]) && Due(popped + [s[0]], cur)
  {
    assert forall i :: 0 <= i < |popped| ==> popped[i] in popped;
  }

  lemma MoreRuns(popped: seq<HeapTimer?>, t: HeapTimer)
    ensures WithCallback(popped + [t]) == WithCallback(popped) + if t.hasCallback then [t] else []
  {
    assert (popped + [t])[..|popped|] == popped;
  }

  lemma PoppedBelow(popped: seq<HeapTimer?>, s: seq<HeapTimer?>, r: seq<HeapTimer?>)
    requires Below(popped, s) && Heap(s) && s != [] && multiset(r) + multiset{s[0]} == multiset(s)
    ensures Below(popped + [s[0]], r)
  {
    forall u | u in r
      ensures u in s && Key(s[0]) <= Key(u)
    {
      assert u in multiset(r);
      assert u in multiset(s);
      var i :| 0 <= i < |s| && s[i] == u;
      RootIsLeast(s, i);
    }
  }

  lemma LeavesAreHeaps(s: seq<HeapTimer?>, from: nat)
    requires |s| > 0 && from == (|s| - 1) / 2 + 1
    ensures HeapFrom(s, from)
  {
  }

  lemma WholeHeap(s: seq<HeapTimer?>)
    ensures HeapFrom(s, 0) <==> Heap(s)
  {
  }

  lemma RiseStart(s: seq<HeapTimer?>, t: HeapTimer)
    requires Heap(s) && NonNull(s)
    ensures RisingAt(s + [t], |s|) && NonNull(s + [t])
  {
    hide Parent;
    forall i | 0 < i < |s|
      ensures InOrder(s + [t], i)
    {
      assert InOrder(s, i);
    }
  }

  lemma LastToFront(s: seq<HeapTimer?>)
    requires Heap(s) && NonNull(s) && |s| > 1
    ensures var r := s[0 := s[|s| - 1]][..|s| - 1];
            HeapFrom(r, 1) && NonNull(r) && multiset(r) + multiset{s[0]} == multiset(s)
  {
    var n := |s| - 1;
    var r := s[0 := s[n]][..n];
    assert s == [s[0]] + s[1..n] + [s[n]];
    assert r == [s[n]] + s[1..n];
    forall i | 0 < i < |r| && Parent(i) >= 1
      ensures InOrder(r, i)
    {
      assert InOrder(s, i);
    }
  }
}
