/** Two timer queues, one meaning: sort_timer_list.cpp (eager deletion) and time_heap.h (lazy deletion), driven by the
    same calls, run the callbacks that an abstract set of pending timers says, each in order of expiry. */
module TimerQueues {
  import L = SortTimerListModel
  import H = TimeHeapModel
  import opened Seqs

  datatype Timer = Timer(id: nat, expire: int)

  datatype Op = Add(t: Timer) | Del(id: nat) | Tick(cur: int)

  // ---- the abstract queue: the pending timers and their expiry times ----

  function Survivors(m: map<nat, int>, cur: int): map<nat, int> {
    map id | id in m && m[id] > cur :: m[id]
  }

  function Step(m: map<nat, int>, op: Op): map<nat, int> {
    match op
    case Add(t) => m[t.id := t.expire]
    case Del(id) => m - {id}
    case Tick(cur) => Survivors(m, cur)
  }

  /** Added timers are new, deleted ones still pending. */
  predicate Lawful(m: map<nat, int>, op: Op) {
    match op
    case Add(t) => t.id !in m
    case Del(id) => id in m
    case Tick(_) => true
  }

  predicate AllLawful(m: map<nat, int>, ops: seq<Op>)
    decreases |ops|
  {
    ops == [] || (Lawful(m, ops[0]) && AllLawful(Step(m, ops[0]), ops[1..]))
  }

  /** A tick at cur runs every due timer's callback exactly once, no other, in order of expiry. */
  ghost predicate Fires(m: map<nat, int>, cur: int, fired: seq<Timer>) {
    && (forall t :: t in fired ==> t.id in m && m[t.id] == t.expire <= cur)
    && (forall id :: id in m && m[id] <= cur ==> Timer(id, m[id]) in fired)
    && (forall i, j :: 0 <= i < j < |fired| ==> fired[i] != fired[j] && fired[i].expire <= fired[j].expire)
  }

  /** What the calls `ops` make a queue run, one entry per call, empty but for ticks. */
  ghost predicate Outcome(m: map<nat, int>, ops: seq<Op>, out: seq<seq<Timer>>)
    decreases |ops|
  {
    if ops == [] then out == [] else
      && out != []
      && (if ops[0].Tick? then Fires(m, ops[0].cur, out[0]) else out[0] == [])
      && Outcome(Step(m, ops[0]), ops[1..], out[1..])
  }

  ghost predicate Ascending(fired: seq<Timer>) {
    forall i, j :: 0 <= i < j < |fired| ==> fired[i].expire <= fired[j].expire
  }

  lemma {:induction false} SameMultiset(a: seq<Timer>, b: seq<Timer>)
    requires forall i, j :: 0 <= i < j < |a| ==> a[i] != a[j]
    requires forall i, j :: 0 <= i < j < |b| ==> b[i] != b[j]
    requires forall t :: t in a <==> t in b
    ensures multiset(a) == multiset(b)
  {
    forall t ensures multiset(a)[t] == multiset(b)[t] {
      CountDistinct(a, t);
      CountDistinct(b, t);
    }
  }

  lemma {:induction false} CountDistinct(a: seq<Timer>, t: Timer)
    requires forall i, j :: 0 <= i < j < |a| ==> a[i] != a[j]
    ensures multiset(a)[t] == if t in a then 1 else 0
  {
    if a != [] {
      assert a == a[..|a| - 1] + [a[|a| - 1]];
      CountDistinct(a[..|a| - 1], t);
    }
  }

  /** The two queues agree on every run, tick by tick. */
  lemma {:induction false} QueuesAgree(m: map<nat, int>, ops: seq<Op>, a: seq<seq<Timer>>, b: seq<seq<Timer>>)
    requires Outcome(m, ops, a) && Outcome(m, ops, b)
    ensures |a| == |b| == |ops|
    ensures forall i :: 0 <= i < |ops| ==> multiset(a[i]) == multiset(b[i]) && Ascending(a[i]) && Ascending(b[i])
    decreases |ops|
  {
    if ops != [] {
      if ops[0].Tick? { SameMultiset(a[0], b[0]); }
      QueuesAgree(Step(m, ops[0]), ops[1..], a[1..], b[1..]);
      forall i | 0 <= i < |ops|
        ensures multiset(a[i]) == multiset(b[i]) && Ascending(a[i]) && Ascending(b[i])
      {
        if i > 0 { assert a[i] == a[1..][i - 1] && b[i] == b[1..][i - 1]; }
      }
    }
  }

  /** A run and one more call. */
  lemma {:induction false} OutcomeSnoc(m: map<nat, int>, ops: seq<Op>, out: seq<seq<Timer>>, op: Op, fired: seq<Timer>)
    requires Outcome(m, ops, out)
    requires if op.Tick? then Fires(After(m, ops), op.cur, fired) else fired == []
    ensures Outcome(m, ops + [op], out + [fired]) && After(m, ops + [op]) == Step(After(m, ops), op)
    decreases |ops|
  {
    hide Fires;
    if ops == [] {
      assert (ops + [op])[1..] == [] && (out + [fired])[1..] == [];
    } else {
      assert (ops + [op])[1..] == ops[1..] + [op] && (out + [fired])[1..] == out[1..] + [fired];
      OutcomeSnoc(Step(m, ops[0]), ops[1..], out[1..], op, fired);
    }
  }

  function After(m: map<nat, int>, ops: seq<Op>): map<nat, int>
    decreases |ops|
  {
    if ops == [] then m else After(Step(m, ops[0]), ops[1..])
  }

  lemma {:induction false} LawfulAt(m: map<nat, int>, ops: seq<Op>, i: nat)
    requires AllLawful(m, ops) && i < |ops|
    ensures Lawful(After(m, ops[..i]), ops[i])
    decreases i
  {
    if i > 0 {
      LawfulAt(Step(m, ops[0]), ops[1..], i - 1);
      assert ops[..i][1..] == ops[1..][..i - 1];
    }
  }

  // ---- the sorted list ----

  function ListTimers(ts: seq<L.UtilTimer>): (r: seq<Timer>)
    reads ts`expire
    ensures |r| == |ts| && forall i :: 0 <= i < |r| ==> r[i] == Timer(ts[i].id, ts[i].expire)
  {
    if ts == [] then [] else ListTimers(ts[..|ts| - 1]) + [Timer(ts[|ts| - 1].id, ts[|ts| - 1].expire)]
  }

  /** ts holds the pending timers, each once; `at` finds them. */
  ghost predicate ListHolds(ts: seq<L.UtilTimer>, at: map<nat, L.UtilTimer>, m: map<nat, int>)
    reads ts`expire
  {
    && (forall id :: id in m ==> id in at && at[id] in ts && at[id].id == id)
    && (forall t :: t in ts ==> t.id in m && t.id in at && at[t.id] == t && t.expire == m[t.id])
  }

  lemma ListAdded(ts: seq<L.UtilTimer>, t: L.UtilTimer, at: map<nat, L.UtilTimer>, m: map<nat, int>)
    requires ListHolds(ts, at, m) && t.id !in m
    ensures t !in ts && ListHolds(L.Inserted(ts, t), at[t.id := t], m[t.id := t.expire])
  {
    InsertedMembers(ts, t);
    OneMore(ts, L.Inserted(ts, t), t, at, m);
  }

  lemma OneMore(ts: seq<L.UtilTimer>, us: seq<L.UtilTimer>, t: L.UtilTimer, at: map<nat, L.UtilTimer>, m: map<nat, int>)
    requires ListHolds(ts, at, m) && t.id !in m && forall u :: u in us <==> u in ts || u == t
    ensures ListHolds(us, at[t.id := t], m[t.id := t.expire])
  {
  }

  lemma InsertedMembers(ts: seq<L.UtilTimer>, t: L.UtilTimer)
    ensures forall u :: u in L.Inserted(ts, t) <==> u in ts || u == t
  {
    var k := L.Place(ts, t.expire);
    assert ts == ts[..k] + ts[k..];
  }

  lemma ListRemoved(ts: seq<L.UtilTimer>, k: nat, at: map<nat, L.UtilTimer>, m: map<nat, int>)
    requires ListHolds(ts, at, m) && k < |ts| && NoDup(ts)
    ensures ListHolds(Removed(ts, k), at, m - {ts[k].id})
  {
    assert ts == ts[..k] + [ts[k]] + ts[k + 1..];
    assert ts[k] !in Removed(ts, k);
  }

  lemma Sides(ts: seq<L.UtilTimer>, cur: int)
    requires L.Sorted(ts)
    ensures var k := L.Place(ts, cur);
            && (forall t :: t in ts[..k] ==> t in ts && t.expire <= cur)
            && (forall t :: t in ts[k..] ==> t in ts && t.expire > cur)
            && (forall t :: t in ts ==> t in ts[..k] || t in ts[k..])
  {
    var k := L.Place(ts, cur);
    assert ts == ts[..k] + ts[k..];
  }

  lemma ListSurvives(ts: seq<L.UtilTimer>, cur: int, at: map<nat, L.UtilTimer>, m: map<nat, int>)
    requires ListHolds(ts, at, m) && L.Sorted(ts)
    ensures ListHolds(ts[L.Place(ts, cur)..], at, Survivors(m, cur))
  {
    Sides(ts, cur);
    hide L.Place, L.Sorted;
  }

  lemma ListFires(ts: seq<L.UtilTimer>, cur: int, at: map<nat, L.UtilTimer>, m: map<nat, int>)
    requires ListHolds(ts, at, m) && NoDup(ts) && L.Sorted(ts)
    ensures Fires(m, cur, ListTimers(ts[..L.Place(ts, cur)]))
  {
    Sides(ts, cur);
    PrefixOrdered(ts, L.Place(ts, cur));
    hide L.Place, ListTimers, L.Sorted, NoDup, Fires;
    ListRunFires(ts, ts[..L.Place(ts, cur)], cur, at, m);
  }

  lemma PrefixOrdered(ts: seq<L.UtilTimer>, k: nat)
    requires NoDup(ts) && L.Sorted(ts) && k <= |ts|
    ensures NoDup(ts[..k]) && L.Sorted(ts[..k])
  {
  }

  lemma ListRunFires(ts: seq<L.UtilTimer>, run: seq<L.UtilTimer>, cur: int, at: map<nat, L.UtilTimer>, m: map<nat, int>)
    requires ListHolds(ts, at, m) && L.Sorted(run) && NoDup(run)
    requires forall t :: t in run ==> t in ts && t.expire <= cur
    requires forall t :: t in ts && t.expire <= cur ==> t in run
    ensures Fires(m, cur, ListTimers(run))
  {
    hide ListTimers;
    var fired := ListTimers(run);
    forall id | id in m && m[id] <= cur
      ensures Timer(id, m[id]) in fired
    {
      var i :| 0 <= i < |run| && run[i] == at[id];
      assert fired[i] == Timer(id, m[id]);
    }
    forall i, j | 0 <= i < j < |fired|
      ensures fired[i] != fired[j] && fired[i].expire <= fired[j].expire
    {
      assert run[i] in run && run[j] in run && at[run[i].id] == run[i];
    }
  }

  /** An application that keeps its timers in the sorted list. */
  class ListClient {
    const queue: L.SortTimerList
    var at: map<nat, L.UtilTimer>

    ghost predicate Holds(m: map<nat, int>)
      reads this, queue, queue.timers
    {
      queue.Valid() && ListHolds(queue.timers, at, m)
    }

    constructor ()
      ensures Holds(map[]) && fresh(queue) && queue.timers == []
    {
      queue := new L.SortTimerList();
      at := map[];
    }

    method Add(t: Timer, ghost m: map<nat, int>)
      requires Holds(m) && t.id !in m
      modifies this`at, queue, set t | t in queue.timers
      ensures Holds(m[t.id := t.expire]) && forall t :: t in queue.timers ==> t in old(queue.timers) || fresh(t)
    {
      hide L.Inserted, L.SortTimerList.Valid, ListHolds;
      var timer := new L.UtilTimer(t.id, t.expire);
      ListAdded(queue.timers, timer, at, m);
      InsertedMembers(queue.timers, timer);
      ghost var ts, at', m' := L.Inserted(queue.timers, timer), at[t.id := timer], m[t.id := t.expire];
      assert ListHolds(ts, at', m');
      queue.AddTimer(timer);
      at := at[t.id := timer];
      assert queue.timers == ts && ListHolds(ts, at', m');
    }

    method Delete(id: nat, ghost m: map<nat, int>)
      requires Holds(m) && id in m
      modifies queue, set t | t in queue.timers
      ensures Holds(m - {id}) && forall t :: t in queue.timers ==> t in old(queue.timers)
    {
      hide L.Place, L.Linked, L.Sorted, ListHolds;
      ghost var k := Find(id, m);
      ListRemoved(queue.timers, k, at, m);
      queue.DelTimer(at[id], k);
    }

    method Tick(cur: int, ghost m: map<nat, int>) returns (fired: seq<Timer>)
      requires Holds(m)
      modifies queue, set t | t in queue.timers
      ensures Holds(Survivors(m, cur)) && Fires(m, cur, fired)
      ensures forall t :: t in queue.timers ==> t in old(queue.timers)
    {
      hide L.Place, L.Linked, NoDup, L.Sorted, ListHolds, Fires, Survivors;
      ListSurvives(queue.timers, cur, at, m);
      ListFires(queue.timers, cur, at, m);
      var run := queue.Tick(cur);
      fired := ListTimers(run);
    }

    method Do(op: Op, ghost m: map<nat, int>) returns (fired: seq<Timer>)
      requires Holds(m) && Lawful(m, op)
      modifies this`at, queue, set t | t in queue.timers
      ensures Holds(Step(m, op)) && if op.Tick? then Fires(m, op.cur, fired) else fired == []
      ensures forall t :: t in queue.timers ==> t in old(queue.timers) || fresh(t)
    {
      hide Holds, Fires, Survivors;
      fired := [];
      match op
      case Add(t) => Add(t, m);
      case Del(id) => Delete(id, m);
      case Tick(cur) => fired := Tick(cur, m);
    }

    lemma Find(id: nat, m: map<nat, int>) returns (k: nat)
      requires Holds(m) && id in m
      ensures k < |queue.timers| && id in at && at[id] == queue.timers[k] && queue.timers[k].id == id
    {
      k :| 0 <= k < |queue.timers| && at[id] == queue.timers[k];
    }
  }

  // ---- the heap ----

  function HeapTimers(ts: seq<H.HeapTimer?>): (r: seq<Timer>)
    requires H.NonNull(ts)
    ensures |r| == |ts| && forall i :: 0 <= i < |r| ==> ts[i] != null && r[i] == Timer(ts[i].id, ts[i].expire)
  {
    if ts == [] then [] else
      var last := ts[|ts| - 1];
      HeapTimers(ts[..|ts| - 1]) + [Timer(last.id, last.expire)]
  }

  /** The timers that still have a callback are the pending ones; deleted ones stay behind without. */
  ghost predicate HeapHolds(ts: multiset<H.HeapTimer?>, at: map<nat, H.HeapTimer>, m: map<nat, int>)
    reads set t | t in ts && t != null
  {
    && (forall id :: id in m ==> id in at && at[id] in ts && at[id].id == id && at[id].hasCallback)
    && (forall t :: t in ts ==> t != null && ts[t] == 1)
    && (forall t :: t in ts && t.hasCallback ==> t.id in m && t.id in at && at[t.id] == t && t.expire == m[t.id])
  }

  lemma HeapAdded(ts: multiset<H.HeapTimer?>, t: H.HeapTimer, at: map<nat, H.HeapTimer>, m: map<nat, int>)
    requires HeapHolds(ts, at, m) && t.id !in m && t !in ts && t.hasCallback
    ensures HeapHolds(ts + multiset{t}, at[t.id := t], m[t.id := t.expire])
  {
  }

  /** What is popped and what stays make up the heap. */
  lemma HeapSides(ts: multiset<H.HeapTimer?>, popped: seq<H.HeapTimer?>, rest: seq<H.HeapTimer?>, cur: int)
    requires multiset(popped) + multiset(rest) == ts && H.Due(popped, cur) && H.NoneDue(rest, cur)
    requires forall t :: t in ts ==> t != null && ts[t] == 1
    ensures forall t :: t in popped ==> t in ts && t != null && t.expire <= cur
    ensures forall t :: t in multiset(rest) ==> t in ts && t != null && t.expire > cur && multiset(rest)[t] == 1
    ensures forall t :: t in ts ==> t in popped || t in multiset(rest)
    ensures H.NonNull(popped) && NoDup(popped)
  {
    forall t | t in popped
      ensures t in ts && t != null && t.expire <= cur
    {
      assert t in multiset(popped);
    }
    assert forall i :: 0 <= i < |popped| ==> popped[i] in popped;
    forall t | t in multiset(rest)
      ensures t in ts && t != null && t.expire > cur && multiset(rest)[t] == 1
    {
      assert t in rest;
    }
    forall i, j | 0 <= i < j < |popped|
      ensures popped[i] != popped[j]
    {
      assert popped[i] in popped;
      if popped[i] == popped[j] {
        Twice(popped, i, j);
      }
    }
  }

  lemma Twice(s: seq<H.HeapTimer?>, i: nat, j: nat)
    requires i < j < |s| && s[i] == s[j]
    ensures multiset(s)[s[i]] >= 2
  {
    assert s == s[..j] + s[j..];
    assert s[i] in s[..j] && s[j] in s[j..];
  }

  /** Dropping the deleted timers keeps the others, in order. */
  lemma {:induction false} WithCallbackMembers(s: seq<H.HeapTimer?>)
    requires H.NonNull(s)
    ensures forall t :: t in H.WithCallback(s) ==> t != null && t in s && t.hasCallback
    ensures forall t :: t in s && t != null && t.hasCallback ==> t in H.WithCallback(s)
    ensures H.NonNull(H.WithCallback(s))
  {
    if s != [] {
      WithCallbackMembers(s[..|s| - 1]);
      assert s == s[..|s| - 1] + [s[|s| - 1]];
    }
    assert forall i :: 0 <= i < |H.WithCallback(s)| ==> H.WithCallback(s)[i] in H.WithCallback(s);
  }

  lemma {:induction false} WithCallbackOrder(s: seq<H.HeapTimer?>)
    requires H.NonNull(s) && H.Ascending(s) && NoDup(s)
    ensures H.Ascending(H.WithCallback(s)) && NoDup(H.WithCallback(s))
  {
    if s != [] {
      var init, last := s[..|s| - 1], s[|s| - 1];
      WithCallbackOrder(init);
      WithCallbackMembers(init);
      var r := H.WithCallback(init);
      forall i | 0 <= i < |r|
        ensures H.Key(r[i]) <= H.Key(last) && r[i] != last
      {
        assert r[i] in r && r[i] in init;
        var k :| 0 <= k < |init| && init[k] == r[i];
        assert s[k] == init[k];
      }
    }
  }

  lemma HeapSurvives(ts: multiset<H.HeapTimer?>, popped: seq<H.HeapTimer?>, rest: seq<H.HeapTimer?>, cur: int,
                     at: map<nat, H.HeapTimer>, m: map<nat, int>)
    requires HeapHolds(ts, at, m)
    requires multiset(popped) + multiset(rest) == ts && H.Due(popped, cur) && H.NoneDue(rest, cur)
    ensures HeapHolds(multiset(rest), at, Survivors(m, cur))
  {
    HeapSides(ts, popped, rest, cur);
    hide H.Due, H.NoneDue;
  }

  lemma HeapFires(ts: multiset<H.HeapTimer?>, popped: seq<H.HeapTimer?>, rest: seq<H.HeapTimer?>, cur: int,
                  at: map<nat, H.HeapTimer>, m: map<nat, int>)
    requires HeapHolds(ts, at, m) && H.Ascending(popped)
    requires multiset(popped) + multiset(rest) == ts && H.Due(popped, cur) && H.NoneDue(rest, cur)
    ensures H.NonNull(H.WithCallback(popped))
    ensures Fires(m, cur, HeapTimers(H.WithCallback(popped)))
  {
    HeapSides(ts, popped, rest, cur);
    WithCallbackMembers(popped);
    WithCallbackOrder(popped);
    hide H.Due, H.NoneDue, H.WithCallback, Fires, H.Ascending, NoDup;
    HeapRunFires(ts, H.WithCallback(popped), cur, at, m);
  }

  lemma HeapRunFires(ts: multiset<H.HeapTimer?>, run: seq<H.HeapTimer?>, cur: int, at: map<nat, H.HeapTimer>,
                     m: map<nat, int>)
    requires HeapHolds(ts, at, m) && H.NonNull(run) && H.Ascending(run) && NoDup(run)
    requires forall t :: t in run ==> t in ts && t != null && t.hasCallback && t.expire <= cur
    requires forall t :: t in ts && t != null && t.hasCallback && t.expire <= cur ==> t in run
    ensures Fires(m, cur, HeapTimers(run))
  {
    hide HeapTimers;
    var fired := HeapTimers(run);
    forall id | id in m && m[id] <= cur
      ensures Timer(id, m[id]) in fired
    {
      assert at[id] in run;
      var i :| 0 <= i < |run| && run[i] == at[id];
      assert fired[i] == Timer(id, m[id]);
    }
    forall i, j | 0 <= i < j < |fired|
      ensures fired[i] != fired[j] && fired[i].expire <= fired[j].expire
    {
      assert run[i] in run && run[j] in run && at[run[i].id] == run[i];
    }
  }

  /** An application that keeps its timers in the heap. */
  class HeapClient {
    const queue: H.TimeHeap
    var at: map<nat, H.HeapTimer>

    ghost function Held(): multiset<H.HeapTimer?>
      reads queue, queue.arr
      requires queue.Valid()
    {
      multiset(queue.Timers())
    }

    ghost predicate Holds(m: map<nat, int>)
      reads this, queue, queue.arr, set t | t in queue.arr[..] && t != null
    {
      queue.Valid() && queue.capacity > 0 && HeapHolds(Held(), at, m)
    }

    constructor (capacity: nat)
      requires capacity > 0
      ensures Holds(map[]) && fresh(queue) && fresh(queue.arr) && queue.Timers() == []
    {
      queue := new H.TimeHeap.Empty(capacity);
      at := map[];
    }

    method Add(t: Timer, ghost m: map<nat, int>) returns (timer: H.HeapTimer)
      requires Holds(m) && t.id !in m
      modifies this`at, queue, queue.arr
      ensures Holds(m[t.id := t.expire]) && queue.Valid() && (queue.arr == old(queue.arr) || fresh(queue.arr))
      ensures fresh(timer) && Held() == old(Held()) + multiset{timer}
    {
      hide HeapHolds, H.TimeHeap.Valid;
      timer := Made(t, m);
      HeapAdded(Held(), timer, at, m);
      ghost var ts, at', m' := Held() + multiset{timer}, at[t.id := timer], m[t.id := t.expire];
      assert HeapHolds(ts, at', m');
      Insert(timer);
      assert Held() == ts && HeapHolds(ts, at', m');
      at := at[t.id := timer];
    }

    method Made(t: Timer, ghost m: map<nat, int>) returns (timer: H.HeapTimer)
      requires Holds(m)
      ensures Holds(m) && fresh(timer) && timer !in Held()
      ensures timer.id == t.id && timer.expire == t.expire && timer.hasCallback
    {
      hide HeapHolds, H.Heap, H.NonNull;
      timer := new H.HeapTimer(t.id, t.expire);
      assert timer !in queue.arr[..queue.curSize];
    }

    method Insert(timer: H.HeapTimer)
      requires queue.Valid() && queue.capacity > 0
      modifies queue, queue.arr
      ensures queue.Valid() && queue.capacity > 0 && (queue.arr == old(queue.arr) || fresh(queue.arr))
      ensures Held() == old(Held()) + multiset{timer}
    {
      hide H.TimeHeap.Valid;
      queue.AddTimer(timer);
    }

    method Delete(id: nat, ghost m: map<nat, int>)
      requires Holds(m) && id in m
      modifies set t | t in Held() && t != null
      ensures Holds(m - {id}) && queue.Valid()
    {
      hide H.Heap, H.NonNull;
      H.DelTimer(at[id]);
    }

    method Tick(cur: int, ghost m: map<nat, int>) returns (fired: seq<Timer>)
      requires Holds(m)
      modifies queue, queue.arr
      ensures Holds(Survivors(m, cur)) && queue.Valid() && Fires(m, cur, fired) && queue.arr == old(queue.arr)
      ensures forall t :: t in Held() ==> t in old(Held())
    {
      hide HeapHolds, H.Heap, H.NonNull, H.Due, H.NoneDue, H.Ascending, H.WithCallback, Fires, Survivors;
      ghost var ts := Held();
      var run, popped := queue.Tick(cur);
      HeapSurvives(ts, popped, queue.Timers(), cur, at, m);
      HeapFires(ts, popped, queue.Timers(), cur, at, m);
      fired := HeapTimers(run);
    }

    method Do(op: Op, ghost m: map<nat, int>) returns (fired: seq<Timer>)
      requires Holds(m) && Lawful(m, op)
      modifies this`at, queue, queue.arr, set t | t in Held() && t != null
      ensures Holds(Step(m, op)) && queue.Valid() && if op.Tick? then Fires(m, op.cur, fired) else fired == []
      ensures queue.arr == old(queue.arr) || fresh(queue.arr)
      ensures forall t :: t in Held() ==> t in old(Held()) || fresh(t)
    {
      hide Holds, Fires, Survivors;
      fired := [];
      match op
      case Add(t) => var timer := Add(t, m);
      case Del(id) => Delete(id, m);
      case Tick(cur) => fired := Tick(cur, m);
    }
  }

  method RunList(ops: seq<Op>) returns (out: seq<seq<Timer>>)
    requires AllLawful(map[], ops)
    ensures Outcome(map[], ops, out)
  {
    hide Outcome, AllLawful, Fires, ListClient.Holds, Lawful, Step;
    var client := new ListClient();
    ghost var m: map<nat, int> := map[];
    out := [];
    NothingYet();
    for i := 0 to |ops|
      invariant fresh(client) && fresh(client.queue) && forall t :: t in client.queue.timers ==> fresh(t)
      invariant m == After(map[], ops[..i]) && client.Holds(m) && Outcome(map[], ops[..i], out)
    {
      LawfulAt(map[], ops, i);
      var fired := client.Do(ops[i], m);
      OutcomeSnoc(map[], ops[..i], out, ops[i], fired);
      m := Step(m, ops[i]);
      assert ops[..i] + [ops[i]] == ops[..i + 1];
      out := out + [fired];
    }
    assert ops[..|ops|] == ops;
  }

  method RunHeap(ops: seq<Op>, capacity: nat) returns (out: seq<seq<Timer>>)
    requires AllLawful(map[], ops) && capacity > 0
    ensures Outcome(map[], ops, out)
  {
    hide Outcome, AllLawful, Fires, HeapClient.Holds, Lawful, Step;
    var client := new HeapClient(capacity);
    ghost var m: map<nat, int> := map[];
    out := [];
    NothingYet();
    for i := 0 to |ops|
      invariant fresh(client) && fresh(client.queue) && fresh(client.queue.arr) && client.queue.Valid()
      invariant forall t :: t in client.Held() && t != null ==> fresh(t)
      invariant m == After(map[], ops[..i]) && client.Holds(m) && Outcome(map[], ops[..i], out)
    {
      LawfulAt(map[], ops, i);
      var fired := client.Do(ops[i], m);
      OutcomeSnoc(map[], ops[..i], out, ops[i], fired);
      m := Step(m, ops[i]);
      assert ops[..i] + [ops[i]] == ops[..i + 1];
      out := out + [fired];
    }
    assert ops[..|ops|] == ops;
  }

  lemma NothingYet()
    ensures Outcome(map[], [], []) && After(map[], []) == map[]
  {
  }

  /** Both queues, driven side by side. */
  method RunBoth(ops: seq<Op>, capacity: nat) returns (byList: seq<seq<Timer>>, byHeap: seq<seq<Timer>>)
    requires AllLawful(map[], ops) && capacity > 0
    ensures |byList| == |byHeap| == |ops|
    ensures forall i :: 0 <= i < |ops| ==>
              multiset(byList[i]) == multiset(byHeap[i]) && Ascending(byList[i]) && Ascending(byHeap[i])
  {
    byList := RunList(ops);
    byHeap := RunHeap(ops, capacity);
    QueuesAgree(map[], ops, byList, byHeap);
  }
}
