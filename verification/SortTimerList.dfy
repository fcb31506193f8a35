/** sort_timer_list.cpp: timers in a doubly linked list, ordered by expiry time. */
module SortTimerListModel {
  import opened Seqs

  class UtilTimer {
    const id: nat
    var expire: int
    var prev: UtilTimer?
    var next: UtilTimer?

    constructor (id: nat, expire: int)
      ensures this.id == id && this.expire == expire && prev == null && next == null
    {
      this.id, this.expire, prev, next := id, expire, null, null;
    }
  }

  /** The place behind every timer that expires no later. */
  function Place(ts: seq<UtilTimer>, expire: int): (k: nat)
    reads ts`expire
    ensures k <= |ts| && (k < |ts| ==> expire < ts[k].expire)
    ensures forall i :: 0 <= i < k ==> ts[i].expire <= expire
  {
    if ts == [] || expire < ts[0].expire then 0 else 1 + Place(ts[1..], expire)
  }

  /** ts with t put in its place: equal expiry times keep the order of insertion. */
  function Inserted(ts: seq<UtilTimer>, t: UtilTimer): seq<UtilTimer>
    reads ts`expire, t`expire
  {
    ts[..Place(ts, t.expire)] + [t] + ts[Place(ts, t.expire)..]
  }

  ghost predicate Sorted(ts: seq<UtilTimer>)
    reads ts`expire
  {
    forall i, j :: 0 <= i < j < |ts| ==> ts[i].expire <= ts[j].expire
  }

  function Before(ts: seq<UtilTimer>, i: nat): UtilTimer? {
    if 0 < i <= |ts| then ts[i - 1] else null
  }

  function After(ts: seq<UtilTimer>, i: nat): UtilTimer? {
    if i + 1 < |ts| then ts[i + 1] else null
  }

  /** prev and next are each other's inverse along ts, and end in null on both sides. */
  ghost predicate Linked(ts: seq<UtilTimer>)
    reads ts`prev, ts`next
  {
    forall i :: 0 <= i < |ts| ==> ts[i].prev == Before(ts, i) && ts[i].next == After(ts, i)
  }

  class SortTimerList {
    var head: UtilTimer?
    var tail: UtilTimer?
    ghost var timers: seq<UtilTimer>

    /** tail is meaningful only while the list is not empty: tick leaves it stale. */
    ghost predicate Shape()
      reads this, timers
    {
      && NoDup(timers) && Linked(timers)
      && head == (if timers == [] then null else timers[0])
      && (timers != [] ==> tail == timers[|timers| - 1])
    }

    ghost predicate Valid()
      reads this, timers
    {
      Shape() && Sorted(timers)
    }

    constructor ()
      ensures Valid() && timers == []
    {
      head, tail, timers := null, null, [];
    }

    method AddTimer(timer: UtilTimer?)
      requires Valid() && (timer != null ==> timer !in timers && timer.prev == null && timer.next == null)
      modifies this, timers`prev, timers`next
      modifies (if timer == null then {} else {timer})`prev, (if timer == null then {} else {timer})`next
      ensures Valid() && timers == if timer == null then old(timers) else old(Inserted(timers, timer))
    {
      hide Linked, NoDup, Sorted, Inserted, Place;
      if timer == null {
        return;
      }
      InsertedSorted(timers, timer);
      InsertedFirst(timers, timer);
      if head == null {
        head, tail := timer, timer;
        assert [timer] + timers == [timer];
        timers := [timer];
        Single(timer);
        return;
      }
      if timer.expire < head.expire {
        LinkFront(timer);
        return;
      }
      AddAfter(timer, head, 0);
    }

    /** Lines 49-54. */
    method LinkFront(timer: UtilTimer)
      requires Shape() && timers != [] && timer !in timers && timer.prev == null
      modifies this`head, this`timers, timers`prev, timer`next
      ensures Shape() && timers == [timer] + old(timers)
    {
      hide NoDup, Before, After;
      ghost var ts := timers;
      timer.next := head;
      head.prev := timer;
      head := timer;
      timers := [timer] + ts;
      forall i | 0 <= i < |ts|
        ensures ts[i].next == After(ts, i) && ts[i].prev == if i == 0 then timer else Before(ts, i)
      {
        assert ts[i] in ts;
        NoDupAt(ts, i, 0);
      }
      FrontLinked(ts, timer);
    }

    /** Lines 141-144, and 152-155 when the list ends here: timer goes behind prev, which is timers[k]. */
    method LinkBehind(timer: UtilTimer, prev: UtilTimer, ghost k: nat)
      requires Shape() && k < |timers| && prev == timers[k] && timer !in timers
      modifies this`tail, this`timers, timers`prev, timers`next, timer`prev, timer`next
      ensures Shape() && timers == old(timers[..k + 1]) + [timer] + old(timers[k + 1..])
    {
      hide NoDup, Before, After;
      ghost var ts := timers;
      Neighbour(ts, k);
      var tmp := prev.next;
      prev.next := timer;
      timer.next := tmp;
      timer.prev := prev;
      if tmp != null {
        tmp.prev := timer;
      } else {
        tail := timer;
      }
      timers := ts[..k + 1] + [timer] + ts[k + 1..];
      forall i | 0 <= i < |ts|
        ensures ts[i].next == (if i == k then timer else After(ts, i))
        ensures ts[i].prev == if i == k + 1 then timer else Before(ts, i)
      {
        assert ts[i] in ts;
        NoDupAt(ts, i, k);
        NoDupAt(ts, i, k + 1);
      }
      assert NoDup(ts) && timer.prev == ts[k] && timer.next == After(ts, k);
      MiddleLinked(ts, timer, k);
    }

    /** Lines 137-148: walk behind the node listHead, timers[at], to the last node that expires no later than timer. */
    method Search(timer: UtilTimer, listHead: UtilTimer, ghost at: nat) returns (prev: UtilTimer)
      requires Shape() && Sorted(timers)
      requires at < |timers| && listHead == timers[at] && listHead.expire <= timer.expire
      ensures Place(timers, timer.expire) > 0 && prev == timers[Place(timers, timer.expire) - 1]
    {
      hide NoDup, Linked, Sorted, Before, After, Place;
      prev := listHead;
      var tmp := prev.next;
      ghost var ts := timers;
      ghost var k := at;
      Neighbour(ts, k);
      LinkAt(ts, k);
      while tmp != null && timer.expire >= tmp.expire
        invariant at <= k < |ts| && prev == ts[k] && prev.expire <= timer.expire
        invariant tmp == if k + 1 < |ts| then ts[k + 1] else null
        decreases |ts| - k
      {
        prev := tmp;
        tmp := tmp.next;
        k := k + 1;
        Neighbour(ts, k);
        LinkAt(ts, k);
      }
      PlaceIs(ts, timer.expire, k + 1);
    }

    /** The private overload of add_timer. */
    method AddAfter(timer: UtilTimer, listHead: UtilTimer, ghost at: nat)
      requires Shape() && Sorted(timers) && timer !in timers
      requires at < |timers| && listHead == timers[at] && listHead.expire <= timer.expire
      modifies this`tail, this`timers, timers`prev, timers`next, timer`prev, timer`next
      ensures Valid() && timers == old(Inserted(timers, timer))
    {
      hide Linked, NoDup, Place, Sorted, Inserted;
      InsertedSorted(timers, timer);
      InsertedIs(timers, timer);
      ghost var us, k := Inserted(timers, timer), Place(timers, timer.expire);
      var prev := Search(timer, listHead, at);
      LinkBehind(timer, prev, k - 1);
      assert timers == us;
    }

    /** Lines 92-93 and 124-127: the first node leaves; tail is left alone. */
    method UnlinkHead() returns (timer: UtilTimer)
      requires Shape() && timers != []
      modifies this`head, this`timers, timers`prev
      ensures Shape() && timer == old(timers[0]) && timers == old(Removed(timers, 0)) && timer.next == old(timer.next)
    {
      hide NoDup, Before, After;
      ghost var ts := timers;
      Neighbour(ts, 0);
      NoneBefore(ts);
      timer := head;
      head := timer.next;
      if head != null {
        head.prev := null;
      }
      timers := Removed(ts, 0);
      forall i | 0 <= i < |ts| && i != 0
        ensures ts[i].next == After(ts, i) && ts[i].prev == if i == 1 then null else Before(ts, i)
      {
        NoDupAt(ts, i, 1);
      }
      RemovedLinked(ts, 0);
    }

    /** Lines 105-106 and 74-75: a node with neighbours on both sides leaves. */
    method UnlinkMiddle(timer: UtilTimer, ghost k: nat)
      requires Shape() && 0 < k < |timers| - 1 && timer == timers[k]
      modifies this`timers, timers`prev, timers`next
      ensures Shape() && timers == old(Removed(timers, k)) && timer.next == old(timer.next)
    {
      hide NoDup, Before, After;
      ghost var ts := timers;
      Neighbour(ts, k);
      Neighbour(ts, k - 1);
      Previous(ts, k);
      timer.prev.next := timer.next;
      timer.next.prev := timer.prev;
      timers := Removed(ts, k);
      forall i | 0 <= i < |ts| && i != k
        ensures ts[i].next == (if i + 1 == k then After(ts, k) else After(ts, i))
        ensures ts[i].prev == if i == k + 1 then Before(ts, k) else Before(ts, i)
      {
        NoDupAt(ts, i, k + 1);
        NoDupAt(ts, i, k - 1);
      }
      RemovedLinked(ts, k);
    }

    /** Lines 99-100. */
    method UnlinkTail()
      requires Shape() && |timers| > 1
      modifies this`tail, this`timers, timers`next
      ensures Shape() && timers == old(Removed(timers, |timers| - 1))
    {
      hide NoDup, Before, After;
      ghost var ts := timers;
      ghost var k := |ts| - 1;
      Previous(ts, k);
      Neighbour(ts, k - 1);
      Neighbour(ts, k);
      tail := tail.prev;
      tail.next := null;
      timers := Removed(ts, k);
      forall i | 0 <= i < |ts| && i != k
        ensures ts[i].next == (if i + 1 == k then After(ts, k) else After(ts, i)) && ts[i].prev == Before(ts, i)
      {
        NoDupAt(ts, i, k - 1);
      }
      RemovedLinked(ts, k);
    }

    method DelTimer(timer: UtilTimer?, ghost k: nat)
      requires Valid() && (timer != null ==> k < |timers| && timer == timers[k])
      modifies this, timers`prev, timers`next
      ensures Valid() && timers == if timer == null then old(timers) else old(Removed(timers, k))
    {
      hide Linked, NoDup, Sorted, SortedBut;
      if timer == null {
        return;
      }
      RemovedSorted(timers, k);
      Position(timers, k);
      if timer == head && timer == tail {
        head, tail := null, null;
        assert Removed(timers, k) == [];
        timers := [];
        NoTimers();
        return;
      }
      if timer == head {
        var first := UnlinkHead();
        return;
      }
      if timer == tail {
        UnlinkTail();
        return;
      }
      UnlinkMiddle(timer, k);
    }

    /** The caller has just raised the expiry of timers[k]. */
    method AdjustTimer(timer: UtilTimer?, ghost k: nat)
      requires if timer == null then Valid() else Shape() && k < |timers| && timer == timers[k] && SortedBut(timers, k)
      modifies this`head, this`tail, this`timers, timers`prev, timers`next
      ensures Valid() && timers == if timer == null then old(timers) else old(Inserted(Removed(timers, k), timers[k]))
    {
      hide Linked, NoDup, Sorted, SortedBut, Inserted, Before, After, Removed;
      if timer == null {
        return;
      }
      Neighbour(timers, k);
      Position(timers, k);
      LinkAt(timers, k);
      var tmp := timer.next;
      AdjustCases(timers, k);
      if tmp == null || timer.expire < tmp.expire {
        return;
      }
      ghost var ts := timers;
      RemovedMembers(ts, k);
      RemovedAt(ts, k);
      if timer == head {
        var first := UnlinkHead();
        timer.next := null;
        AddAfter(timer, head, 0);
      } else {
        UnlinkMiddle(timer, k);
        AddAfter(timer, timer.next, k);
      }
    }

    /** tick() at clock value cur; the result lists the timers whose callback ran, in order. */
    method Tick(cur: int) returns (fired: seq<UtilTimer>)
      requires Valid()
      modifies this`head, this`timers, timers`prev
      ensures Valid() && fired == old(timers[..Place(timers, cur)]) && timers == old(timers[Place(timers, cur)..])
    {
      hide Valid, Place, Ticking, Sorted;
      fired := [];
      ghost var ts := timers;
      StartTick(cur);
      if head == null {
        EndTick(ts, 0, cur);
        return;
      }
      var tmp := head;
      while tmp != null
        invariant tmp == head && |fired| <= |ts| && fired == ts[..|fired|] && Ticking(ts, |fired|, cur)
        decreases |ts| - |fired|
      {
        if cur < tmp.expire {
          break;
        }
        Remaining(ts, |fired|, cur);
        tmp := FireHead(ts, |fired|, cur);
        fired := fired + [tmp];
        tmp := head;
      }
      EndTick(ts, |fired|, cur);
    }

    /** The first n timers of ts have run. */
    ghost predicate Ticking(ts: seq<UtilTimer>, n: nat, cur: int)
      reads this, timers, ts`expire
    {
      Valid() && n <= |ts| && timers == ts[n..] && (n > 0 ==> ts[n - 1].expire <= cur)
    }

    lemma StartTick(cur: int)
      requires Valid()
      ensures Ticking(timers, 0, cur) && Sorted(timers)
    {
    }

    lemma Remaining(ts: seq<UtilTimer>, n: nat, cur: int)
      requires Ticking(ts, n, cur) && head != null
      ensures n < |ts| && ts[..n] + [ts[n]] == ts[..n + 1] && forall t :: t in timers ==> t in ts
    {
    }

    /** Lines 122-129. */
    method FireHead(ghost ts: seq<UtilTimer>, ghost n: nat, ghost cur: int) returns (timer: UtilTimer)
      requires Ticking(ts, n, cur) && head != null && head.expire <= cur
      modifies this`head, this`timers, (set t | t in ts)`prev
      ensures n < |ts| && timer == ts[n] && Ticking(ts, n + 1, cur)
    {
      hide Linked, NoDup, Sorted, Removed;
      Remaining(ts, n, cur);
      NextFront(ts, n);
      RemovedSorted(timers, 0);
      timer := UnlinkHead();
    }

    lemma EndTick(ts: seq<UtilTimer>, n: nat, cur: int)
      requires Ticking(ts, n, cur) && Sorted(ts) && (head == null || cur < head.expire)
      ensures Valid() && timers == ts[n..] && Place(ts, cur) == n
    {
      hide Linked, NoDup, Sorted, Place;
      PlaceIs(ts, cur, n);
    }
  }

  lemma NextFront(ts: seq<UtilTimer>, n: nat)
    requires n < |ts|
    ensures ts[n..][0] == ts[n] && Removed(ts[n..], 0) == ts[n + 1..] && ts[..n] + [ts[n]] == ts[..n + 1]
  {
  }

  /** Only timers[k] may expire later than a successor. */
  ghost predicate SortedBut(ts: seq<UtilTimer>, k: nat)
    reads ts`expire
  {
    forall i, j :: 0 <= i < j < |ts| && i != k ==> ts[i].expire <= ts[j].expire
  }

  lemma NoTimers()
    ensures Linked([]) && NoDup<UtilTimer>([]) && Sorted([])
  {
  }

  lemma NoneBefore(ts: seq<UtilTimer>)
    ensures Before(ts, 0) == null
  {
  }

  lemma Position(ts: seq<UtilTimer>, k: nat)
    requires NoDup(ts) && k < |ts|
    ensures ts[k] == ts[0] <==> k == 0
    ensures ts[k] == ts[|ts| - 1] <==> k == |ts| - 1
  {
  }

  lemma Previous(ts: seq<UtilTimer>, k: nat)
    requires NoDup(ts) && 0 < k < |ts|
    ensures Before(ts, k) == ts[k - 1] && ts[k - 1] in ts && ts[k - 1] != ts[k]
    ensures k + 1 < |ts| ==> ts[k - 1] != ts[k + 1]
  {
  }

  lemma RemovedSorted(ts: seq<UtilTimer>, k: nat)
    requires k < |ts| && (Sorted(ts) || SortedBut(ts, k))
    ensures Sorted(Removed(ts, k))
  {
    var us := Removed(ts, k);
    forall i, j | 0 <= i < j < |us|
      ensures us[i].expire <= us[j].expire
    {
      assert us[i] == ts[if i < k then i else i + 1] && us[j] == ts[if j < k then j else j + 1];
    }
  }

  lemma RemovedLinked(ts: seq<UtilTimer>, k: nat)
    requires k < |ts| && NoDup(ts)
    requires forall i :: 0 <= i < |ts| && i != k ==>
               && ts[i].next == (if i + 1 == k then After(ts, k) else After(ts, i))
               && ts[i].prev == (if i == k + 1 then Before(ts, k) else Before(ts, i))
    ensures Linked(Removed(ts, k)) && NoDup(Removed(ts, k))
  {
    RemovedNoDup(ts, k);
    RemovedAt(ts, k);
    hide NoDup, Removed;
    var us := Removed(ts, k);
    forall i | 0 <= i < |us|
      ensures us[i].prev == Before(us, i) && us[i].next == After(us, i)
    {
      var j := if i < k then i else i + 1;
      assert us[i] == ts[j];
      assert Before(us, i) == (if j == k + 1 then Before(ts, k) else Before(ts, j));
    }
  }

  /** What adjust_timer has to do, and when it has nothing to do. */
  lemma AdjustCases(ts: seq<UtilTimer>, k: nat)
    requires k < |ts| && SortedBut(ts, k)
    ensures Sorted(Removed(ts, k))
    ensures k + 1 == |ts| || ts[k].expire < ts[k + 1].expire ==> Sorted(ts) && Inserted(Removed(ts, k), ts[k]) == ts
    ensures k + 1 < |ts| && ts[k].expire >= ts[k + 1].expire ==> Removed(ts, k)[k] == ts[k + 1]
  {
    RemovedSorted(ts, k);
    RemovedAt(ts, k);
    hide Sorted, SortedBut, Inserted, Removed;
    if k + 1 == |ts| || ts[k].expire < ts[k + 1].expire {
      StaysSorted(ts, k);
      StaysInserted(ts, k);
    }
  }

  lemma StaysSorted(ts: seq<UtilTimer>, k: nat)
    requires k < |ts| && SortedBut(ts, k) && (k + 1 < |ts| ==> ts[k].expire < ts[k + 1].expire)
    ensures Sorted(ts)
  {
    forall i, j | 0 <= i < j < |ts|
      ensures ts[i].expire <= ts[j].expire
    {
      if i == k && j > k + 1 { assert ts[k + 1].expire <= ts[j].expire; }
    }
  }

  lemma StaysInserted(ts: seq<UtilTimer>, k: nat)
    requires k < |ts| && Sorted(ts) && (k + 1 < |ts| ==> ts[k].expire < ts[k + 1].expire)
    ensures Inserted(Removed(ts, k), ts[k]) == ts
  {
    var us := Removed(ts, k);
    RemovedSorted(ts, k);
    SortedPair(ts, k);
    RemovedAt(ts, k);
    RemovedParts(ts, k);
    hide Sorted, Place, Removed;
    PlaceIs(us, ts[k].expire, k);
  }

  lemma SortedPair(ts: seq<UtilTimer>, k: nat)
    requires Sorted(ts) && k < |ts|
    ensures k > 0 ==> ts[k - 1].expire <= ts[k].expire
  {
  }

  lemma {:induction false} PlaceIs(ts: seq<UtilTimer>, expire: int, k: nat)
    requires Sorted(ts) && k <= |ts| && (k > 0 ==> ts[k - 1].expire <= expire) && (k < |ts| ==> expire < ts[k].expire)
    ensures Place(ts, expire) == k
  {
    if k > 0 {
      assert ts[0].expire <= ts[k - 1].expire;
      PlaceIs(ts[1..], expire, k - 1);
    }
  }

  lemma InsertedSorted(ts: seq<UtilTimer>, t: UtilTimer)
    requires Sorted(ts)
    ensures Sorted(Inserted(ts, t))
  {
    hide Place;
    var k := Place(ts, t.expire);
    var us := Inserted(ts, t);
    forall i, j | 0 <= i < j < |us|
      ensures us[i].expire <= us[j].expire
    {
      if i != k && j != k {
        assert us[i] == ts[if i < k then i else i - 1] && us[j] == ts[if j < k then j else j - 1];
      } else if j == k {
        assert us[i] == ts[i];
      } else {
        assert us[j] == ts[j - 1] && ts[k].expire <= ts[j - 1].expire;
      }
    }
  }

  /** Insertion order among equals: whatever expires no later stays in front of t, whatever expires later behind it. */
  lemma InsertedBehindEquals(ts: seq<UtilTimer>, t: UtilTimer)
    requires Sorted(ts)
    ensures var k := Place(ts, t.expire); var r := Inserted(ts, t);
            && r[..k] == ts[..k] && r[k] == t && r[k + 1..] == ts[k..]
            && (forall i :: 0 <= i < k ==> r[i].expire <= t.expire)
            && forall i :: k < i < |r| ==> t.expire < r[i].expire
  {
    var k, r := Place(ts, t.expire), Inserted(ts, t);
    InsertedParts(ts, t, k);
    BehindPlace(ts, t.expire);
    hide Sorted, Place, Inserted;
    forall i | k < i < |r| ensures t.expire < r[i].expire {
      assert r[i] == ts[i - 1];
    }
  }

  lemma BehindPlace(ts: seq<UtilTimer>, expire: int)
    requires Sorted(ts)
    ensures forall i :: Place(ts, expire) <= i < |ts| ==> expire < ts[i].expire
  {
  }

  lemma LinkAt(ts: seq<UtilTimer>, k: nat)
    requires Linked(ts) && k < |ts|
    ensures ts[k].prev == Before(ts, k) && ts[k].next == After(ts, k)
  {
  }

  lemma Neighbour(ts: seq<UtilTimer>, k: nat)
    requires NoDup(ts) && k < |ts|
    ensures ts[k] in ts && After(ts, k) == (if k + 1 < |ts| then ts[k + 1] else null)
    ensures k + 1 < |ts| ==> ts[k + 1] in ts && ts[k + 1] != ts[k]
  {
  }

  lemma FrontLinked(ts: seq<UtilTimer>, t: UtilTimer)
    requires ts != [] && t !in ts && NoDup(ts) && t.prev == null && t.next == ts[0]
    requires forall i :: 0 <= i < |ts| ==>
               ts[i].next == After(ts, i) && ts[i].prev == if i == 0 then t else Before(ts, i)
    ensures Linked([t] + ts) && NoDup([t] + ts)
  {
    NoDupConcat([t], ts);
    hide NoDup;
    var us := [t] + ts;
    forall i | 0 <= i < |us|
      ensures us[i].prev == Before(us, i) && us[i].next == After(us, i)
    {
      if i > 0 { assert us[i] == ts[i - 1]; }
    }
  }

  lemma MiddleLinked(ts: seq<UtilTimer>, t: UtilTimer, k: nat)
    requires k < |ts| && t !in ts && NoDup(ts) && t.prev == ts[k] && t.next == After(ts, k)
    requires forall i :: 0 <= i < |ts| ==> ts[i].next == (if i == k then t else After(ts, i))
                                           && ts[i].prev == if i == k + 1 then t else Before(ts, i)
    ensures var us := ts[..k + 1] + [t] + ts[k + 1..]; Linked(us) && NoDup(us)
  {
    var us := ts[..k + 1] + [t] + ts[k + 1..];
    NoDupInsert(ts, t, k + 1);
    hide NoDup;
    forall i | 0 <= i < |us|
      ensures us[i].prev == Before(us, i) && us[i].next == After(us, i)
    {
      if i <= k { assert us[i] == ts[i]; }
      if i > k + 1 { assert us[i] == ts[i - 1]; }
    }
  }

  lemma InsertedIs(ts: seq<UtilTimer>, t: UtilTimer)
    ensures var k := Place(ts, t.expire); Inserted(ts, t) == ts[..k] + [t] + ts[k..]
  {
  }

  lemma InsertedFirst(ts: seq<UtilTimer>, t: UtilTimer)
    ensures ts == [] || t.expire < ts[0].expire ==> Inserted(ts, t) == [t] + ts
  {
  }

  lemma Single(t: UtilTimer)
    requires t.prev == null && t.next == null
    ensures Linked([t]) && NoDup([t])
  {
  }
}
