/** time_wheel_timer.cpp: a hashed wheel of N slots, each a doubly linked list of timers with rotation counts.
    (`ticks` in add_timer is the local variable the source forgets to declare.) */
module TimeWheelModel {
  import opened Seqs

  const N: nat := 60
  const SI: nat := 1

  class TwTimer {
    const timeSlot: nat
    var rotation: nat
    var prev: TwTimer?
    var next: TwTimer?

    constructor (rotation: nat, timeSlot: nat)
      ensures this.rotation == rotation && this.timeSlot == timeSlot && prev == null && next == null
    {
      this.rotation, this.timeSlot, prev, next := rotation, timeSlot, null, null;
    }
  }

  function Before(ts: seq<TwTimer>, i: nat): TwTimer? {
    if 0 < i <= |ts| then ts[i - 1] else null
  }

  function After(ts: seq<TwTimer>, i: nat): TwTimer? {
    if i + 1 < |ts| then ts[i + 1] else null
  }

  function First(ts: seq<TwTimer>): TwTimer? {
    if ts == [] then null else ts[0]
  }

  ghost predicate Linked(ts: seq<TwTimer>)
    reads ts`prev, ts`next
  {
    forall i :: 0 <= i < |ts| ==> ts[i].prev == Before(ts, i) && ts[i].next == After(ts, i)
  }

  ghost predicate InSlot(ts: seq<TwTimer>, slot: nat) {
    forall t :: t in ts ==> t.timeSlot == slot
  }

  ghost predicate Slotted(buckets: seq<seq<TwTimer>>) {
    forall i :: 0 <= i < |buckets| ==> InSlot(buckets[i], i)
  }

  ghost function Set(ts: seq<TwTimer>): set<TwTimer> {
    set t | t in ts
  }

  ghost function AllOf(buckets: seq<seq<TwTimer>>): set<TwTimer> {
    set i, t | 0 <= i < |buckets| && t in buckets[i] :: t
  }

  /** How many slots the wheel must turn from cur to reach slot. */
  function Distance(slot: nat, cur: nat): nat
    requires slot < N && cur < N
  {
    if slot >= cur then slot - cur else slot + N - cur
  }

  /** Timeouts are rounded down to whole slots, but never to none. */
  function Countdown(timeout: nat): nat {
    if timeout < SI then 1 else timeout / SI
  }

  // ---- the abstract machine: a countdown per timer ----

  function Due<T>(m: map<T, nat>): set<T> {
    set t | t in m && m[t] == 0
  }

  function Ticked<T>(m: map<T, nat>): map<T, nat> {
    map t | t in m && m[t] > 0 :: m[t] - 1
  }

  datatype Op<T> = Add(t: T, k: nat) | Del(t: T) | Tick | Nothing

  function Step<T>(m: map<T, nat>, op: Op<T>): map<T, nat> {
    match op
    case Add(t, k) => m[t := k]
    case Del(t) => m - {t}
    case Tick => Ticked(m)
    case Nothing => m
  }

  function Run<T>(m: map<T, nat>, ops: seq<Op<T>>): map<T, nat>
    decreases |ops|
  {
    if ops == [] then m else Run(Step(m, ops[0]), ops[1..])
  }

  function Ticks<T>(ops: seq<Op<T>>): nat {
    if ops == [] then 0 else (if ops[0].Tick? then 1 else 0) + Ticks(ops[1..])
  }

  /** How many ticks of the run fire t. */
  function Fires<T(==)>(m: map<T, nat>, ops: seq<Op<T>>, t: T): nat
    decreases |ops|
  {
    if ops == [] then 0
    else (if ops[0].Tick? && t in Due(m) then 1 else 0) + Fires(Step(m, ops[0]), ops[1..], t)
  }

  /** A timer with k ticks to go, neither deleted nor added again, waits through k ticks and fires once, on the next. */
  lemma {:induction false} FiresExactlyOnce<T>(m: map<T, nat>, ops: seq<Op<T>>, t: T)
    requires forall op :: op in ops ==> op.Tick? || op.Nothing? || op.t != t
    ensures Fires(m, ops, t) == if t in m && Ticks(ops) > m[t] then 1 else 0
    ensures t in Run(m, ops) <==> t in m && Ticks(ops) <= m[t]
    ensures t in m && Ticks(ops) <= m[t] ==> Run(m, ops)[t] == m[t] - Ticks(ops)
    decreases |ops|
  {
    if ops != [] {
      assert ops[0] in ops;
      FiresExactlyOnce(Step(m, ops[0]), ops[1..], t);
    }
  }

  class TimeWheel {
    const slots: array<TwTimer?>
    var curSlot: nat
    ghost var buckets: seq<seq<TwTimer>>

    ghost predicate Bucket(i: nat)
      requires i < |buckets| == slots.Length
      reads this`buckets, slots, buckets[i]`prev, buckets[i]`next
    {
      slots[i] == First(buckets[i]) && Linked(buckets[i]) && NoDup(buckets[i]) && InSlot(buckets[i], i)
    }

    ghost predicate Valid()
      reads this`buckets, this`curSlot, slots, Timers()`prev, Timers()`next
    {
      && slots.Length == |buckets| == N && curSlot < N
      && forall i :: 0 <= i < N ==> (assert forall t :: t in buckets[i] ==> t in Timers(); Bucket(i))
    }

    ghost function Timers(): set<TwTimer>
      reads this`buckets
    {
      AllOf(buckets)
    }

    /** How many ticks are still to pass before the tick that fires t. */
    ghost function Remaining(t: TwTimer): nat
      reads this`curSlot, t`rotation
      requires t.timeSlot < N && curSlot < N
    {
      Distance(t.timeSlot, curSlot) + N * t.rotation
    }

    /** The wheel as a countdown per pending timer. */
    ghost function View(): (m: map<TwTimer, nat>)
      reads this, slots, Timers()
      requires Valid()
      ensures m.Keys == Timers()
    {
      map t | t in Timers() :: (assert t.timeSlot < N by { ValidIsSlotted(); WhereIs(buckets, t); } Remaining(t))
    }

    constructor ()
      ensures Valid() && Timers() == {} && fresh(slots)
    {
      slots := new TwTimer?[N](_ => null);
      curSlot := 0;
      buckets := seq(N, _ => []);
    }

    /** Unlink the k-th timer of a slot: lines 82-94, repeated at 109-125. */
    method Unlink(timer: TwTimer, ghost k: nat)
      requires Valid() && timer.timeSlot < N && k < |buckets[timer.timeSlot]| && buckets[timer.timeSlot][k] == timer
      modifies slots, this`buckets, buckets[timer.timeSlot]`prev, buckets[timer.timeSlot]`next
      ensures Valid() && timer.next == old(timer.next)
      ensures buckets == old(buckets[timer.timeSlot := Removed(buckets[timer.timeSlot], k)])
    {
      hide NoDup, Before, After, First, InSlot;
      var slot := timer.timeSlot;
      ghost var ts := buckets[slot];
      assert Bucket(slot);
      Position(ts, k);
      Neighbour(ts, k);
      if timer == slots[slot] {
        slots[slot] := timer.next;
        if slots[slot] != null {
          slots[slot].prev := null;
        }
      } else {
        Previous(ts, k);
        timer.prev.next := timer.next;
        if timer.next != null {
          timer.next.prev := timer.prev;
        }
      }
      forall i | 0 <= i < |ts| && i != k
        ensures ts[i].next == (if i + 1 == k then After(ts, k) else After(ts, i))
        ensures ts[i].prev == if i == k + 1 then Before(ts, k) else Before(ts, i)
      {
        NoDupAt(ts, i, k + 1);
        if k > 0 { NoDupAt(ts, i, k - 1); }
      }
      RemovedLinked(ts, k);
      buckets := buckets[slot := Removed(ts, k)];
      forall i | 0 <= i < N
        ensures Bucket(i)
      {
        if i != slot {
          assert old(Bucket(i));
          OtherSlot(buckets[i], i, ts, slot);
        }
      }
    }

    lemma BucketAt(i: nat)
      requires Valid() && i < N
      ensures slots.Length == |buckets| == N && curSlot < N && Bucket(i)
    {
    }

    lemma ValidIsSlotted()
      requires Valid()
      ensures Slotted(buckets) && |buckets| == N
    {
      forall i | 0 <= i < |buckets| ensures InSlot(buckets[i], i) {
        assert Bucket(i);
      }
    }

    method AddTimer(timeout: int) returns (timer: TwTimer?)
      requires Valid()
      modifies slots, this`buckets, Timers()`prev
      ensures Valid() && (timer == null <==> timeout < 0) && (timer == null ==> buckets == old(buckets))
      ensures timer != null ==> fresh(timer) && timer.timeSlot < N && curSlot == old(curSlot)
      ensures timer == null ==> View() == old(View())
      ensures timer != null ==> View() == old(View())[timer := if timeout < SI then 1 else timeout / SI]
      ensures timer != null ==> buckets == old(buckets)[timer.timeSlot := [timer] + old(buckets)[timer.timeSlot]]
    {
      if timeout < 0 {
        return null;
      }
      hide Valid, Bucket, Distance, AllOf, View;
      BucketAt(0);
      var ticks := Countdown(timeout);
      var rotation := ticks / N;
      var ts := (curSlot + ticks % N) % N;
      Placed(ticks, curSlot);
      InAll(buckets, ts);
      timer := new TwTimer(rotation, ts);
      InsertFirst(timer);
      ViewGrew(timer, ticks);
    }

    twostate lemma ViewGrew(new timer: TwTimer, k: nat)
      requires old(Valid()) && Valid() && curSlot == old(curSlot) && !old(allocated(timer)) && timer.timeSlot < N
      requires Timers() == old(Timers()) + {timer} && Remaining(timer) == k
      requires forall t :: t in old(Timers()) ==> t.rotation == old(t.rotation)
      ensures View() == old(View())[timer := k]
    {
    }

    /** Lines 66-74. */
    method InsertFirst(timer: TwTimer)
      requires Valid() && timer.timeSlot < N && timer !in Timers() && timer.prev == null && timer.next == null
      modifies slots, this`buckets, buckets[timer.timeSlot]`prev, timer`next
      ensures Valid() && Timers() == old(Timers()) + {timer}
      ensures buckets == old(buckets)[timer.timeSlot := [timer] + old(buckets)[timer.timeSlot]]
    {
      hide NoDup, Before, After, First, InSlot;
      var slot := timer.timeSlot;
      ghost var ts := buckets[slot];
      assert Bucket(slot);
      FirstIs(ts);
      ValidIsSlotted();
      WhereIs(buckets, timer);
      if slots[slot] == null {
        slots[slot] := timer;
      } else {
        timer.next := slots[slot];
        slots[slot].prev := timer;
        slots[slot] := timer;
      }
      forall i | 0 <= i < |ts|
        ensures ts[i].next == After(ts, i) && ts[i].prev == if i == 0 then timer else Before(ts, i)
      {
        assert ts[i] in ts;
        NoDupAt(ts, i, 0);
      }
      FrontLinked(ts, timer);
      buckets := buckets[slot := [timer] + ts];
      forall i | 0 <= i < N
        ensures Bucket(i)
      {
        if i != slot {
          assert old(Bucket(i));
          OtherSlot(buckets[i], i, [timer] + ts, slot);
          forall j | 0 <= j < |buckets[i]|
            ensures buckets[i][j].prev == old(buckets[i][j].prev) && buckets[i][j].next == old(buckets[i][j].next)
          {
            assert buckets[i][j] in buckets[i];
          }
        }
      }
      WithTimer(old(buckets), slot, timer);
    }

    method DelTimer(timer: TwTimer?)
      requires Valid() && (timer != null ==> timer in Timers())
      modifies slots, this`buckets, Timers()`prev, Timers()`next
      ensures Valid() && View() == if timer == null then old(View()) else old(View()) - {timer}
    {
      hide Valid, View, Slotted;
      if timer == null {
        return;
      }
      ValidIsSlotted();
      WhereIs(buckets, timer);
      BucketAt(timer.timeSlot);
      ghost var k :| 0 <= k < |buckets[timer.timeSlot]| && buckets[timer.timeSlot][k] == timer;
      WithoutTimer(buckets, timer.timeSlot, k);
      InAll(buckets, timer.timeSlot);
      Unlink(timer, k);
      ViewShrank(timer);
    }

    twostate lemma ViewShrank(timer: TwTimer)
      requires old(Valid()) && Valid() && curSlot == old(curSlot) && Timers() == old(Timers()) - {timer}
      requires forall t :: t in old(Timers()) ==> t.rotation == old(t.rotation)
      ensures View() == old(View()) - {timer}
    {
    }

    /** tick(): the result lists the timers whose callback ran. */
    method Tick() returns (fired: seq<TwTimer>)
      requires Valid()
      modifies slots, this`curSlot, this`buckets, Timers()`prev, Timers()`next, Timers()`rotation
      ensures Valid() && curSlot == (old(curSlot) + 1) % N
      ensures View() == Ticked(old(View()))
      ensures NoDup(fired) && forall t :: t in fired <==> t in Due(old(View()))
    {
      hide Valid, Bucket, View, NoDup, InSlot, Slotted, Due, Ticked;
      ValidIsSlotted();
      ghost var slot := curSlot;
      BucketAt(0);
      InAll(buckets, slot);
      ghost var kept: seq<TwTimer>;
      fired, kept := Sweep();
      Advance();
      ViewTurned(slot, fired, kept);
    }

    /** Line 129. */
    method Advance()
      requires Valid()
      modifies this`curSlot
      ensures Valid() && curSlot == (old(curSlot) + 1) % N
    {
      curSlot := (curSlot + 1) % N;
    }

    twostate lemma ViewTurned(slot: nat, new fired: seq<TwTimer>, new kept: seq<TwTimer>)
      requires old(Valid()) && Valid() && slot == old(curSlot) && curSlot == (slot + 1) % N && Slotted(old(buckets))
      requires buckets == old(buckets)[slot := kept]
      requires forall t :: t in old(buckets[slot]) ==> t in kept || t in fired
      requires forall t :: t in kept ==>
                 t in old(buckets[slot]) && old(t.rotation) > 0 && t.rotation == old(t.rotation) - 1
      requires forall t :: t in fired ==> t in old(buckets[slot]) && old(t.rotation) == 0
      requires forall t :: t in old(Timers()) && t !in old(buckets[slot]) ==> t.rotation == old(t.rotation)
      ensures View() == Ticked(old(View())) && forall t :: t in fired <==> t in Due(old(View()))
    {
      hide Distance, NoDup, InSlot, Slotted, Bucket;
      ghost var all := old(buckets);
      ValidIsSlotted();
      forall t | t in old(Timers())
        ensures t.timeSlot < N && (t in Timers() <==> t !in fired)
        ensures t in fired <==> old(Remaining(t)) == 0
        ensures t !in fired ==> Remaining(t) == old(Remaining(t)) - 1
      {
        AfterSweep(all, slot, fired, kept, t);
        Turn(t.timeSlot, slot, old(t.rotation));
      }
      forall t: TwTimer | t in Timers() || t in fired
        ensures t in old(Timers())
      {
        AfterSweep(all, slot, fired, kept, t);
      }
    }

    /** Lines 99-128: walk the current slot, firing the timers with no rotation left. */
    method Sweep() returns (fired: seq<TwTimer>, ghost kept: seq<TwTimer>)
      requires Valid()
      modifies slots, this`buckets
      modifies Set(buckets[curSlot])`prev, Set(buckets[curSlot])`next, Set(buckets[curSlot])`rotation
      ensures Valid() && buckets == old(buckets[curSlot := kept])
      ensures NoDup(fired) && forall t :: t in old(buckets[curSlot]) <==> t in kept || t in fired
      ensures forall t :: t in kept ==>
                t in old(buckets[curSlot]) && old(t.rotation) > 0 && t.rotation == old(t.rotation) - 1
      ensures forall t :: t in fired ==> t in old(buckets[curSlot]) && old(t.rotation) == 0
    {
      hide Valid, Bucket, NoDup, First, InSlot, Linked, Swept, Walk;
      BucketAt(0);
      BucketIs(curSlot);
      ghost var ts := buckets[curSlot];
      ghost var rot: map<TwTimer, nat> := map t | t in ts :: t.rotation;
      Start(ts, rot);
      StartWalk(ts, rot);
      fired, kept := WalkSlot(ts, rot);
    }

    method WalkSlot(ghost ts: seq<TwTimer>, ghost rot: map<TwTimer, nat>)
      returns (fired: seq<TwTimer>, ghost kept: seq<TwTimer>)
      requires Valid() && Walk(buckets, ts, 0, [], rot, slots[curSlot]) && Swept(ts, 0, [], [], rot)
      modifies slots, this`buckets, Set(ts)`prev, Set(ts)`next, Set(ts)`rotation
      ensures Valid() && buckets == old(buckets)[curSlot := kept]
      ensures NoDup(fired) && forall t :: t in ts <==> t in kept || t in fired
      ensures forall t :: t in kept ==> t in ts && t in rot && t.rotation + 1 == rot[t]
      ensures forall t :: t in fired ==> t in ts && t in rot && rot[t] == 0
    {
      hide Valid, Bucket, NoDup, Swept, Walk, Set;
      ghost var all, i := buckets, 0;
      BucketAt(0);
      fired, kept := [], [];
      var tmp := slots[curSlot];
      while tmp != null
        invariant Walk(all, ts, i, kept, rot, tmp) && Swept(ts, i, kept, fired, rot)
        decreases |ts| - i
      {
        WalkAt(all, ts, i, kept, rot, tmp);
        if tmp.rotation > 0 {
          tmp := Keep(tmp, all, ts, i, kept, fired, rot);
          kept := kept + [ts[i]];
        } else {
          var tmp2 := Fire(tmp, all, ts, i, kept, fired, rot);
          fired, tmp := fired + [tmp], tmp2;
        }
        i := i + 1;
      }
      WalkOver(all, ts, i, kept, fired, rot);
    }

    /** The slot now holds the kept timers and the rest of ts from i on, and tmp is where the walk stands. */
    ghost predicate Walk(all: seq<seq<TwTimer>>, ts: seq<TwTimer>, i: nat, kept: seq<TwTimer>, rot: map<TwTimer, nat>,
                         tmp: TwTimer?)
      reads this`buckets, this`curSlot, slots, Timers()`prev, Timers()`next, Set(ts)`rotation
    {
      && Valid() && |all| == N && i <= |ts| && buckets == all[curSlot := kept + ts[i..]] && tmp == First(ts[i..])
      && (forall t :: t in ts[i..] ==> t in ts && t in rot && t.rotation == rot[t])
      && (forall t :: t in kept ==> t in ts && t in rot && t.rotation + 1 == rot[t])
    }

    lemma StartWalk(ts: seq<TwTimer>, rot: map<TwTimer, nat>)
      requires Valid() && ts == buckets[curSlot] && forall t :: t in ts ==> t in rot && t.rotation == rot[t]
      ensures Walk(buckets, ts, 0, [], rot, slots[curSlot])
    {
      hide First, Valid;
      BucketAt(0);
      BucketIs(curSlot);
      assert ts[0..] == ts && [] + ts == ts && buckets == buckets[curSlot := ts];
    }

    lemma WalkAt(all: seq<seq<TwTimer>>, ts: seq<TwTimer>, i: nat, kept: seq<TwTimer>, rot: map<TwTimer, nat>,
                 tmp: TwTimer?)
      requires Walk(all, ts, i, kept, rot, tmp) && tmp != null
      ensures i < |ts| && tmp == ts[i] && tmp in rot && tmp.rotation == rot[tmp]
    {
      assert ts[i] in ts[i..];
    }

    lemma WalkOver(all: seq<seq<TwTimer>>, ts: seq<TwTimer>, i: nat, kept: seq<TwTimer>, fired: seq<TwTimer>,
                   rot: map<TwTimer, nat>)
      requires Walk(all, ts, i, kept, rot, null) && Swept(ts, i, kept, fired, rot)
      ensures Valid() && buckets == all[curSlot := kept]
      ensures NoDup(fired) && forall t :: t in ts <==> t in kept || t in fired
      ensures forall t :: t in kept ==> t in ts && t in rot && t.rotation + 1 == rot[t]
      ensures forall t :: t in fired ==> t in ts && t in rot && rot[t] == 0
    {
      hide Valid, NoDup;
      assert i == |ts| && ts[..i] == ts && kept + ts[i..] == kept;
    }

    /** Lines 103-106: one rotation less, and on to the next timer. */
    method Keep(timer: TwTimer, ghost all: seq<seq<TwTimer>>, ghost ts: seq<TwTimer>, ghost i: nat,
                ghost kept: seq<TwTimer>, ghost fired: seq<TwTimer>, ghost rot: map<TwTimer, nat>)
      returns (tmp: TwTimer?)
      requires Walk(all, ts, i, kept, rot, timer) && Swept(ts, i, kept, fired, rot) && timer.rotation > 0
      modifies Set(ts)`rotation
      ensures Walk(all, ts, i + 1, kept + [timer], rot, tmp) && Swept(ts, i + 1, kept + [timer], fired, rot)
    {
      hide Valid, NoDup, First, Bucket, InSlot, Linked, Swept;
      BucketAt(0);
      WalkAt(all, ts, i, kept, rot, timer);
      SweptAt(ts, i, kept, fired, rot);
      SweepAt(ts, i, kept);
      Next(ts, i, kept);
      timer.rotation := timer.rotation - 1;
      tmp := timer.next;
    }

    lemma BucketIs(i: nat)
      requires Valid() && i < N
      ensures slots[i] == First(buckets[i]) && NoDup(buckets[i])
    {
      BucketAt(i);
    }

    lemma Next(ts: seq<TwTimer>, i: nat, kept: seq<TwTimer>)
      requires Valid() && i < |ts| && NoDup(ts) && buckets[curSlot] == kept + ts[i..]
      requires forall t :: t in kept ==> t in ts[..i]
      ensures ts[i].next == First(ts[i + 1..]) && ts[i].timeSlot == curSlot
    {
      hide NoDup, InSlot, After;
      BucketAt(curSlot);
      SweepAt(ts, i, kept);
      SlotOf(buckets[curSlot], |kept|, curSlot);
      assert buckets[curSlot][|kept|] == ts[i];
    }

    /** Lines 109-126: unlink the fired timer and go on to the next. */
    method Fire(timer: TwTimer, ghost all: seq<seq<TwTimer>>, ghost ts: seq<TwTimer>, ghost i: nat,
                ghost kept: seq<TwTimer>, ghost fired: seq<TwTimer>, ghost rot: map<TwTimer, nat>)
      returns (tmp: TwTimer?)
      requires Walk(all, ts, i, kept, rot, timer) && Swept(ts, i, kept, fired, rot) && timer.rotation == 0
      modifies slots, this`buckets, Set(ts)`prev, Set(ts)`next
      ensures Walk(all, ts, i + 1, kept, rot, tmp) && Swept(ts, i + 1, kept, fired + [timer], rot)
    {
      hide Valid, NoDup, First, After, InSlot, Linked, Bucket, Swept;
      BucketAt(0);
      WalkAt(all, ts, i, kept, rot, timer);
      SweptAt(ts, i, kept, fired, rot);
      SweepAt(ts, i, kept);
      Next(ts, i, kept);
      tmp := timer.next;
      assert forall t :: t in buckets[timer.timeSlot] ==> t in ts;
      Unlink(timer, |kept|);
    }
  }

  /** Where t is when the slot's list has been cut down to the kept timers. */
  lemma AfterSweep(all: seq<seq<TwTimer>>, slot: nat, fired: seq<TwTimer>, kept: seq<TwTimer>, t: TwTimer)
    requires slot < |all| && Slotted(all) && Slotted(all[slot := kept])
    requires forall u :: u in all[slot] <==> u in kept || u in fired
    requires forall u :: u in kept ==> u !in fired
    ensures t in AllOf(all) ==> t.timeSlot < |all| && (t.timeSlot == slot <==> t in kept || t in fired)
    ensures t in AllOf(all[slot := kept]) <==> t in AllOf(all) && t !in fired
    ensures t in fired ==> t in AllOf(all)
  {
    hide InSlot, Slotted, AllOf;
    WhereIs(all, t);
    WhereIs(all[slot := kept], t);
    InAll(all, slot);
    AtSlot(all, slot, t);
  }

  lemma AtSlot(all: seq<seq<TwTimer>>, slot: nat, t: TwTimer)
    requires slot < |all| && Slotted(all)
    ensures t in all[slot] ==> t.timeSlot == slot
  {
    assert InSlot(all[slot], slot);
  }

  lemma SlotOf(ts: seq<TwTimer>, k: nat, slot: nat)
    requires InSlot(ts, slot) && k < |ts|
    ensures ts[k].timeSlot == slot
  {
  }

  /** The first i timers of the slot are dealt with: kept if they had rotations left, fired if they had none. */
  ghost predicate Swept(ts: seq<TwTimer>, i: nat, kept: seq<TwTimer>, fired: seq<TwTimer>, rot: map<TwTimer, nat>) {
    && i <= |ts| && NoDup(ts) && NoDup(fired) && (forall t :: t in ts ==> t in rot)
    && (forall t :: t in kept ==> t in ts[..i] && t in rot && rot[t] > 0)
    && (forall t :: t in fired ==> t in ts[..i] && t in rot && rot[t] == 0)
    && forall t :: t in ts[..i] ==> t in kept || t in fired
  }

  lemma Start(ts: seq<TwTimer>, rot: map<TwTimer, nat>)
    requires NoDup(ts) && forall t :: t in ts ==> t in rot
    ensures Swept(ts, 0, [], [], rot) && [] + ts[0..] == ts && ts[0..] == ts
  {
  }

  lemma SweptAt(ts: seq<TwTimer>, i: nat, kept: seq<TwTimer>, fired: seq<TwTimer>, rot: map<TwTimer, nat>)
    requires Swept(ts, i, kept, fired, rot) && i < |ts|
    ensures First(ts[i..]) == ts[i] && ts[i] in ts && ts[i] in ts[i..] && ts[i] !in kept && ts[i] !in ts[i + 1..]
    ensures forall t :: t in ts[i + 1..] ==> t in ts[i..]
    ensures NoDup(ts) && kept + [ts[i]] + ts[i + 1..] == kept + ts[i..] && forall t :: t in kept ==> t in ts[..i]
    ensures ts[i] in rot && rot[ts[i]] > 0 ==> Swept(ts, i + 1, kept + [ts[i]], fired, rot)
    ensures ts[i] in rot && rot[ts[i]] == 0 ==> Swept(ts, i + 1, kept, fired + [ts[i]], rot)
  {
    hide NoDup;
    SweepAt(ts, i, kept);
    NoDupSnoc(fired, ts[i]);
  }

  /** Where the walk stands: the kept timers, then the rest of the slot from ts[i] on. */
  lemma SweepAt(ts: seq<TwTimer>, i: nat, kept: seq<TwTimer>)
    requires i < |ts| && NoDup(ts) && forall t :: t in kept ==> t in ts[..i]
    ensures First(ts[i..]) == ts[i] && (kept + ts[i..])[|kept|] == ts[i]
    ensures After(kept + ts[i..], |kept|) == First(ts[i + 1..])
    ensures Removed(kept + ts[i..], |kept|) == kept + ts[i + 1..] && kept + [ts[i]] + ts[i + 1..] == kept + ts[i..]
    ensures ts[i] !in ts[..i] && ts[i] !in ts[i + 1..]
    ensures ts[..i + 1] == ts[..i] + [ts[i]] && ts[i..] == [ts[i]] + ts[i + 1..]
    ensures forall t :: t in kept + ts[i..] ==> t in ts
  {
  }

  lemma Placed(ticks: nat, cur: nat)
    requires cur < N
    ensures Distance((cur + ticks % N) % N, cur) + N * (ticks / N) == ticks
  {
  }

  /** One turn of the wheel takes one from every countdown not at zero, the current slot giving up a rotation. */
  lemma Turn(slot: nat, cur: nat, rotation: nat)
    requires slot < N && cur < N
    ensures var left := Distance(slot, cur) + N * rotation;
            && (left == 0 <==> slot == cur && rotation == 0)
            && (left > 0 ==>
                  Distance(slot, (cur + 1) % N) + N * (if slot == cur then rotation - 1 else rotation) == left - 1)
  {
  }

  lemma FirstIs(ts: seq<TwTimer>)
    ensures First(ts) == if ts == [] then null else ts[0]
  {
  }

  lemma FrontLinked(ts: seq<TwTimer>, t: TwTimer)
    requires t !in ts && NoDup(ts) && t.prev == null && t.next == First(ts) && InSlot(ts, t.timeSlot)
    requires forall i :: 0 <= i < |ts| ==>
               ts[i].next == After(ts, i) && ts[i].prev == if i == 0 then t else Before(ts, i)
    ensures Linked([t] + ts) && NoDup([t] + ts) && First([t] + ts) == t && InSlot([t] + ts, t.timeSlot)
  {
    var us := [t] + ts;
    forall i | 0 <= i < |us|
      ensures us[i].prev == Before(us, i) && us[i].next == After(us, i)
    {
      if i > 0 { assert us[i] == ts[i - 1]; }
    }
  }

  lemma WithTimer(buckets: seq<seq<TwTimer>>, slot: nat, t: TwTimer)
    requires slot < |buckets|
    ensures AllOf(buckets[slot := [t] + buckets[slot]]) == AllOf(buckets) + {t}
  {
    var after := buckets[slot := [t] + buckets[slot]];
    forall u | u in AllOf(buckets) + {t}
      ensures u in AllOf(after)
    {
      if u != t {
        var i :| 0 <= i < |buckets| && u in buckets[i];
        assert u in after[i];
      } else {
        assert u in after[slot];
      }
    }
  }

  lemma WithoutTimer(buckets: seq<seq<TwTimer>>, slot: nat, k: nat)
    requires Slotted(buckets) && slot < |buckets| && k < |buckets[slot]| && NoDup(buckets[slot])
    ensures AllOf(buckets[slot := Removed(buckets[slot], k)]) == AllOf(buckets) - {buckets[slot][k]}
  {
    var after := buckets[slot := Removed(buckets[slot], k)];
    RemovedMembers(buckets[slot], k);
    forall i | 0 <= i < |after| ensures InSlot(after[i], i) {
      assert InSlot(buckets[i], i);
    }
    forall t | t in AllOf(buckets) + AllOf(after)
      ensures t in AllOf(after) <==> t in AllOf(buckets) && t != buckets[slot][k]
    {
      WhereIs(buckets, t);
      WhereIs(after, t);
    }
    assert InSlot(buckets[slot], slot);
    assert buckets[slot][k] in buckets[slot];
  }

  /** A timer is in its slot's list, and nowhere else. */
  lemma WhereIs(buckets: seq<seq<TwTimer>>, t: TwTimer)
    requires Slotted(buckets)
    ensures t in AllOf(buckets) <==> t.timeSlot < |buckets| && t in buckets[t.timeSlot]
  {
    if t in AllOf(buckets) {
      var i :| 0 <= i < |buckets| && t in buckets[i];
      assert InSlot(buckets[i], i);
    }
  }

  lemma InAll(buckets: seq<seq<TwTimer>>, i: nat)
    requires i < |buckets|
    ensures forall t :: t in buckets[i] ==> t in AllOf(buckets)
  {
  }

  lemma OtherSlot(a: seq<TwTimer>, i: nat, b: seq<TwTimer>, j: nat)
    requires InSlot(a, i) && InSlot(b, j) && i != j
    ensures forall t :: t in a ==> t !in b
  {
  }

  lemma Position(ts: seq<TwTimer>, k: nat)
    requires NoDup(ts) && k < |ts|
    ensures First(ts) == ts[0] && (ts[k] == ts[0] <==> k == 0) && Before(ts, 0) == null
  {
  }

  lemma Neighbour(ts: seq<TwTimer>, k: nat)
    requires NoDup(ts) && k < |ts|
    ensures ts[k] in ts && After(ts, k) == (if k + 1 < |ts| then ts[k + 1] else null)
    ensures k + 1 < |ts| ==> ts[k + 1] in ts && ts[k + 1] != ts[k]
  {
  }

  lemma Previous(ts: seq<TwTimer>, k: nat)
    requires NoDup(ts) && 0 < k < |ts|
    ensures Before(ts, k) == ts[k - 1] && ts[k - 1] in ts && ts[k - 1] != ts[k]
    ensures k + 1 < |ts| ==> ts[k - 1] != ts[k + 1]
  {
  }

  lemma RemovedLinked(ts: seq<TwTimer>, k: nat)
    requires k < |ts| && NoDup(ts)
    requires forall i :: 0 <= i < |ts| && i != k ==>
               && ts[i].next == (if i + 1 == k then After(ts, k) else After(ts, i))
               && ts[i].prev == (if i == k + 1 then Before(ts, k) else Before(ts, i))
    ensures Linked(Removed(ts, k)) && NoDup(Removed(ts, k))
    ensures First(Removed(ts, k)) == if k == 0 then After(ts, 0) else ts[0]
    ensures forall slot :: InSlot(ts, slot) ==> InSlot(Removed(ts, k), slot)
  {
    RemovedNoDup(ts, k);
    hide NoDup;
    var us := Removed(ts, k);
    forall i | 0 <= i < |us|
      ensures us[i].prev == Before(us, i) && us[i].next == After(us, i)
    {
      assert us[i] == ts[if i < k then i else i + 1];
    }
  }
}
