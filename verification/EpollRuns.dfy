/** Properties of whole runs of the epoll protocol, stated over steps alone: no edge is lost, rotation is fair, a
    one-shot item is delivered once, and what one scan, from its start to its end, leaves on the ready list. */
module EpollRuns {
  import opened EpollLists
  import opened EpollTasks
  import opened Seqs

  // ---- no lost edge, without history variables ----

  lemma OneStep(s: Sys, l: Label)
    requires SysInv(s) && NoLostWakeup(s) && Enabled(s, l)
    ensures SysInv(Apply(s, l)) && NoLostWakeup(Apply(s, l))
  {
    ReachableStates(s, [l]);
    assert Run(s, [l]) == Apply(s, l);
  }

  /** This step calls f_op->poll on `i` from the scan. */
  predicate Polls(s: Sys, l: Label, i: Item) {
    l.PollFile? && s.lists.scan.Scan? && s.lists.scan.phase == Unlinked(i)
  }

  /** The scan does not poll `i` along this run, and its insertion is not undone. */
  predicate Undisturbed(s: Sys, ls: seq<Label>, i: Item)
    requires CanRun(s, ls)
    decreases |ls|
  {
    ls == [] || (!Polls(s, ls[0], i) && (ls[0].AddFail? ==> s.mtx != InsertHolds(i)) &&
                 Undisturbed(Apply(s, ls[0]), ls[1..], i))
  }

  lemma OwedStep(s: Sys, l: Label, i: Item)
    requires Enabled(s, l) && !Polls(s, l, i) && (l.AddFail? ==> s.mtx != InsertHolds(i))
    ensures i in s.lists.owed ==> i in Apply(s, l).lists.owed
  {
  }

  /** Where an item with an unseen event may be: the last place is between list_del_init and f_op->poll. */
  predicate OnSomeList(s: Sys, i: Item) {
    || i in s.lists.rdl || i in s.lists.tx || i in s.lists.ovf
    || (s.lists.scan.Scan? && s.lists.scan.phase == Unlinked(i))
  }

  lemma {:induction false} OwedPersists(s: Sys, ls: seq<Label>, i: Item)
    requires SysInv(s) && NoLostWakeup(s) && CanRun(s, ls) && Undisturbed(s, ls, i) && i in s.lists.owed
    ensures OnSomeList(Run(s, ls), i)
    decreases |ls|
  {
    if ls != [] {
      OneStep(s, ls[0]);
      OwedStep(s, ls[0], i);
      OwedPersists(Apply(s, ls[0]), ls[1..], i);
    }
  }

  /** The mask tests: some poll(2) bit is watched, and the key, if there is one, has a watched bit. */
  lemma PassesIs(m: Mask, key: set<Event>)
    ensures Passes(m, key) <==> m.bits != {} && (key == {} || exists e :: e in key && e in m.bits)
  {
    if e :| e in key && e in m.bits {
      assert e in key * m.bits;
    }
    if key * m.bits != {} {
      var e :| e in key * m.bits;
    }
  }

  /** From a callback that passes both mask tests until the scan next polls the item, the item stays on rdllist,
      txlist or ovflist, or is the one just unlinked to be polled. */
  lemma NoEdgeIsLost(s: Sys, i: Item, key: set<Event>, ls: seq<Label>)
    requires SysInv(s) && NoLostWakeup(s) && i in s.lists.mask
    requires s.lists.mask[i].bits != {} && (key == {} || exists e :: e in key && e in s.lists.mask[i].bits)
    requires CanRun(Apply(s, Hook(i, key)), ls) && Undisturbed(Apply(s, Hook(i, key)), ls, i)
    ensures OnSomeList(Run(Apply(s, Hook(i, key)), ls), i)
  {
    PassesIs(s.lists.mask[i], key);
    OneStep(s, Hook(i, key));
    OwedPersists(Apply(s, Hook(i, key)), ls, i);
  }

  /** The same for an item that ep_insert finds ready: a bit of its mask is among those f_op->poll has answered. */
  lemma NoReadyItemIsLost(s: Sys, ready: set<Event>, e: Event, ls: seq<Label>)
    requires SysInv(s) && NoLostWakeup(s) && Enabled(s, AddReady(ready))
    requires e in ready && e in s.lists.mask[s.mtx.item].bits
    requires CanRun(Apply(s, AddReady(ready)), ls) && Undisturbed(Apply(s, AddReady(ready)), ls, s.mtx.item)
    ensures OnSomeList(Run(Apply(s, AddReady(ready)), ls), s.mtx.item)
  {
    assert e in ready * s.lists.mask[s.mtx.item].bits;
    OneStep(s, AddReady(ready));
    OwedPersists(Apply(s, AddReady(ready)), ls, s.mtx.item);
  }

  // ---- rotation ----

  /** Every scan may report at least `m` events, user memory never faults, and `i` stays monitored. */
  predicate Fair(s: Sys, l: Label, i: Item, m: nat) {
    && (l.Start? && l.t in s.pc ==> s.pc[l.t].WantScan? && s.pc[l.t].max >= m)
    && (l.PutUser? ==> !l.fault)
    && (l.AddFail? ==> s.mtx != InsertHolds(i))
  }

  /** A fair run along which no scan polls `i`. */
  predicate Starves(s: Sys, ls: seq<Label>, i: Item, m: nat)
    requires CanRun(s, ls)
    decreases |ls|
  {
    ls == [] || (Fair(s, ls[0], i, m) && !Polls(s, ls[0], i) && Starves(Apply(s, ls[0]), ls[1..], i, m))
  }

  function CompletedScans(ls: seq<Label>): nat {
    if ls == [] then 0 else (if ls[0].End? then 1 else 0) + CompletedScans(ls[1..])
  }

  /** `i` will be polled before `k` more scans have ended: its place in line, counted together with the events
      the running scan has already reported, is below k * m. */
  ghost predicate InLine(s: Sys, i: Item, k: nat, m: nat) {
    var c := s.lists;
    if c.scan.NoScan? then
      exists q :: 0 <= q < |c.rdl| && c.rdl[q] == i && q < k * m
    else
      && c.scan.maxevents >= m && !c.scan.phase.Faulted?
      && ((c.scan.phase == Unlinked(i) && k >= 1) ||
          exists q :: 0 <= q < |c.tx| && c.tx[q] == i && q + c.scan.count + |Hand(c.scan)| < k * m)
  }

  lemma {:induction false} WithoutKeepsPlace(s: seq<Item>, j: Item, q: nat)
    requires q < |s| && s[q] != j
    ensures exists r :: 0 <= r < |Without(s, j)| && r <= q && Without(s, j)[r] == s[q]
  {
    var n := |s| - 1;
    if q < n {
      WithoutKeepsPlace(s[..n], j, q);
      var r :| 0 <= r < |Without(s[..n], j)| && r <= q && Without(s[..n], j)[r] == s[q];
      assert Without(s, j)[r] == s[q];
    } else {
      WithoutShorter(s[..n], j);
      assert Without(s, j)[|Without(s[..n], j)|] == s[q];
    }
  }

  lemma {:induction false} WithoutShorter(s: seq<Item>, j: Item)
    ensures |Without(s, j)| <= |s|
  {
    if s != [] { WithoutShorter(s[..|s| - 1], j); }
  }

  /** Outside a scan nothing ever moves an item back. */
  lemma InLineIdle(s: Sys, l: Label, i: Item, k: nat, m: nat)
    requires SysInv(s) && Enabled(s, l) && Fair(s, l, i, m) && InLine(s, i, k, m) && s.lists.scan.NoScan?
    ensures InLine(Apply(s, l), i, k, m) && !l.End?
  {
    var c, c' := s.lists, Apply(s, l).lists;
    var q :| 0 <= q < |c.rdl| && c.rdl[q] == i && q < k * m;
    match l {
      case AddFail => WithoutKeepsPlace(c.rdl, s.mtx.item, q);
      case Start(_) => assert c'.tx[q] == i;
      case _ => assert c'.rdl[q] == i;
    }
  }

  /** What a step within a scan does to txlist, to the item in hand and to the count. */
  lemma PlaceStep(s: Sys, l: Label, i: Item, m: nat)
    requires SysInv(s) && Enabled(s, l) && Fair(s, l, i, m) && !Polls(s, l, i) && s.lists.scan.Scan? && !l.End?
    ensures var c, c' := s.lists, Apply(s, l).lists;
            && c'.scan.Scan? && c'.scan.maxevents == c.scan.maxevents
            && (c'.scan.phase.Faulted? ==> c.scan.phase.Faulted?)
            && (c.scan.phase == Unlinked(i) ==> c'.scan.phase == Unlinked(i))
            && (l.Unlink? ==> c.tx != [] && c'.tx == c.tx[1..] && c'.scan.phase == Unlinked(c.tx[0])
                              && Hand(c.scan) == [] && c'.scan.count == c.scan.count)
            && (!l.Unlink? ==> c'.tx == c.tx && c'.scan.count + |Hand(c'.scan)| <= c.scan.count + |Hand(c.scan)|)
  {
    hide NoDup, TasksOk, NoLostEdge, ScanShape, Disjoint, WakeOne, Passes, LevelTriggered;
  }

  lemma InLineScan(s: Sys, l: Label, i: Item, k: nat, m: nat)
    requires SysInv(s) && Enabled(s, l) && Fair(s, l, i, m) && !Polls(s, l, i)
    requires InLine(s, i, k, m) && s.lists.scan.Scan? && !l.End?
    ensures InLine(Apply(s, l), i, k, m)
  {
    hide SysInv, Enabled, Apply, Fair, Polls;
    PlaceStep(s, l, i, m);
    var c, c' := s.lists, Apply(s, l).lists;
    if c.scan.phase != Unlinked(i) {
      var q :| 0 <= q < |c.tx| && c.tx[q] == i && q + c.scan.count + |Hand(c.scan)| < k * m;
      if l.Unlink? {
        if q > 0 {
          assert c'.tx[q - 1] == i;
        }
      } else {
        assert c'.tx[q] == i;
      }
    }
  }

  /** A scan that ends without having polled `i` has reported its full quota from the front of the line. */
  lemma InLineEnd(s: Sys, l: Label, i: Item, k: nat, m: nat)
    requires SysInv(s) && Enabled(s, l) && InLine(s, i, k, m) && l.End?
    ensures s.lists.scan.count == s.lists.scan.maxevents >= m
    ensures k > 1 && InLine(Apply(s, l), i, k - 1, m)
  {
    var c, c' := s.lists, Apply(s, l).lists;
    var q :| 0 <= q < |c.tx| && c.tx[q] == i && q + c.scan.count + |Hand(c.scan)| < k * m;
    assert c.scan.count >= m;
    assert (k - 1) * m == k * m - m;
    assert c'.rdl[q] == i;
  }

  lemma InLineStep(s: Sys, l: Label, i: Item, k: nat, m: nat)
    requires SysInv(s) && Enabled(s, l) && Fair(s, l, i, m) && !Polls(s, l, i) && InLine(s, i, k, m) && !l.End?
    ensures InLine(Apply(s, l), i, k, m)
  {
    hide SysInv, InLine, Enabled, Apply, Fair, Polls;
    if s.lists.scan.NoScan? { InLineIdle(s, l, i, k, m); } else { InLineScan(s, l, i, k, m); }
  }

  lemma StarvesOn(s: Sys, ls: seq<Label>, i: Item, m: nat)
    requires CanRun(s, ls) && Starves(s, ls, i, m) && ls != []
    ensures Enabled(s, ls[0]) && Fair(s, ls[0], i, m) && !Polls(s, ls[0], i)
    ensures CanRun(Apply(s, ls[0]), ls[1..]) && Starves(Apply(s, ls[0]), ls[1..], i, m)
    ensures CompletedScans(ls) == (if ls[0].End? then 1 else 0) + CompletedScans(ls[1..])
  {
    hide Enabled, Apply, Fair, Polls;
  }

  /** Fewer than `k` scans can end; the k-th cannot, because `i` would be in its quota. */
  lemma {:induction false} StarvedScans(s: Sys, ls: seq<Label>, i: Item, k: nat, m: nat)
    requires SysInv(s) && NoLostWakeup(s) && CanRun(s, ls) && InLine(s, i, k, m) && Starves(s, ls, i, m) && k > 0
    ensures CompletedScans(ls) < k
    decreases |ls|
  {
    hide SysInv, NoLostWakeup, InLine, Enabled, Apply, Fair, Polls;
    if ls != [] {
      var l := ls[0];
      OneStep(s, l);
      StarvesOn(s, ls, i, m);
      if l.End? {
        InLineEnd(s, l, i, k, m);
        StarvedScans(Apply(s, l), ls[1..], i, k - 1, m);
      } else {
        InLineStep(s, l, i, k, m);
        StarvedScans(Apply(s, l), ls[1..], i, k, m);
      }
    }
  }

  /** Rotation fairness: from place p, at most p / m scans can end before `i` is polled, however many callbacks
      and inserts arrive meanwhile. */
  lemma Rotation(s: Sys, ls: seq<Label>, p: nat, m: nat)
    requires SysInv(s) && NoLostWakeup(s) && s.lists.scan.NoScan? && p < |s.lists.rdl| && m > 0
    requires CanRun(s, ls) && Starves(s, ls, s.lists.rdl[p], m)
    ensures CompletedScans(ls) <= p / m
  {
    var k := p / m + 1;
    assert p < k * m;
    StarvedScans(s, ls, s.lists.rdl[p], k, m);
  }

  // ---- EPOLLONESHOT ----

  /** This step hands an event of `i` to user space. */
  predicate Delivers(s: Sys, l: Label, i: Item) {
    l.PutUser? && !l.fault && s.lists.scan.Scan? && s.lists.scan.phase.Polled?
    && s.lists.scan.phase.item == i && s.lists.scan.phase.revents != {}
  }

  function DeliveryCount(s: Sys, ls: seq<Label>, i: Item): nat
    requires CanRun(s, ls)
    decreases |ls|
  {
    if ls == [] then 0
    else (if Delivers(s, ls[0], i) then 1 else 0) + DeliveryCount(Apply(s, ls[0]), ls[1..], i)
  }

  predicate Arms(l: Label, i: Item) {
    (l.Modify? || l.AddItem?) && l.item == i
  }

  function Armed(c: Lists, i: Item): nat {
    if i in c.mask && c.mask[i].bits != {} then 1 else 0
  }

  lemma OneShotStep(s: Sys, l: Label, i: Item)
    requires SysInv(s) && Enabled(s, l) && !Arms(l, i)
    requires i in s.lists.mask ==> s.lists.mask[i].oneshot
    ensures Armed(Apply(s, l).lists, i) + (if Delivers(s, l, i) then 1 else 0) <= Armed(s.lists, i)
    ensures var c' := Apply(s, l).lists; i in c'.mask ==> c'.mask[i].oneshot
  {
    hide NoDup, TasksOk, MutexOk, NoLostEdge, Disjoint, WakeOne, Without, Fresh, Passes;
    if Delivers(s, l, i) {
      assert s.lists.scan.phase.revents <= s.lists.mask[i].bits;
    }
  }

  /** An EPOLLONESHOT item is delivered at most once per arming, whatever callbacks arrive, and not at all while
      it is disarmed. */
  lemma {:induction false} OneShot(s: Sys, ls: seq<Label>, i: Item)
    requires SysInv(s) && NoLostWakeup(s) && CanRun(s, ls)
    requires i in s.lists.mask ==> s.lists.mask[i].oneshot
    requires forall l :: l in ls ==> !Arms(l, i)
    ensures DeliveryCount(s, ls, i) <= Armed(s.lists, i)
    decreases |ls|
  {
    if ls != [] {
      assert ls[0] in ls;
      OneShotStep(s, ls[0], i);
      OneStep(s, ls[0]);
      OneShot(Apply(s, ls[0]), ls[1..], i);
    }
  }

  // ---- one scan, from start to end ----

  /** A device callback that gets past both mask tests. */
  predicate Hits(s: Sys, l: Label) {
    && l.Hook? && l.item in s.lists.mask && s.lists.mask[l.item].bits != {}
    && (l.key == {} || exists e :: e in l.key && e in s.lists.mask[l.item].bits)
  }

  lemma HitsIs(s: Sys, l: Label)
    ensures Hits(s, l) <==> l.Hook? && l.item in s.lists.mask && Passes(s.lists.mask[l.item], l.key)
  {
    hide Passes;
    if l.Hook? && l.item in s.lists.mask { PassesIs(s.lists.mask[l.item], l.key); }
  }

  /** The items hit along a run, in the order of the callbacks. */
  function HitLog(s: Sys, ls: seq<Label>): seq<Item>
    requires CanRun(s, ls)
    decreases |ls|
  {
    if ls == [] then []
    else (if Hits(s, ls[0]) then [ls[0].item] else []) + HitLog(Apply(s, ls[0]), ls[1..])
  }

  /** First arrivals of `log`, newest first, on top of `base`. */
  function Pile(log: seq<Item>, base: seq<Item>): seq<Item>
    decreases |log|
  {
    if log == [] then base else Pile(log[1..], if log[0] in base then base else [log[0]] + base)
  }

  lemma {:induction false} PileMembers(log: seq<Item>, base: seq<Item>)
    ensures forall i :: i in Pile(log, base) <==> i in log || i in base
    decreases |log|
  {
    if log != [] {
      assert log == [log[0]] + log[1..];
      PileMembers(log[1..], if log[0] in base then base else [log[0]] + base);
    }
  }

  lemma PilePush(i: Item, log: seq<Item>, base: seq<Item>)
    ensures Pile([i] + log, base) == Pile(log, if i in base then base else [i] + base)
  {
    assert ([i] + log)[1..] == log;
  }

  /** This step hands a level-triggered item to user space. */
  predicate Requeues(s: Sys, l: Label) {
    && l.PutUser? && !l.fault && s.lists.scan.Scan? && s.lists.scan.phase.Polled? && s.lists.scan.phase.revents != {}
    && s.lists.scan.phase.item in s.lists.mask
    && !s.lists.mask[s.lists.scan.phase.item].oneshot && !s.lists.mask[s.lists.scan.phase.item].et
  }

  /** The level-triggered items delivered along a run, in order. */
  function RequeueLog(s: Sys, ls: seq<Label>): seq<Item>
    requires CanRun(s, ls)
    decreases |ls|
  {
    if ls == [] then []
    else (if Requeues(s, ls[0]) then [s.lists.scan.phase.item] else []) + RequeueLog(Apply(s, ls[0]), ls[1..])
  }

  /** This step is done with the item in hand: it was delivered, or had no event; a copy fault puts it back instead. */
  predicate Settles(s: Sys, l: Label) {
    l.PutUser? && !(l.fault && s.lists.scan.Scan? && s.lists.scan.phase.Polled? && s.lists.scan.phase.revents != {})
  }

  /** How many items a run is done with. */
  function Settled(s: Sys, ls: seq<Label>): nat
    requires CanRun(s, ls)
    decreases |ls|
  {
    if ls == [] then 0 else (if Settles(s, ls[0]) then 1 else 0) + Settled(Apply(s, ls[0]), ls[1..])
  }

  predicate NoEnd(ls: seq<Label>) {
    forall l :: l in ls ==> !l.End?
  }

  /** A step within a scan: what it adds to the overflow chain, to rdllist and to the consumed items. */
  lemma ScanStep(s: Sys, l: Label)
    requires SysInv(s) && Enabled(s, l) && s.lists.scan.Scan? && !l.End?
    ensures var c, c' := s.lists, Apply(s, l).lists;
            && c'.scan.Scan? && c'.scan.stolen == c.scan.stolen && c.scan.done <= c'.scan.done
            && c'.ovf == (if Hits(s, l) then if l.item in c.ovf then c.ovf else [l.item] + c.ovf else c.ovf)
            && c'.rdl == (if Requeues(s, l) then c.rdl + [c.scan.phase.item] else c.rdl)
            && |c'.scan.done| == |c.scan.done| + (if Settles(s, l) then 1 else 0)
  {
    hide NoDup, TasksOk, NoLostEdge, ScanShape, Disjoint, WakeOne, Passes, Hits;
    HitsIs(s, l);
  }

  lemma ScanStepMask(s: Sys, l: Label, i: Item)
    requires SysInv(s) && Enabled(s, l) && s.lists.scan.Scan? && !l.End?
    ensures var c, c' := s.lists, Apply(s, l).lists;
            && (i in c.mask <==> i in c'.mask)
            && (i in c.mask ==> LevelTriggered(c'.mask[i]) == LevelTriggered(c.mask[i]))
            && (Delivers(s, l, i) && i in c.mask ==> Outcome(i, true, LevelTriggered(c.mask[i])) in c'.scan.done)
  {
    hide NoDup, TasksOk, NoLostEdge, ScanShape, Disjoint, WakeOne, Passes, Without;
  }

  lemma Appended(a: seq<Item>, b: seq<Item>, c: seq<Item>)
    ensures a + b + c == a + (b + c) && a + [] == a
  {
  }

  lemma RequeueAppends(s: Sys, ls: seq<Label>)
    requires CanRun(s, ls) && ls != []
    ensures var rest := RequeueLog(Apply(s, ls[0]), ls[1..]);
            s.lists.rdl + RequeueLog(s, ls) ==
            (if Requeues(s, ls[0]) then s.lists.rdl + [s.lists.scan.phase.item] else s.lists.rdl) + rest
  {
    hide Apply, Enabled;
    var rest := RequeueLog(Apply(s, ls[0]), ls[1..]);
    if Requeues(s, ls[0]) {
      Appended(s.lists.rdl, [s.lists.scan.phase.item], rest);
    } else {
      assert [] + rest == rest;
    }
  }

  lemma NoLogs(s: Sys)
    ensures HitLog(s, []) == [] && RequeueLog(s, []) == [] && Settled(s, []) == 0
    ensures Pile([], s.lists.ovf) == s.lists.ovf
  {
  }

  lemma FirstNoEnd(ls: seq<Label>)
    requires NoEnd(ls) && ls != []
    ensures !ls[0].End? && NoEnd(ls[1..])
  {
    assert ls[0] in ls;
  }

  lemma LogsStep(s: Sys, ls: seq<Label>)
    requires CanRun(s, ls) && ls != []
    ensures var l, rest, base := ls[0], HitLog(Apply(s, ls[0]), ls[1..]), s.lists.ovf;
            Pile(HitLog(s, ls), base) ==
            Pile(rest, if Hits(s, l) then if l.item in base then base else [l.item] + base else base)
    ensures RequeueLog(s, ls) ==
            (if Requeues(s, ls[0]) then [s.lists.scan.phase.item] else []) + RequeueLog(Apply(s, ls[0]), ls[1..])
    ensures Settled(s, ls) == (if Settles(s, ls[0]) then 1 else 0) + Settled(Apply(s, ls[0]), ls[1..])
  {
    hide Apply, Enabled, Pile;
    var l, rest := ls[0], HitLog(Apply(s, ls[0]), ls[1..]);
    if Hits(s, l) {
      PilePush(l.item, rest, s.lists.ovf);
    } else {
      assert [] + rest == rest;
    }
  }

  /** While a scan runs, ovflist holds exactly the items hit since, newest first, over what it held before, and rdllist
      grows by exactly the level-triggered items delivered. */
  lemma {:induction false} ScanRun(s: Sys, ls: seq<Label>)
    requires SysInv(s) && NoLostWakeup(s) && CanRun(s, ls) && s.lists.scan.Scan? && NoEnd(ls)
    ensures var c, c' := s.lists, Run(s, ls).lists;
            && c'.scan.Scan? && c'.scan.stolen == c.scan.stolen && c.scan.done <= c'.scan.done
            && c'.ovf == Pile(HitLog(s, ls), c.ovf) && c'.rdl == c.rdl + RequeueLog(s, ls)
            && |c'.scan.done| == |c.scan.done| + Settled(s, ls)
    decreases |ls|
  {
    hide SysInv, NoLostWakeup, Apply, Enabled, Hits, Requeues, Settles, HitLog, RequeueLog, Settled, Pile, NoEnd;
    if ls == [] {
      NoLogs(s);
    } else {
      var l, next := ls[0], Apply(s, ls[0]);
      FirstNoEnd(ls);
      ScanStep(s, l);
      OneStep(s, l);
      ScanRun(next, ls[1..]);
      LogsStep(s, ls);
      RequeueAppends(s, ls);
    }
  }

  /** An item delivered in a scan is among the items the scan consumed. */
  lemma {:induction false} DeliveredIsDone(s: Sys, ls: seq<Label>, i: Item)
    requires SysInv(s) && NoLostWakeup(s) && CanRun(s, ls) && s.lists.scan.Scan? && NoEnd(ls)
    requires DeliveryCount(s, ls, i) > 0
    ensures Run(s, ls).lists.scan.Scan? && i in s.lists.mask
    ensures Outcome(i, true, LevelTriggered(s.lists.mask[i])) in Run(s, ls).lists.scan.done
    decreases |ls|
  {
    hide SysInv, NoLostWakeup, Apply, Enabled, LevelTriggered;
    var l, next := ls[0], Apply(s, ls[0]);
    assert l in ls;
    ScanStep(s, l);
    ScanStepMask(s, l, i);
    OneStep(s, l);
    ScanRun(next, ls[1..]);
    if Delivers(s, l, i) {
      DeliveredIsMonitored(s, l, i);
    } else {
      DeliveredIsDone(next, ls[1..], i);
    }
  }

  lemma DeliveredIsMonitored(s: Sys, l: Label, i: Item)
    requires SysInv(s) && Enabled(s, l) && Delivers(s, l, i)
    ensures i in s.lists.mask
  {
  }

  /** The steps of one whole scan. */
  function ScanOf(t: Tid, steps: seq<Label>): seq<Label> {
    [Start(t)] + steps + [End(t)]
  }

  lemma {:induction false} RunSnoc(s: Sys, ls: seq<Label>, l: Label)
    requires CanRun(s, ls + [l])
    ensures CanRun(s, ls) && Enabled(Run(s, ls), l) && Run(s, ls + [l]) == Apply(Run(s, ls), l)
    decreases |ls|
  {
    hide Apply, Enabled;
    if ls == [] {
      assert ls + [l] == [l];
    } else {
      assert (ls + [l])[1..] == ls[1..] + [l];
      RunSnoc(Apply(s, ls[0]), ls[1..], l);
    }
  }

  lemma ScanBegins(s: Sys, t: Tid)
    requires SysInv(s) && NoLostWakeup(s) && Enabled(s, Start(t))
    ensures var b := Apply(s, Start(t));
            && SysInv(b) && NoLostWakeup(b) && b.lists.scan.Scan? && b.lists.rdl == [] && b.lists.ovf == []
            && b.lists.scan.stolen == s.lists.rdl && b.lists.scan.done == [] && b.lists.mask == s.lists.mask
  {
    OneStep(s, Start(t));
    hide Inv, TasksOk, NoLostWakeup;
    ScanIdle(s);
  }

  lemma ScanIdle(s: Sys)
    requires SysInv(s) && s.mtx.Nobody?
    ensures s.lists.scan.NoScan? && s.lists.ovf == []
  {
    hide Monitored, Disjoint, NoLostEdge, TasksOk;
  }

  /** A scan starts with empty rdllist and ovflist, runs, and ends. */
  lemma ScanParts(s: Sys, t: Tid, steps: seq<Label>)
    requires SysInv(s) && NoLostWakeup(s) && CanRun(s, ScanOf(t, steps)) && NoEnd(steps)
    ensures Enabled(s, Start(t))
    ensures var b := Apply(s, Start(t));
            && SysInv(b) && NoLostWakeup(b) && b.lists.scan.Scan? && b.lists.rdl == [] && b.lists.ovf == []
            && b.lists.scan.stolen == s.lists.rdl && b.lists.scan.done == [] && b.lists.mask == s.lists.mask
            && CanRun(b, steps)
    ensures var e := Run(Apply(s, Start(t)), steps);
            && SysInv(e) && CanEnd(e.lists) && Run(s, ScanOf(t, steps)).lists == EndScan(e.lists)
  {
    hide SysInv, NoLostWakeup, NoEnd;
    var all := ScanOf(t, steps);
    assert all[1..] == steps + [End(t)];
    ScanBegins(s, t);
    var b := Apply(s, Start(t));
    RunSnoc(b, steps, End(t));
    ReachableStates(b, steps);
  }

  /** The list algebra of a whole scan: first the part of rdllist it is not done with, then the level-triggered items it
      delivered, then the items hit meanwhile that are not linked yet, newest first. */
  lemma ScanAlgebra(s: Sys, t: Tid, steps: seq<Label>)
    requires SysInv(s) && NoLostWakeup(s) && CanRun(s, ScanOf(t, steps)) && NoEnd(steps)
    ensures Enabled(s, Start(t)) && CanRun(Apply(s, Start(t)), steps)
    ensures var b, c' := Apply(s, Start(t)), Run(s, ScanOf(t, steps)).lists;
            && Settled(b, steps) <= |s.lists.rdl|
            && var linked := s.lists.rdl[Settled(b, steps)..] + RequeueLog(b, steps);
               c'.rdl == linked + Fresh(Pile(HitLog(b, steps), []), linked)
    ensures var c' := Run(s, ScanOf(t, steps)).lists; c'.ovf == [] && c'.tx == [] && c'.scan.NoScan?
  {
    ScanParts(s, t, steps);
    var b := Apply(s, Start(t));
    ScanRun(b, steps);
    var e := Run(b, steps);
    ScanResult(e.lists);
    hide CanRun, Run, Apply, Enabled, EndScan, CanEnd, HitLog, RequeueLog, Settled, Pile, Fresh;
    assert e.lists.rdl == RequeueLog(b, steps) && e.lists.scan.stolen == s.lists.rdl;
  }

  /** Trigger modes: an item delivered in a scan is ready again when the scan ends iff it is level-triggered or a
      callback hit it while the scan ran. */
  lemma TriggerModes(s: Sys, t: Tid, steps: seq<Label>, i: Item)
    requires SysInv(s) && NoLostWakeup(s) && CanRun(s, ScanOf(t, steps)) && NoEnd(steps)
    requires Enabled(s, Start(t)) && CanRun(Apply(s, Start(t)), steps)
    requires DeliveryCount(Apply(s, Start(t)), steps, i) > 0
    ensures i in s.lists.mask
    ensures i in Run(s, ScanOf(t, steps)).lists.rdl <==>
            (!s.lists.mask[i].oneshot && !s.lists.mask[i].et) || i in HitLog(Apply(s, Start(t)), steps)
  {
    hide Apply, Enabled, CanRun, Run, HitLog, DeliveryCount, Pile, EndScan, CanEnd;
    ScanParts(s, t, steps);
    var b := Apply(s, Start(t));
    ScanRun(b, steps);
    DeliveredIsDone(b, steps, i);
    var e := Run(b, steps);
    DeliveredReady(e.lists, Outcome(i, true, LevelTriggered(s.lists.mask[i])));
    PileMembers(HitLog(b, steps), []);
  }
}
