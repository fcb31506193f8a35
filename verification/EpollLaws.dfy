/** What single steps of the epoll protocol do, said in the terms of epoll_wait and its callers: when a callback counts,
    which events are reported, when a task sleeps, returns or retries, and what changes a mask. */
module EpollLaws {
  import opened EpollLists
  import opened EpollTasks
  import opened EpollRuns
  import opened Seqs

  // ---- ep_poll_callback ----

  /** A disabled item, or a key without a watched bit: nothing happens. */
  lemma HookIgnored(s: Sys, i: Item, key: set<Event>)
    requires i in s.lists.mask
    requires s.lists.mask[i].bits == {} || (key != {} && forall e :: e in key ==> e !in s.lists.mask[i].bits)
    ensures Enabled(s, Hook(i, key)) && Apply(s, Hook(i, key)) == s
  {
    PassesIs(s.lists.mask[i], key);
    hide Passes, WakeOne;
  }

  /** Any other callback links the item: on the overflow list and quietly while a scan runs, otherwise at the end of
      rdllist unless it is there, with a wakeup. */
  lemma HookLinks(s: Sys, i: Item, key: set<Event>)
    requires i in s.lists.mask && s.lists.mask[i].bits != {}
    requires key == {} || exists e :: e in key && e in s.lists.mask[i].bits
    ensures var s', c, c' := Apply(s, Hook(i, key)), s.lists, Apply(s, Hook(i, key)).lists;
            if c.scan.Scan? then
              && c'.ovf == (if i in c.ovf then c.ovf else [i] + c.ovf) && c'.rdl == c.rdl && s'.pc == s.pc
            else
              && c'.rdl == (if i in c.rdl then c.rdl else c.rdl + [i]) && c'.ovf == c.ovf
              && s'.pc == WakeOne(s.pc, s.wq)
  {
    PassesIs(s.lists.mask[i], key);
    hide Passes, WakeOne;
  }

  /** A wakeup reaches the first task of the queue that sleeps, and changes nothing else. */
  lemma {:induction false} WakesTheFirst(pc: map<Tid, Pc>, wq: seq<Tid>, k: nat)
    requires k < |wq| && wq[k] in pc && pc[wq[k]].Waiting? && pc[wq[k]].asleep
    requires forall j :: 0 <= j < k ==> !(wq[j] in pc && pc[wq[j]].Waiting? && pc[wq[j]].asleep)
    ensures WakeOne(pc, wq) == pc[wq[k] := Waiting(false, pc[wq[k]].left, pc[wq[k]].max)]
  {
    if k > 0 {
      WakesTheFirst(pc, wq[1..], k - 1);
    }
  }

  lemma {:induction false} WakesNobody(pc: map<Tid, Pc>, wq: seq<Tid>)
    requires forall j :: 0 <= j < |wq| ==> !(wq[j] in pc && pc[wq[j]].Waiting? && pc[wq[j]].asleep)
    ensures WakeOne(pc, wq) == pc
  {
    if wq != [] {
      WakesNobody(pc, wq[1..]);
    }
  }

  // ---- ep_send_events_proc ----

  /** f_op->poll reports exactly the ready events that are watched. */
  lemma PollReports(s: Sys, ready: set<Event>)
    requires Enabled(s, PollFile(ready))
    ensures var i, phase := s.lists.scan.phase.item, Apply(s, PollFile(ready)).lists.scan.phase;
            && phase.Polled? && phase.item == i && i in s.lists.mask
            && forall e :: e in phase.revents <==> e in ready && e in s.lists.mask[i].bits
  {
  }

  /** From then on until it is handed over, what was reported stands, whatever steps come between. */
  lemma ReportStands(s: Sys, l: Label)
    requires SysInv(s) && Enabled(s, l) && s.lists.scan.Scan? && s.lists.scan.phase.Polled? && !l.PutUser?
    ensures Apply(s, l).lists.scan == s.lists.scan
  {
    hide NoDup, TasksOk, NoLostEdge, Disjoint, WakeOne, Passes, Without, Fresh;
  }

  /** What was reported is delivered and counted, unless it is nothing or user memory faults. */
  lemma HandsOver(s: Sys)
    requires Enabled(s, PutUser(false)) && s.lists.scan.phase.revents != {}
    ensures var i, m := s.lists.scan.phase.item, s.lists.mask[s.lists.scan.phase.item];
            && Delivers(s, PutUser(false), i)
            && var c, c' := s.lists, Apply(s, PutUser(false)).lists;
               && c'.scan.Scan? && c'.scan.phase.Top? && c'.scan.count == c.scan.count + 1 && c'.tx == c.tx
               && c'.scan.done == c.scan.done + [Outcome(i, true, !m.oneshot && !m.et)]
               && c'.rdl == (if !m.oneshot && !m.et then c.rdl + [i] else c.rdl)
               && c'.mask == (if m.oneshot then c.mask[i := Mask({}, m.oneshot, m.et)] else c.mask)
  {
  }

  /** With some watched event ready and no fault, the item in hand is delivered and counted. */
  lemma ReadyIsDelivered(s: Sys, ready: set<Event>, e: Event)
    requires Enabled(s, PollFile(ready)) && e in ready && e in s.lists.mask[s.lists.scan.phase.item].bits
    ensures var i, m := s.lists.scan.phase.item, s.lists.mask[s.lists.scan.phase.item];
            var polled := Apply(s, PollFile(ready));
            && Enabled(polled, PutUser(false)) && Delivers(polled, PutUser(false), i)
            && var c, c' := s.lists, Apply(polled, PutUser(false)).lists;
               && c'.scan.Scan? && c'.scan.phase.Top? && c'.scan.count == c.scan.count + 1 && c'.tx == c.tx
               && c'.scan.done == c.scan.done + [Outcome(i, true, !m.oneshot && !m.et)]
               && c'.rdl == (if !m.oneshot && !m.et then c.rdl + [i] else c.rdl)
               && c'.mask == (if m.oneshot then c.mask[i := Mask({}, m.oneshot, m.et)] else c.mask)
  {
    PollReports(s, ready);
    HandsOver(Apply(s, PollFile(ready)));
  }

  /** With none ready, nothing is delivered and the item is dropped from the scan. */
  lemma NotReadyIsSkipped(s: Sys, ready: set<Event>, fault: bool)
    requires Enabled(s, PollFile(ready))
    requires forall e :: e in ready ==> e !in s.lists.mask[s.lists.scan.phase.item].bits
    ensures var i := s.lists.scan.phase.item;
            var polled := Apply(s, PollFile(ready));
            && Enabled(polled, PutUser(fault)) && !Delivers(polled, PutUser(fault), i)
            && var c, c' := s.lists, Apply(polled, PutUser(fault)).lists;
               && c'.scan.Scan? && c'.scan.phase.Top? && c'.scan.count == c.scan.count
               && c'.rdl == c.rdl && c'.tx == c.tx && c'.mask == c.mask
               && |c'.scan.done| == |c.scan.done| + 1 && !c'.scan.done[|c.scan.done|].delivered
  {
    var m := s.lists.mask[s.lists.scan.phase.item];
    assert ready * m.bits == {};
  }

  /** With some ready but user memory faulting, the item goes back to the front and the scan is over. */
  lemma FaultPutsBack(s: Sys, ready: set<Event>, e: Event)
    requires Enabled(s, PollFile(ready)) && e in ready && e in s.lists.mask[s.lists.scan.phase.item].bits
    ensures var i, polled := s.lists.scan.phase.item, Apply(s, PollFile(ready));
            && Enabled(polled, PutUser(true))
            && var c, c' := s.lists, Apply(polled, PutUser(true)).lists;
               && c'.scan.Scan? && c'.scan.phase.Faulted? && c'.scan.count == c.scan.count
               && c'.tx == [i] + c.tx && c'.rdl == c.rdl && c'.mask == c.mask && c'.scan.done == c.scan.done
  {
    PollReports(s, ready);
  }

  /** Masks change only by registration, its failure, EPOLL_CTL_MOD, and the delivery of a one-shot item. */
  lemma MaskChanges(s: Sys, l: Label, i: Item)
    requires Enabled(s, l)
    ensures var m, m' := s.lists.mask, Apply(s, l).lists.mask;
            if (l.AddItem? || l.Modify?) && l.item == i then i in m' && m'[i] == l.mask
            else if l.AddFail? && s.mtx.item == i then i !in m'
            else if Delivers(s, l, i) && i in m && m[i].oneshot then i in m' && m'[i] == Mask({}, true, m[i].et)
            else (i in m' <==> i in m) && (i in m ==> m'[i] == m[i])
  {
    hide WakeOne, Passes, Without, Fresh;
  }

  // ---- ep_insert ----

  /** An item found ready is put at the end of rdllist unless a callback has been faster; else nothing is listed. */
  lemma InsertLists(s: Sys, ready: set<Event>)
    requires Enabled(s, AddReady(ready))
    ensures var i, c, c' := s.mtx.item, s.lists, Apply(s, AddReady(ready)).lists;
            if (exists e :: e in ready && e in c.mask[i].bits) && i !in c.rdl then c'.rdl == c.rdl + [i]
            else c'.rdl == c.rdl
  {
    hide WakeOne;
    var bits := s.lists.mask[s.mtx.item].bits;
    if e :| e in ready && e in bits {
      assert e in ready * bits;
    }
    if ready * bits != {} {
      var e :| e in ready * bits;
    }
  }

  /** An abandoned item is neither monitored nor listed, and the others keep their places. */
  lemma AbandonedIsGone(s: Sys)
    requires SysInv(s) && Enabled(s, AddFail)
    ensures var i, c, c' := s.mtx.item, s.lists, Apply(s, AddFail).lists;
            && i !in c'.mask && i !in c'.rdl && i !in c'.tx && i !in c'.ovf
            && (forall x :: x in c'.rdl <==> x in c.rdl && x != i) && Apply(s, AddFail).mtx.Nobody?
  {
    WithoutMembers(s.lists.rdl, s.mtx.item);
    hide NoDup, Without, TasksOk, NoLostEdge;
  }

  // ---- ep_poll ----

  /** epoll_wait comes in at `retry` with the time and the room it was called with. */
  lemma CallEnters(s: Sys, t: Tid, left: bool, max: nat)
    requires t in s.pc && s.pc[t].Out? && max > 0
    ensures Enabled(s, Call(t, left, max))
    ensures var s' := Apply(s, Call(t, left, max));
            && s'.pc == s.pc[t := Entry(left, max)] && s'.wq == s.wq && s'.lists == s.lists && s'.mtx == s.mtx
  {
  }

  /** One locked look of a task at the ready list. */
  predicate Looks(s: Sys, l: Label) {
    l.Check? || l.Recheck?
  }

  /** Something ready: the task scans. Nothing ready but a scan running and no time left: it scans too. Nothing ready,
      no scan and no time left, or a signal while time is left: it returns. Otherwise it sleeps, queued. */
  lemma LookDecides(s: Sys, l: Label)
    requires SysInv(s) && Enabled(s, l) && Looks(s, l)
    ensures var t, c, p, s' := l.t, s.lists, s.pc[l.t], Apply(s, l);
            && (c.rdl != [] ==> s'.pc[t] == WantScan(p.left, p.max) && t !in s'.wq)
            && (c.rdl == [] && !p.left && c.scan.Scan? ==> s'.pc[t] == WantScan(p.left, p.max) && t !in s'.wq)
            && (c.rdl == [] && !p.left && c.scan.NoScan? ==> s'.pc[t] == Out && t !in s'.wq)
            && (c.rdl == [] && p.left && l.signal ==> s'.pc[t] == Out && t !in s'.wq)
            && (c.rdl == [] && p.left && !l.signal ==> s'.pc[t] == Waiting(true, p.left, p.max) && t in s'.wq)
  {
    WithoutMembers(s.wq, l.t);
    hide NoDup, Without, Inv, MutexOk;
  }

  /** Time left, the clock and maxevents belong to the call: only an expiring sleep ends the time. */
  lemma TimeLeftKept(s: Sys, l: Label, t: Tid)
    requires SysInv(s) && Enabled(s, l) && t in s.pc && !s.pc[t].Out?
    ensures var p, s' := s.pc[t], Apply(s, l);
            && t in s'.pc
            && (!s'.pc[t].Out? ==> s'.pc[t].max == p.max
                                   && (s'.pc[t].left <==> p.left && !(l.Rouse? && l.t == t && l.expired)))
  {
    hide NoDup, Without, Inv, WakeOne, Decide, MutexOk, TasksOk, Callback, InsertReady, InsertAbort, StealReady, Report;
    hide PollHand, UnlinkHead, EndScan, Passes, InsertLinks, CanUnlink, CanPoll, CanReport, CanEnd;
    WakeOneEffect(s.pc, s.wq);
    if l.End? { EndKeepsOthers(s, l, t); }
  }

  lemma EndKeepsOthers(s: Sys, l: Label, t: Tid)
    requires Enabled(s, l) && l.End? && t in s.pc && !s.pc[t].Out?
    ensures var p, s' := s.pc[t], Apply(s, l);
            t in s'.pc && (!s'.pc[t].Out? ==> s'.pc[t].max == p.max && (s'.pc[t].left <==> p.left))
  {
    hide WakeOne, EndScan;
    WakeOneEffect(s.pc, s.wq);
  }

  ghost predicate SleepersHaveTime(s: Sys) {
    forall t :: t in s.pc && s.pc[t].Waiting? && s.pc[t].asleep ==> s.pc[t].left
  }

  lemma SleepStep(s: Sys, l: Label)
    requires Enabled(s, l) && SleepersHaveTime(s)
    ensures SleepersHaveTime(Apply(s, l))
  {
    WakeOneEffect(s.pc, s.wq);
    hide WakeOne, Without, Passes, EndScan, Callback, InsertReady, InsertAbort, StealReady, Report, PollHand;
    hide UnlinkHead;
  }

  /** In every reachable state a task that sleeps has time left: epoll_wait with timeout 0 never sleeps. */
  lemma {:induction false} NobodySleepsPastTheirTime(s: Sys, ls: seq<Label>)
    requires SleepersHaveTime(s) && CanRun(s, ls)
    ensures SleepersHaveTime(Run(s, ls))
    decreases |ls|
  {
    hide SleepersHaveTime, Apply, Enabled;
    if ls != [] {
      SleepStep(s, ls[0]);
      NobodySleepsPastTheirTime(Apply(s, ls[0]), ls[1..]);
    }
  }

  lemma SleepFromTheStart(s: Sys, ls: seq<Label>)
    requires Initial(s) && CanRun(s, ls)
    ensures var pc := Run(s, ls).pc; forall t :: t in pc && pc[t].Waiting? && pc[t].asleep ==> pc[t].left
  {
    NobodySleepsPastTheirTime(s, ls);
  }

  // ---- what holds in every reachable state, spelled out ----

  /** No lost wakeup: with something ready and no scan running, a sleeper is not alone; some task is awake inside
      ep_poll and about to look at the list or to scan it. */
  lemma NoSleeperIsForgotten(s: Sys, ls: seq<Label>, t: Tid)
    requires Initial(s) && CanRun(s, ls)
    ensures var e := Run(s, ls);
            e.lists.scan.NoScan? && e.lists.rdl != [] && t in e.pc && e.pc[t].Waiting? && e.pc[t].asleep ==>
              exists u :: u in e.pc && (e.pc[u].Entry? || e.pc[u].WantScan? || (e.pc[u].Waiting? && !e.pc[u].asleep))
  {
    FromTheStart(s, ls);
    hide Initial, CanRun, Run, SysInv;
    var e := Run(s, ls);
    if SomeBound(e.pc) {
      var u :| u in e.pc && Bound(e.pc[u]);
    }
  }

  /** The lists: no item twice, none on rdllist and txlist at once, only monitored items, txlist and ovflist in use only
      while the task that holds mtx scans; and a task is queued exactly while it is in the sleep loop. */
  lemma ListsAreSound(s: Sys, ls: seq<Label>)
    requires Initial(s) && CanRun(s, ls)
    ensures var c := Run(s, ls).lists;
            && (forall j, k :: 0 <= j < k < |c.rdl| ==> c.rdl[j] != c.rdl[k])
            && (forall j, k :: 0 <= j < k < |c.tx| ==> c.tx[j] != c.tx[k])
            && (forall j, k :: 0 <= j < k < |c.ovf| ==> c.ovf[j] != c.ovf[k])
            && (forall i :: i in c.rdl ==> i !in c.tx && i in c.mask)
            && (forall i :: i in c.tx || i in c.ovf ==> i in c.mask && c.scan.Scan?)
            && (c.scan.Scan? ==> c.scan.count <= c.scan.maxevents)
    ensures var e := Run(s, ls);
            && (e.lists.scan.Scan? <==> e.mtx.ScanHolds?)
            && (e.mtx.ScanHolds? ==> e.mtx.t in e.pc && e.pc[e.mtx.t].Scanning?)
            && (forall t :: t in e.wq <==> t in e.pc && e.pc[t].Waiting?)
            && (forall j, k :: 0 <= j < k < |e.wq| ==> e.wq[j] != e.wq[k])
  {
    FromTheStart(s, ls);
    hide Initial, CanRun, Run, NoLostEdge, NoLostWakeup;
  }

  // ---- the end of a scan ----

  /** This step hands some item to user space. */
  predicate DeliversOne(s: Sys, l: Label) {
    l.PutUser? && !l.fault && s.lists.scan.Scan? && s.lists.scan.phase.Polled? && s.lists.scan.phase.revents != {}
  }

  predicate Faults(s: Sys, l: Label) {
    l.PutUser? && l.fault && s.lists.scan.Scan? && s.lists.scan.phase.Polled? && s.lists.scan.phase.revents != {}
  }

  /** How many events a run reports, and whether some copy to user memory fails. */
  function Reported(s: Sys, ls: seq<Label>): nat
    requires CanRun(s, ls)
    decreases |ls|
  {
    if ls == [] then 0 else (if DeliversOne(s, ls[0]) then 1 else 0) + Reported(Apply(s, ls[0]), ls[1..])
  }

  predicate AnyFault(s: Sys, ls: seq<Label>)
    requires CanRun(s, ls)
    decreases |ls|
  {
    ls != [] && (Faults(s, ls[0]) || AnyFault(Apply(s, ls[0]), ls[1..]))
  }

  lemma CountStep(s: Sys, l: Label)
    requires SysInv(s) && Enabled(s, l) && s.lists.scan.Scan? && !l.End?
    ensures var sc, sc' := s.lists.scan, Apply(s, l).lists.scan;
            && sc'.Scan? && sc'.count == sc.count + (if DeliversOne(s, l) then 1 else 0)
            && (sc'.phase.Faulted? <==> sc.phase.Faulted? || Faults(s, l))
  {
    hide NoDup, TasksOk, NoLostEdge, ScanShape, Disjoint, WakeOne, Passes, Without;
  }

  /** The scanner itself stands still while its scan runs. */
  lemma HolderKept(s: Sys, l: Label, t: Tid)
    requires SysInv(s) && Enabled(s, l) && s.mtx == ScanHolds(t) && !l.End?
    ensures Apply(s, l).mtx == ScanHolds(t) && t in s.pc && t in Apply(s, l).pc && Apply(s, l).pc[t] == s.pc[t]
  {
    WakeOneEffect(s.pc, s.wq);
    hide Inv, NoDup, WakeOne, Without, Decide;
  }

  lemma {:induction false} CountRun(s: Sys, ls: seq<Label>, t: Tid)
    requires SysInv(s) && NoLostWakeup(s) && CanRun(s, ls) && s.lists.scan.Scan? && NoEnd(ls)
    requires s.mtx == ScanHolds(t) && t in s.pc
    ensures var sc, s' := s.lists.scan, Run(s, ls);
            && s'.lists.scan.Scan? && s'.lists.scan.count == sc.count + Reported(s, ls)
            && (s'.lists.scan.phase.Faulted? <==> sc.phase.Faulted? || AnyFault(s, ls))
            && t in s'.pc && s'.pc[t] == s.pc[t]
    decreases |ls|
  {
    hide SysInv, NoLostWakeup, Apply, Enabled, NoEnd, DeliversOne, Faults;
    if ls != [] {
      FirstNoEnd(ls);
      CountStep(s, ls[0]);
      OneStep(s, ls[0]);
      HolderKept(s, ls[0], t);
      CountRun(Apply(s, ls[0]), ls[1..], t);
    }
  }

  /** After a whole scan ep_poll returns, unless nothing was reported, nothing faulted and time is left: then it starts
      over. */
  lemma RetriesIffNothing(s: Sys, t: Tid, steps: seq<Label>)
    requires SysInv(s) && NoLostWakeup(s) && CanRun(s, ScanOf(t, steps)) && NoEnd(steps)
    ensures Enabled(s, Start(t)) && t in s.pc && s.pc[t].WantScan? && CanRun(Apply(s, Start(t)), steps)
    ensures var b, s' := Apply(s, Start(t)), Run(s, ScanOf(t, steps));
            && t in s'.pc
            && s'.pc[t] == if Reported(b, steps) == 0 && !AnyFault(b, steps) && s.pc[t].left
                           then Entry(s.pc[t].left, s.pc[t].max) else Out
  {
    hide SysInv, NoLostWakeup, NoEnd, Reported, AnyFault, Apply, Enabled;
    var all := ScanOf(t, steps);
    assert all[1..] == steps + [End(t)];
    ScanParts(s, t, steps);
    var b := Apply(s, Start(t));
    RunSnoc(b, steps, End(t));
    assert Run(s, all) == Apply(Run(b, steps), End(t));
    Begun(s, t);
    CountRun(b, steps, t);
    Ended(Run(b, steps), t);
  }

  lemma Begun(s: Sys, t: Tid)
    requires Enabled(s, Start(t))
    ensures t in s.pc && s.pc[t].WantScan?
    ensures var b := Apply(s, Start(t));
            && b.mtx == ScanHolds(t) && t in b.pc && b.pc[t] == Scanning(s.pc[t].left, s.pc[t].max)
            && b.lists.scan.Scan? && b.lists.scan.count == 0 && !b.lists.scan.phase.Faulted?
  {
  }

  lemma Ended(e: Sys, t: Tid)
    requires Enabled(e, End(t))
    ensures t in e.pc && e.pc[t].Scanning? && e.lists.scan.Scan? && t in Apply(e, End(t)).pc
    ensures Apply(e, End(t)).pc[t] == if e.lists.scan.count == 0 && !e.lists.scan.phase.Faulted? && e.pc[t].left
                                      then Entry(e.pc[t].left, e.pc[t].max) else Out
  {
    hide WakeOne, EndScan;
  }

  // ---- nobody gets stuck ----

  /** A running scan always has a next step of its own. */
  lemma ScanMoves(s: Sys)
    requires SysInv(s) && s.lists.scan.Scan?
    ensures s.mtx.ScanHolds? && (Enabled(s, Unlink) || (forall ready :: Enabled(s, PollFile(ready))) ||
                                 (forall fault :: Enabled(s, PutUser(fault))) || Enabled(s, End(s.mtx.t)))
  {
    hide NoDup, TasksOk, NoLostEdge, ScanShape;
    if s.lists.scan.phase.Unlinked? || s.lists.scan.phase.Polled? {
      assert s.lists.scan.phase.item in Hand(s.lists.scan);
    }
  }

  /** So has an insertion, whatever f_op->poll answers. Insertions of new items, changes of a mask and scans can begin
      whenever mtx is free. */
  lemma InsertMoves(s: Sys, ready: set<Event>, m: Mask)
    requires SysInv(s)
    ensures s.mtx.InsertHolds? ==> Enabled(s, AddReady(ready)) && Enabled(s, AddFail)
    ensures forall i :: s.mtx.Nobody? ==> Enabled(s, if i in s.lists.mask then Modify(i, m) else AddItem(i, m))
  {
    hide Inv, TasksOk;
  }

  /** Who holds mtx: the inserter from the installation of its hook to its own critical section or its error path, the
      scanner from the first section of its scan to the last, and nothing else takes or drops it. */
  lemma MutexMoves(s: Sys, l: Label)
    requires Enabled(s, l)
    ensures Apply(s, l).mtx == if l.AddItem? then InsertHolds(l.item)
                               else if l.Start? then ScanHolds(l.t)
                               else if l.AddReady? || l.AddFail? || l.End? then Nobody
                               else s.mtx
    ensures l.AddItem? || l.Modify? || l.Start? ==> s.mtx.Nobody?
    ensures l.AddReady? || l.AddFail? ==> s.mtx.InsertHolds?
    ensures l.End? ==> s.mtx == ScanHolds(l.t)
  {
    hide WakeOne, Without, EndScan, Passes, InsertLinks, Decide, CanUnlink, CanPoll, CanReport, CanEnd;
  }

  /** So has every task inside ep_poll that is awake; only the start of a scan may have to wait for mtx. */
  lemma TaskMoves(s: Sys, t: Tid)
    requires t in s.pc && !s.pc[t].Out? && !s.pc[t].Scanning?
    ensures s.pc[t].Entry? ==> forall signal :: Enabled(s, Check(t, signal))
    ensures s.pc[t].Waiting? && !s.pc[t].asleep ==> forall signal :: Enabled(s, Recheck(t, signal))
    ensures s.pc[t].Waiting? ==> forall expired :: Enabled(s, Rouse(t, expired))
    ensures s.pc[t].WantScan? ==> (Enabled(s, Start(t)) <==> s.mtx.Nobody?)
  {
  }

  // ---- order ----

  lemma FreshAt(xs: seq<Item>, linked: seq<Item>, p: nat) returns (i: nat)
    requires p < |Fresh(xs, linked)|
    ensures i < |xs| && xs[i] == Fresh(xs, linked)[p]
  {
    FreshMembers(xs, linked);
    assert Fresh(xs, linked)[p] in Fresh(xs, linked);
    i :| 0 <= i < |xs| && xs[i] == Fresh(xs, linked)[p];
  }

  /** The overflowed items that a scan appends keep the order of the overflow list. */
  lemma {:induction false} FreshInOrder(xs: seq<Item>, linked: seq<Item>, p: nat, q: nat) returns (i: nat, j: nat)
    requires p < q < |Fresh(xs, linked)|
    ensures i < j < |xs| && xs[i] == Fresh(xs, linked)[p] && xs[j] == Fresh(xs, linked)[q]
  {
    var init := xs[..|xs| - 1];
    if q < |Fresh(init, linked)| {
      i, j := FreshInOrder(init, linked, p, q);
    } else {
      i := FreshAt(init, linked, p);
      j := |xs| - 1;
    }
  }

  lemma {:induction false} PileSplit(a: seq<Item>, b: seq<Item>, base: seq<Item>)
    ensures Pile(a + b, base) == Pile(b, Pile(a, base))
    decreases |a|
  {
    if a == [] {
      assert a + b == b;
    } else {
      assert (a + b)[1..] == a[1..] + b;
      PileSplit(a[1..], b, if a[0] in base then base else [a[0]] + base);
    }
  }

  lemma {:induction false} PileOnTop(log: seq<Item>, base: seq<Item>) returns (front: seq<Item>)
    ensures Pile(log, base) == front + base
    decreases |log|
  {
    front := [];
    if log != [] {
      if log[0] in base {
        front := PileOnTop(log[1..], base);
      } else {
        front := PileOnTop(log[1..], [log[0]] + base);
        assert front + ([log[0]] + base) == front + [log[0]] + base;
        front := front + [log[0]];
      }
    } else {
      assert [] + base == base;
    }
  }

  /** The overflow list has the newest first: of two items, the one whose first hit came later stands in front. */
  lemma NewestFirst(log: seq<Item>, a: nat, b: nat) returns (x: nat, y: nat)
    requires a < b < |log| && log[a] !in log[..a] && log[b] !in log[..b]
    ensures x < y < |Pile(log, [])| && Pile(log, [])[x] == log[b] && Pile(log, [])[y] == log[a]
  {
    hide Pile;
    var older := Pile(log[..b], []);
    PileMembers(log[..b], []);
    assert log[a] in log[..b] by { assert log[..b][a] == log[a]; }
    var k :| 0 <= k < |older| && older[k] == log[a];
    assert log == log[..b] + ([log[b]] + log[b + 1..]);
    PileSplit(log[..b], [log[b]] + log[b + 1..], []);
    PilePush(log[b], log[b + 1..], older);
    var front := PileOnTop(log[b + 1..], [log[b]] + older);
    x, y := |front|, |front| + 1 + k;
  }
}
