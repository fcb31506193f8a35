/** The whole epoll protocol as a labelled step system: device callbacks, inserters and tasks inside ep_poll
    interleave freely, one critical section (or one lockless piece of the scan loop) at a time. */
module EpollTasks {
  import opened EpollLists
  import opened Seqs

  type Tid = nat

  /** Where a task stands in ep_poll; `left` says whether jtimeout is still non-zero. */
  datatype Pc =
    | Out
    | Entry(left: bool, max: nat)                  // at `retry`, before ep->lock is taken
    | Waiting(asleep: bool, left: bool, max: nat)  // queued on ep->wq, lock dropped
    | WantScan(left: bool, max: nat)               // committed to ep_send_events, mtx not yet taken
    | Scanning(left: bool, max: nat)

  datatype Holder = Nobody | ScanHolds(t: Tid) | InsertHolds(item: Item)

  datatype Sys = Sys(lists: Lists, pc: map<Tid, Pc>, wq: seq<Tid>, mtx: Holder)

  /** One step, with the outcome of everything the environment decides. */
  datatype Label =
    | Hook(item: Item, key: set<Event>)          // ep_poll_callback
    | AddItem(item: Item, mask: Mask)            // ep_insert installs its hook
    | AddReady(ready: set<Event>)                // ep_insert's own critical section
    | AddFail                                    // ep_insert's error path
    | Modify(item: Item, mask: Mask)             // re-arming
    | Call(t: Tid, left: bool, max: nat)         // epoll_wait
    | Check(t: Tid, signal: bool)                // first critical section of ep_poll
    | Recheck(t: Tid, signal: bool)              // a later round of the sleep loop
    | Rouse(t: Tid, expired: bool)               // schedule_timeout ends by signal or time-out
    | Start(t: Tid)                              // ep_scan_ready_list steals the list
    | Unlink
    | PollFile(ready: set<Event>)
    | PutUser(fault: bool)
    | End(t: Tid)                                // the closing critical section of the scan

  predicate Asleep(p: Pc) {
    p.Waiting? && p.asleep
  }

  /** Inside ep_poll, awake, and certain to look at rdllist again or to scan it. */
  predicate Bound(p: Pc) {
    p.Entry? || p.WantScan? || (p.Waiting? && !p.asleep)
  }

  /** wake_up_locked on exclusive waiters: the first queued task that really sleeps is made runnable. */
  function WakeOne(pc: map<Tid, Pc>, wq: seq<Tid>): map<Tid, Pc> {
    if wq == [] then pc
    else if wq[0] in pc && Asleep(pc[wq[0]]) then pc[wq[0] := pc[wq[0]].(asleep := false)]
    else WakeOne(pc, wq[1..])
  }

  datatype Decision = GoScan | Leave | Sleep

  /** What one locked round of ep_poll decides. */
  function Decide(c: Lists, left: bool, signal: bool): Decision {
    if c.rdl != [] then GoScan
    else if !left then if c.scan.Scan? then GoScan else Leave
    else if signal then Leave
    else Sleep
  }

  predicate Enabled(s: Sys, l: Label) {
    match l
    case Hook(i, _) => i in s.lists.mask
    case AddItem(i, _) => s.mtx.Nobody? && i !in s.lists.mask
    case AddReady(_) => s.mtx.InsertHolds? && s.mtx.item in s.lists.mask
    case AddFail => s.mtx.InsertHolds?
    case Modify(i, _) => s.mtx.Nobody? && i in s.lists.mask
    case Call(t, _, max) => t in s.pc && s.pc[t].Out? && max > 0
    case Check(t, _) => t in s.pc && s.pc[t].Entry?
    case Recheck(t, _) => t in s.pc && s.pc[t].Waiting? && !s.pc[t].asleep
    case Rouse(t, _) => t in s.pc && s.pc[t].Waiting?
    case Start(t) => t in s.pc && s.pc[t].WantScan? && s.mtx.Nobody?
    case Unlink => CanUnlink(s.lists)
    case PollFile(_) => CanPoll(s.lists)
    case PutUser(_) => CanReport(s.lists)
    case End(t) => s.mtx == ScanHolds(t) && CanEnd(s.lists) && t in s.pc && s.pc[t].Scanning?
  }

  function Apply(s: Sys, l: Label): Sys
    requires Enabled(s, l)
  {
    match l
    case Hook(i, key) =>
      s.(lists := Callback(s.lists, i, key),
         pc := if Passes(s.lists.mask[i], key) && s.lists.scan.NoScan? then WakeOne(s.pc, s.wq) else s.pc)
    case AddItem(i, m) => s.(lists := InsertItem(s.lists, i, m), mtx := InsertHolds(i))
    case AddReady(ready) =>
      s.(lists := InsertReady(s.lists, s.mtx.item, ready), mtx := Nobody,
         pc := if InsertLinks(s.lists, s.mtx.item, ready) then WakeOne(s.pc, s.wq) else s.pc)
    case AddFail => s.(lists := InsertAbort(s.lists, s.mtx.item), mtx := Nobody)
    case Modify(i, m) => s.(lists := Rearm(s.lists, i, m))
    case Call(t, left, max) => s.(pc := s.pc[t := Entry(left, max)])
    case Check(t, signal) =>
      var p := s.pc[t];
      (match Decide(s.lists, p.left, signal)
       case GoScan => s.(pc := s.pc[t := WantScan(p.left, p.max)])
       case Leave => s.(pc := s.pc[t := Out])
       case Sleep => s.(pc := s.pc[t := Waiting(true, p.left, p.max)], wq := s.wq + [t]))
    case Recheck(t, signal) =>
      var p := s.pc[t];
      (match Decide(s.lists, p.left, signal)
       case GoScan => s.(pc := s.pc[t := WantScan(p.left, p.max)], wq := Without(s.wq, t))
       case Leave => s.(pc := s.pc[t := Out], wq := Without(s.wq, t))
       case Sleep => s.(pc := s.pc[t := p.(asleep := true)]))
    case Rouse(t, expired) =>
      var p := s.pc[t];
      s.(pc := s.pc[t := p.(asleep := false, left := p.left && !expired)])
    case Start(t) =>
      s.(lists := StealReady(s.lists, s.pc[t].max), mtx := ScanHolds(t),
         pc := s.pc[t := Scanning(s.pc[t].left, s.pc[t].max)])
    case Unlink => s.(lists := UnlinkHead(s.lists))
    case PollFile(ready) => s.(lists := PollHand(s.lists, ready))
    case PutUser(fault) => s.(lists := Report(s.lists, fault))
    case End(t) =>
      var p := s.pc[t];
      var nothing := s.lists.scan.count == 0 && !s.lists.scan.phase.Faulted?;
      var lists := EndScan(s.lists);
      var woken := if lists.rdl != [] then WakeOne(s.pc, s.wq) else s.pc;
      s.(lists := lists, mtx := Nobody,
         pc := woken[t := if nothing && p.left then Entry(p.left, p.max) else Out])
  }

  // ---- runs ----

  predicate Initial(s: Sys) {
    && s.lists == Lists(map[], [], [], [], NoScan, {})
    && s.wq == [] && s.mtx.Nobody?
    && forall t :: t in s.pc ==> s.pc[t].Out?
  }

  predicate CanRun(s: Sys, ls: seq<Label>)
    decreases |ls|
  {
    ls == [] || (Enabled(s, ls[0]) && CanRun(Apply(s, ls[0]), ls[1..]))
  }

  function Run(s: Sys, ls: seq<Label>): Sys
    requires CanRun(s, ls)
    decreases |ls|
  {
    if ls == [] then s else Run(Apply(s, ls[0]), ls[1..])
  }

  // ---- invariants ----

  ghost predicate TasksOk(s: Sys) {
    && NoDup(s.wq)
    && (forall t :: t in s.wq <==> t in s.pc && s.pc[t].Waiting?)
    && (forall t :: t in s.pc && s.pc[t].Scanning? ==> s.mtx == ScanHolds(t))
    && (forall t :: t in s.pc && !s.pc[t].Out? ==> s.pc[t].max > 0)
  }

  /** mtx keeps scans and inserts apart. */
  ghost predicate MutexOk(s: Sys) {
    && (s.lists.scan.Scan? <==> s.mtx.ScanHolds?)
    && (s.mtx.ScanHolds? ==> s.mtx.t in s.pc && s.pc[s.mtx.t].Scanning? && s.pc[s.mtx.t].max == s.lists.scan.maxevents)
    && (s.mtx.InsertHolds? ==> s.mtx.item in s.lists.mask)
  }

  ghost predicate SysInv(s: Sys) {
    Inv(s.lists) && MutexOk(s) && TasksOk(s)
  }

  ghost predicate SomeBound(pc: map<Tid, Pc>) {
    exists t :: t in pc && Bound(pc[t])
  }

  ghost predicate NobodySleeps(pc: map<Tid, Pc>) {
    forall t :: t in pc ==> !Asleep(pc[t])
  }

  /** No lost wakeup. */
  ghost predicate NoLostWakeup(s: Sys) {
    s.lists.scan.NoScan? && s.lists.rdl != [] ==> NobodySleeps(s.pc) || SomeBound(s.pc)
  }

  lemma {:induction false} WakeOneEffect(pc: map<Tid, Pc>, wq: seq<Tid>)
    ensures WakeOne(pc, wq).Keys == pc.Keys
    ensures forall t :: t in pc ==>
              WakeOne(pc, wq)[t] == pc[t] || (Asleep(pc[t]) && WakeOne(pc, wq)[t] == pc[t].(asleep := false))
    ensures (exists t :: t in wq && t in pc && Asleep(pc[t])) ==> SomeBound(WakeOne(pc, wq))
  {
    if wq != [] {
      if wq[0] in pc && Asleep(pc[wq[0]]) {
        assert Bound(WakeOne(pc, wq)[wq[0]]);
      } else {
        WakeOneEffect(pc, wq[1..]);
        assert wq == [wq[0]] + wq[1..];
      }
    }
  }

  /** A wakeup sent while every sleeper is queued leaves no sleeper, or somebody bound to look again. */
  lemma WakeOneSuffices(s: Sys)
    requires TasksOk(s)
    ensures NobodySleeps(WakeOne(s.pc, s.wq)) || SomeBound(WakeOne(s.pc, s.wq))
  {
    WakeOneEffect(s.pc, s.wq);
    if !NobodySleeps(s.pc) {
      var t :| t in s.pc && Asleep(s.pc[t]);
      assert t in s.wq;
    }
  }

  lemma ListsStep(s: Sys, l: Label)
    requires SysInv(s) && Enabled(s, l)
    ensures Inv(Apply(s, l).lists)
  {
    match l
    case Hook(i, key) => CallbackInv(s.lists, i, key);
    case AddItem(i, m) => InsertInv(s.lists, i, m);
    case AddReady(ready) => InsertReadyInv(s.lists, s.mtx.item, ready);
    case AddFail => InsertAbortInv(s.lists, s.mtx.item);
    case Modify(i, m) => InsertInv(s.lists, i, m);
    case Start(t) => StealInv(s.lists, s.pc[t].max);
    case Unlink => UnlinkInv(s.lists);
    case PollFile(ready) => PollInv(s.lists, ready);
    case PutUser(fault) => ReportInv(s.lists, fault);
    case End(t) => EndInv(s.lists);
    case Call(_, _, _) =>
    case Check(_, _) =>
    case Recheck(_, _) =>
    case Rouse(_, _) =>
  }

  lemma MutexStep(s: Sys, l: Label)
    requires SysInv(s) && Enabled(s, l)
    ensures MutexOk(Apply(s, l))
  {
    hide Inv, NoDup, WakeOne, Without, Fresh, Passes, InsertLinks;
    if l.Hook? || l.AddReady? || l.End? {
      WakeOneEffect(s.pc, s.wq);
    }
  }

  lemma QueueStep(s: Sys, t: Tid, p: Pc)
    requires TasksOk(s) && t in s.pc
    ensures p.Waiting? && !s.pc[t].Waiting? ==> NoDup(s.wq + [t])
    ensures NoDup(Without(s.wq, t)) && forall x :: x in Without(s.wq, t) <==> x in s.wq && x != t
  {
    WithoutMembers(s.wq, t);
    if !s.pc[t].Waiting? { NoDupConcat(s.wq, [t]); }
  }

  lemma CheckTaskStep(s: Sys, l: Label)
    requires TasksOk(s) && Enabled(s, l) && l.Check?
    ensures TasksOk(Apply(s, l))
  {
    QueueStep(s, l.t, Apply(s, l).pc[l.t]);
    hide NoDup, Decide, Without;
  }

  lemma RecheckTaskStep(s: Sys, l: Label)
    requires TasksOk(s) && Enabled(s, l) && l.Recheck?
    ensures TasksOk(Apply(s, l))
  {
    QueueStep(s, l.t, Apply(s, l).pc[l.t]);
    hide NoDup, Decide, Without;
  }

  /** Steps of one task on its own program counter. */
  lemma OwnTaskStep(s: Sys, l: Label)
    requires TasksOk(s) && Enabled(s, l) && (l.Check? || l.Recheck? || l.Rouse? || l.Call?)
    ensures TasksOk(Apply(s, l))
  {
    if l.Check? {
      hide TasksOk, Apply, Enabled;
      CheckTaskStep(s, l);
    } else if l.Recheck? {
      hide TasksOk, Apply, Enabled;
      RecheckTaskStep(s, l);
    } else {
      hide NoDup, Without, Decide;
    }
  }

  /** A wakeup moves no task into or out of the sleep loop. */
  lemma WakeTaskStep(s: Sys, l: Label)
    requires SysInv(s) && Enabled(s, l) && (l.Hook? || l.AddReady?)
    ensures TasksOk(Apply(s, l))
  {
    hide NoDup, Inv, WakeOne, Callback, InsertReady, Passes, InsertLinks;
    WakeOneEffect(s.pc, s.wq);
  }

  lemma EndTaskStep(s: Sys, l: Label)
    requires SysInv(s) && Enabled(s, l) && l.End?
    ensures TasksOk(Apply(s, l))
  {
    hide NoDup, Inv, WakeOne, EndScan, CanEnd;
    WakeOneEffect(s.pc, s.wq);
  }

  lemma ListTaskStep(s: Sys, l: Label)
    requires SysInv(s) && Enabled(s, l)
    requires l.AddItem? || l.AddFail? || l.Modify? || l.Start? || l.Unlink? || l.PollFile? || l.PutUser?
    ensures TasksOk(Apply(s, l))
  {
    hide NoDup, Inv, InsertItem, InsertAbort, Rearm, StealReady, UnlinkHead, PollHand, Report;
    hide CanUnlink, CanPoll, CanReport;
  }

  lemma TasksStep(s: Sys, l: Label)
    requires SysInv(s) && Enabled(s, l)
    ensures TasksOk(Apply(s, l))
  {
    hide Inv, MutexOk, TasksOk, Apply, Enabled;
    if l.Check? || l.Recheck? || l.Rouse? || l.Call? {
      OwnTaskStep(s, l);
    } else if l.End? {
      EndTaskStep(s, l);
    } else if l.Hook? || l.AddReady? {
      WakeTaskStep(s, l);
    } else {
      ListTaskStep(s, l);
    }
  }

  lemma StillBound(pc: map<Tid, Pc>, t: Tid, p: Pc)
    requires SomeBound(pc) && (t !in pc || !Bound(pc[t]) || Bound(p))
    ensures SomeBound(pc[t := p])
  {
    var b :| b in pc && Bound(pc[b]);
    assert Bound(pc[t := p][b]);
  }

  /** The step of a task that has just looked at the ready list leaves it bound whenever the list is not empty. */
  lemma WakeupOwnTask(s: Sys, l: Label)
    requires SysInv(s) && NoLostWakeup(s) && Enabled(s, l) && (l.Check? || l.Recheck? || l.Rouse? || l.Call?)
    ensures NoLostWakeup(Apply(s, l))
  {
    var s' := Apply(s, l);
    if s.lists.rdl != [] {
      assert Bound(s'.pc[l.t]);
    }
  }

  lemma WakeupEnd(s: Sys, l: Label)
    requires SysInv(s) && Enabled(s, l) && l.End?
    ensures NoLostWakeup(Apply(s, l))
  {
    WakeOneEffect(s.pc, s.wq);
    WakeOneSuffices(s);
    var s' := Apply(s, l);
    var woken := WakeOne(s.pc, s.wq);
    if s'.lists.rdl != [] && SomeBound(woken) {
      StillBound(woken, l.t, s'.pc[l.t]);
    }
  }

  lemma WakeupStep(s: Sys, l: Label)
    requires SysInv(s) && NoLostWakeup(s) && Enabled(s, l)
    ensures NoLostWakeup(Apply(s, l))
  {
    if l.Check? || l.Recheck? || l.Rouse? || l.Call? {
      WakeupOwnTask(s, l);
    } else if l.End? {
      WakeupEnd(s, l);
    } else if l.Hook? || l.AddReady? {
      WakeOneSuffices(s);
    }
  }

  /** No lost edge, no lost wakeup, and the list algebra last along every run. */
  lemma {:induction false} ReachableStates(s: Sys, ls: seq<Label>)
    requires SysInv(s) && NoLostWakeup(s) && CanRun(s, ls)
    ensures SysInv(Run(s, ls)) && NoLostWakeup(Run(s, ls)) && NoLostEdge(Run(s, ls).lists)
    decreases |ls|
  {
    if ls != [] {
      ListsStep(s, ls[0]);
      MutexStep(s, ls[0]);
      TasksStep(s, ls[0]);
      WakeupStep(s, ls[0]);
      ReachableStates(Apply(s, ls[0]), ls[1..]);
    }
  }

  lemma InitialIsGood(s: Sys)
    requires Initial(s)
    ensures SysInv(s) && NoLostWakeup(s)
  {
  }

  /** Every reachable state: from nothing monitored and nobody waiting, in whatever order the steps come. */
  lemma FromTheStart(s: Sys, ls: seq<Label>)
    requires Initial(s) && CanRun(s, ls)
    ensures SysInv(Run(s, ls)) && NoLostWakeup(Run(s, ls)) && NoLostEdge(Run(s, ls).lists)
  {
    InitialIsGood(s);
    ReachableStates(s, ls);
  }
}
