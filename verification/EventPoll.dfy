/** struct eventpoll and the functions of epoll_source.cpp that rewrite it in place. The overflow list is threaded
    through epi->next exactly as in the source; every method is one atomic piece and refines one step of EpollTasks. */
module EventPollModel {
  import opened EpollLists
  import opened EpollTasks
  import opened Seqs
  import opened Wrappers

  /** A value of ep->ovflist or epi->next: EP_UNACTIVE_PTR, NULL, or an item. */
  datatype Link = Unactive | Null | To(item: Item)

  function LinkTo(chain: seq<Item>): Link {
    if chain == [] then Null else To(chain[0])
  }

  lemma LinkFirst(epi: Item, rest: seq<Item>)
    ensures LinkTo([epi] + rest) == To(epi)
  {
  }

  /** Along `chain` every next pointer leads to the following item, the last one to NULL. */
  ghost predicate Follows(next: map<Item, Link>, chain: seq<Item>) {
    forall k :: 0 <= k < |chain| ==> chain[k] in next && next[chain[k]] == LinkTo(chain[k + 1..])
  }

  /** Off `chain` every next pointer is inactive. */
  ghost predicate IdleOff(next: map<Item, Link>, chain: seq<Item>) {
    forall i :: i in next && i !in chain ==> next[i] == Unactive
  }

  /** From `head` the next pointers thread exactly `chain`, without repetition; every other item is inactive. */
  ghost predicate Threads(head: Link, next: map<Item, Link>, chain: seq<Item>) {
    head == LinkTo(chain) && NoDup(chain) && IdleOff(next, chain) && Follows(next, chain)
  }

  /** An item is on the chain iff its next pointer is not inactive. */
  lemma OnChain(head: Link, next: map<Item, Link>, chain: seq<Item>, epi: Item)
    requires Threads(head, next, chain) && epi in next
    ensures epi in chain <==> next[epi] != Unactive
  {
    if epi in chain {
      var k :| 0 <= k < |chain| && chain[k] == epi;
      assert next[chain[k]] == LinkTo(chain[k + 1..]);
    }
  }

  lemma ChainHead(head: Link, next: map<Item, Link>, chain: seq<Item>)
    requires Threads(head, next, chain)
    ensures head == LinkTo(chain) && head != Unactive && NoDup(chain)
    ensures chain == [] ==> forall epi :: epi in next ==> next[epi] == Unactive
  {
  }

  lemma PushFollows(head: Link, next: map<Item, Link>, chain: seq<Item>, epi: Item)
    requires Follows(next, chain) && head == LinkTo(chain) && epi !in chain
    ensures Follows(next[epi := head], [epi] + chain)
  {
    hide LinkTo;
    var chain', next' := [epi] + chain, next[epi := head];
    forall k | 0 <= k < |chain'|
      ensures chain'[k] in next' && next'[chain'[k]] == LinkTo(chain'[k + 1..])
    {
      if k == 0 {
        assert chain'[1..] == chain;
      } else {
        assert chain'[k] == chain[k - 1] && chain'[k + 1..] == chain[k - 1 + 1..];
      }
    }
  }

  lemma PushChain(head: Link, next: map<Item, Link>, chain: seq<Item>, epi: Item)
    requires Threads(head, next, chain) && epi in next && epi !in chain
    ensures Threads(To(epi), next[epi := head], [epi] + chain)
  {
    NoDupConcat([epi], chain);
    LinkFirst(epi, chain);
    PushFollows(head, next, chain, epi);
    hide NoDup, LinkTo, Follows;
  }

  lemma PopChain(head: Link, next: map<Item, Link>, chain: seq<Item>)
    requires Threads(head, next, chain) && chain != []
    ensures chain[0] in next && Threads(next[chain[0]], next[chain[0] := Unactive], chain[1..])
  {
    hide LinkTo;
    var rest := chain[1..];
    assert chain == [chain[0]] + rest;
    assert IdleOff(next[chain[0] := Unactive], rest);
    forall k | 0 <= k < |rest|
      ensures rest[k] in next && rest[k] != chain[0] && next[rest[k]] == LinkTo(rest[k + 1..])
    {
      assert rest[k] == chain[k + 1] && rest[k + 1..] == chain[k + 2..];
    }
  }

  /** One round of the drain loop: what is put behind rdllist. */
  lemma DrainStep(before: seq<Item>, after: seq<Item>, start: seq<Item>, seen: seq<Item>, rest: seq<Item>,
                  tx: seq<Item>)
    requires NoDup(seen + rest) && rest != [] && before == start + Fresh(seen, tx + start)
    requires after == before + if rest[0] in before || rest[0] in tx then [] else [rest[0]]
    ensures after == start + Fresh(seen + [rest[0]], tx + start) && seen + rest == (seen + [rest[0]]) + rest[1..]
  {
    hide NoDup, Fresh;
    DrainOne(seen, rest, tx + start);
  }

  /** The ep_is_linked test of the drain loop sees exactly what was linked before the loop. */
  lemma DrainOne(seen: seq<Item>, rest: seq<Item>, linked: seq<Item>)
    requires NoDup(seen + rest) && rest != []
    ensures rest[0] !in Fresh(seen, linked)
    ensures Fresh(seen + [rest[0]], linked) == Fresh(seen, linked) + if rest[0] in linked then [] else [rest[0]]
    ensures seen + rest == (seen + [rest[0]]) + rest[1..]
  {
    FreshMembers(seen, linked);
    var epi := rest[0];
    assert (seen + [epi])[..|seen|] == seen;
    assert (seen + rest)[|seen|] == epi;
    assert forall k :: 0 <= k < |seen| ==> (seen + rest)[k] == seen[k];
  }

  class EventPoll {
    var rdllist: seq<Item>
    var txlist: seq<Item>          // private to the running scan
    var ovflist: Link
    var next: map<Item, Link>      // epi->next
    var events: map<Item, Mask>    // epi->event.events of every monitored item
    var scan: Scan                 // the scanner's locals, with its history
    var wq: seq<Tid>
    var task: map<Tid, Pc>
    var mtx: Holder
    ghost var chain: seq<Item>     // what ovflist and next thread together
    ghost var owed: set<Item>

    /** ovflist is active exactly while a scan runs. */
    ghost predicate Valid()
      reads this
    {
      && Threads(if scan.NoScan? then Null else ovflist, next, chain) && next.Keys == events.Keys
      && (scan.NoScan? ==> ovflist == Unactive && chain == [] && txlist == [])
      && (mtx.ScanHolds? <==> scan.Scan?)
    }

    constructor (tasks: set<Tid>)
      ensures Valid() && Initial(View()) && task.Keys == tasks
    {
      rdllist, txlist, ovflist, next, events := [], [], Unactive, map[], map[];
      scan, wq, mtx, chain, owed := NoScan, [], Nobody, [], {};
      task := map t | t in tasks :: Out;
    }

    ghost function Ready(): Lists
      reads this
    {
      Lists(events, rdllist, txlist, chain, scan, owed)
    }

    ghost function View(): Sys
      reads this
    {
      Sys(Ready(), task, wq, mtx)
    }

    predicate IsLinked(epi: Item)
      reads this
    {
      epi in rdllist || epi in txlist
    }

    /** wake_up_locked(&ep->wq) */
    method WakeUpLocked()
      modifies this`task
      ensures task == WakeOne(old(task), wq)
    {
      var i := 0;
      while i < |wq|
        invariant 0 <= i <= |wq| && task == old(task)
        invariant WakeOne(task, wq) == WakeOne(task, wq[i..])
      {
        var t := wq[i];
        if t in task && Asleep(task[t]) {
          task := task[t := task[t].(asleep := false)];
          return;
        }
        i := i + 1;
      }
    }

    method PollCallback(epi: Item, key: set<Event>)
      requires Valid() && epi in events
      modifies this`rdllist, this`ovflist, this`next, this`task, this`chain, this`owed
      ensures Valid() && View() == Apply(old(View()), Hook(epi, key))
    {
      hide Threads, WakeOne, Apply, Enabled;
      HookIs(View(), epi, key);
      if scan.Scan? { ChainHead(ovflist, next, chain); }
      var mask := events[epi];
      if mask.bits == {} {
        return;
      }
      if key != {} && key * mask.bits == {} {
        return;
      }
      owed := owed + {epi};
      if ovflist != Unactive {
        OnChain(ovflist, next, chain, epi);
        if next[epi] == Unactive {
          PushChain(ovflist, next, chain, epi);
          next := next[epi := ovflist];
          ovflist := To(epi);
          chain := [epi] + chain;
        }
      } else {
        if !IsLinked(epi) {
          rdllist := rdllist + [epi];
        }
        WakeUpLocked();
      }
    }

    /** ep_insert up to f_op->poll, which installs the hook: callbacks may hit the item from here on. */
    method InstallItem(epi: Item, mask: Mask)
      requires Valid() && Enabled(View(), AddItem(epi, mask))
      modifies this`next, this`events, this`mtx
      ensures Valid() && View() == Apply(old(View()), AddItem(epi, mask)) && next[epi] == Unactive
    {
      next := next[epi := Unactive];
      events := events[epi := mask];
      mtx := InsertHolds(epi);
    }

    /** The error_unregister path of ep_insert. */
    method AbandonItem()
      requires Valid() && Enabled(View(), AddFail)
      modifies this`rdllist, this`next, this`events, this`mtx, this`owed
      ensures Valid() && View() == Apply(old(View()), AddFail)
    {
      hide Apply, Enabled, Threads;
      FailIs(View());
      ThreadsNothing(next, mtx.item);
      var epi := mtx.item;
      if epi in rdllist {
        rdllist := Without(rdllist, epi);
      } else {
        WithoutNothing(rdllist, epi);
      }
      next := next - {epi};
      events := events - {epi};
      owed := owed - {epi};
      mtx := Nobody;
    }

    /** EPOLL_CTL_MOD, as far as the mask goes. */
    method SetMask(epi: Item, mask: Mask)
      requires Valid() && Enabled(View(), Modify(epi, mask))
      modifies this`events
      ensures Valid() && View() == Apply(old(View()), Modify(epi, mask))
    {
      events := events[epi := mask];
    }

    /** The critical section of ep_insert once f_op->poll has answered for the new item. */
    method InsertReadyItem(ready: set<Event>)
      requires Valid() && mtx.InsertHolds? && mtx.item in events
      modifies this`rdllist, this`task, this`mtx, this`owed
      ensures Valid() && View() == Apply(old(View()), AddReady(ready))
    {
      hide Threads, WakeOne;
      var epi := mtx.item;
      if ready * events[epi].bits != {} {
        owed := owed + {epi};
        if !IsLinked(epi) {
          rdllist := rdllist + [epi];
          WakeUpLocked();
        }
      }
      mtx := Nobody;
    }

    method EnterPoll(t: Tid, left: bool, max: nat)
      requires Valid() && Enabled(View(), Call(t, left, max))
      modifies this`task
      ensures Valid() && View() == Apply(old(View()), Call(t, left, max))
    {
      task := task[t := Entry(left, max)];
    }

    /** schedule_timeout returns: woken, by a signal, or with no time left. */
    method EndSleep(t: Tid, expired: bool)
      requires Valid() && Enabled(View(), Rouse(t, expired))
      modifies this`task
      ensures Valid() && View() == Apply(old(View()), Rouse(t, expired))
    {
      task := task[t := task[t].(asleep := false, left := task[t].left && !expired)];
    }

    /** One critical section of ep_poll: from `retry` or from the end of schedule_timeout, until the lock is dropped. */
    method PollRound(t: Tid, signal: bool)
      requires Valid() && t in task && (task[t].Entry? || (task[t].Waiting? && !task[t].asleep))
      modifies this`task, this`wq
      ensures Valid()
      ensures View() == Apply(old(View()), if old(task)[t].Entry? then Check(t, signal) else Recheck(t, signal))
    {
      hide Threads, Without;
      var queued, left, max := task[t].Waiting?, task[t].left, task[t].max;
      var interrupted := false;
      if rdllist == [] && left {
        if !signal {
          if !queued {
            wq := wq + [t];
          }
          task := task[t := Waiting(true, left, max)];
          return;
        }
        interrupted := true;
      }
      if queued {
        wq := Without(wq, t);
      }
      var eavail := rdllist != [] || ovflist != Unactive;
      if scan.Scan? { ChainHead(ovflist, next, chain); }
      task := task[t := if !interrupted && eavail then WantScan(left, max) else Out];
    }

    /** The opening critical section of ep_scan_ready_list, mtx taken. */
    method StealReadyList(t: Tid)
      requires Valid() && Enabled(View(), Start(t))
      modifies this`rdllist, this`txlist, this`ovflist, this`scan, this`task, this`mtx
      ensures Valid() && View() == Apply(old(View()), Start(t))
    {
      hide Threads, Apply, Enabled;
      StartIs(View(), t);
      scan := Scan(task[t].max, 0, Top, rdllist, []);
      txlist := rdllist;
      rdllist := [];
      ovflist := Null;
      mtx := ScanHolds(t);
      task := task[t := Scanning(task[t].left, task[t].max)];
    }

    /** list_first_entry and list_del_init in ep_send_events_proc. */
    method TakeFirst() returns (epi: Item)
      requires Valid() && Enabled(View(), Unlink)
      modifies this`txlist, this`scan
      ensures Valid() && View() == Apply(old(View()), Unlink) && scan.phase == Unlinked(epi)
    {
      hide Threads;
      epi := txlist[0];
      txlist := txlist[1..];
      scan := scan.(phase := Unlinked(epi));
    }

    /** f_op->poll answers `ready`: revents is what the mask lets through. */
    method PollItem(ready: set<Event>)
      requires Valid() && Enabled(View(), PollFile(ready))
      modifies this`scan, this`owed
      ensures Valid() && View() == Apply(old(View()), PollFile(ready))
    {
      hide Threads;
      var epi := scan.phase.item;
      scan := scan.(phase := Polled(epi, ready * events[epi].bits));
      owed := owed - {epi};
    }

    /** The rest of one round of ep_send_events_proc, once f_op->poll has answered. */
    method ReportEvents(fault: bool)
      requires Valid() && Enabled(View(), PutUser(fault))
      modifies this`rdllist, this`txlist, this`events, this`scan, this`owed
      ensures Valid() && View() == Apply(old(View()), PutUser(fault))
    {
      hide Threads;
      var epi, revents := scan.phase.item, scan.phase.revents;
      var level := LevelTriggered(events[epi]);
      if revents == {} {
        scan := scan.(phase := Top, done := scan.done + [Outcome(epi, false, level)]);
      } else if fault {
        txlist := [epi] + txlist;
        owed := owed + {epi};
        scan := scan.(phase := Faulted);
      } else {
        scan := scan.(phase := Top, count := scan.count + 1, done := scan.done + [Outcome(epi, true, level)]);
        if events[epi].oneshot {
          events := events[epi := events[epi].(bits := {})];
        } else if !events[epi].et {
          rdllist := rdllist + [epi];
        }
      }
    }

    /** Drain ovflist into rdllist, skipping what is linked already, and reset every next pointer. */
    method DrainOverflow()
      requires Valid() && scan.Scan?
      modifies this`rdllist, this`ovflist, this`next
      ensures rdllist == old(rdllist) + Fresh(chain, txlist + old(rdllist))
      ensures ovflist == Unactive && next.Keys == old(next.Keys) && Threads(Null, next, [])
    {
      hide Threads, Fresh, NoDup;
      ChainHead(ovflist, next, chain);
      var nepi := ovflist;
      ghost var seen, rest := [], chain;
      ghost var linked := txlist + rdllist;
      FreshNone(linked);
      while nepi != Null
        invariant Threads(nepi, next, rest) && next.Keys == old(next.Keys)
        invariant chain == seen + rest && NoDup(chain)
        invariant nepi == LinkTo(rest) && rdllist == old(rdllist) + Fresh(seen, linked)
        decreases |rest|
      {
        var epi := nepi.item;
        ghost var before := rdllist;
        PopChain(nepi, next, rest);
        ChainHead(next[epi], next[epi := Unactive], rest[1..]);
        if !IsLinked(epi) {
          rdllist := rdllist + [epi];
        }
        DrainStep(before, rdllist, old(rdllist), seen, rest, txlist);
        nepi := next[epi];
        next := next[epi := Unactive];
        seen, rest := seen + [epi], rest[1..];
      }
      assert seen == chain;
      ovflist := Unactive;
    }

    /** Lines 774-796: the overflowed items go behind rdllist, what is left of txlist in front of it. */
    method Reinject()
      requires Valid() && CanEnd(Ready())
      modifies this`rdllist, this`txlist, this`ovflist, this`next, this`scan, this`chain
      ensures Ready() == EndScan(old(Ready()))
      ensures ovflist == Unactive && Threads(Null, next, chain) && next.Keys == events.Keys
    {
      hide Threads, Fresh;
      DrainOverflow();
      chain := [];
      rdllist := txlist + rdllist;
      txlist := [];
      scan := NoScan;
    }

    /** The closing critical section of ep_scan_ready_list, and what ep_poll does with its result. */
    method FinishScan(t: Tid)
      requires Valid() && Enabled(View(), End(t))
      modifies this`rdllist, this`txlist, this`ovflist, this`next, this`scan, this`task, this`mtx, this`chain
      ensures Valid() && View() == Apply(old(View()), End(t))
      ensures ovflist == Unactive && forall epi :: epi in next ==> next[epi] == Unactive
    {
      hide Threads, WakeOne, EndScan, Apply, Enabled;
      EndIs(View(), t);
      var res := if scan.phase.Faulted? then None else Some(scan.count);
      Reinject();
      assert chain == [] && txlist == [] && scan.NoScan? && events == old(events) by { EndEmpties(old(Ready())); }
      ChainHead(Null, next, []);
      if rdllist != [] {
        WakeUpLocked();
      }
      mtx := Nobody;
      assert t in task && task[t] == old(task)[t] by { WakeOneEffect(old(task), wq); }
      var left, max := task[t].left, task[t].max;
      task := task[t := if res == Some(0) && left then Entry(left, max) else Out];
    }
  }

  lemma ThreadsNothing(next: map<Item, Link>, epi: Item)
    ensures Threads(Null, next, []) ==> Threads(Null, next - {epi}, [])
  {
  }

  // The steps the larger methods refine, spelled out.

  lemma StartIs(s: Sys, t: Tid)
    requires Enabled(s, Start(t))
    ensures t in s.pc && s.pc[t].WantScan? && s.mtx.Nobody?
    ensures Apply(s, Start(t)) == s.(lists := StealReady(s.lists, s.pc[t].max), mtx := ScanHolds(t),
                                     pc := s.pc[t := Scanning(s.pc[t].left, s.pc[t].max)])
  {
  }

  lemma EndIs(s: Sys, t: Tid)
    requires Enabled(s, End(t))
    ensures s.mtx == ScanHolds(t) && CanEnd(s.lists) && t in s.pc && s.pc[t].Scanning?
    ensures var p, lists := s.pc[t], EndScan(s.lists);
            var nothing := s.lists.scan.count == 0 && !s.lists.scan.phase.Faulted?;
            var woken := if lists.rdl != [] then WakeOne(s.pc, s.wq) else s.pc;
            Apply(s, End(t)) == s.(lists := lists, mtx := Nobody,
                                   pc := woken[t := if nothing && p.left then Entry(p.left, p.max) else Out])
  {
    hide WakeOne, EndScan;
  }

  lemma FailIs(s: Sys)
    requires Enabled(s, AddFail)
    ensures s.mtx.InsertHolds? && Apply(s, AddFail) == s.(lists := InsertAbort(s.lists, s.mtx.item), mtx := Nobody)
  {
  }

  lemma HookIs(s: Sys, epi: Item, key: set<Event>)
    requires epi in s.lists.mask
    ensures Enabled(s, Hook(epi, key))
    ensures var wakes := Passes(s.lists.mask[epi], key) && s.lists.scan.NoScan?;
            Apply(s, Hook(epi, key)) == s.(lists := Callback(s.lists, epi, key),
                                           pc := if wakes then WakeOne(s.pc, s.wq) else s.pc)
  {
    hide WakeOne, Callback, Passes;
  }

  lemma {:induction false} WithoutNothing(s: seq<Item>, epi: Item)
    requires epi !in s
    ensures Without(s, epi) == s
  {
    if s != [] {
      WithoutNothing(s[..|s| - 1], epi);
    }
  }

  lemma FreshNone(linked: seq<Item>)
    ensures Fresh([], linked) == []
  {
  }

  lemma EndEmpties(c: Lists)
    requires CanEnd(c)
    ensures EndScan(c).ovf == [] && EndScan(c).tx == [] && EndScan(c).scan.NoScan? && EndScan(c).mask == c.mask
  {
  }
}
