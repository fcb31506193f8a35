/** The list half of epoll_source.cpp: rdllist, the scanner's txlist, the overflow chain and the event masks.
    One function per critical section of ep->lock, or per lockless piece of the scan loop. */
module EpollLists {
  import opened Seqs

  type Item = nat   // an epitem
  type Event = nat  // one poll(2) event bit

  /** epi->event.events: the poll(2) bits, and the two EP_PRIVATE_BITS. */
  datatype Mask = Mask(bits: set<Event>, oneshot: bool, et: bool)

  /** What the scan did with one item it took off txlist. */
  datatype Outcome = Outcome(item: Item, delivered: bool, level: bool)

  /** Where the loop of ep_send_events_proc stands. */
  datatype Phase = Top | Unlinked(item: Item) | Polled(item: Item, revents: set<Event>) | Faulted

  /** `stolen` and `done` are history: the list taken over at the start, and the items consumed since. */
  datatype Scan =
    | NoScan
    | Scan(maxevents: nat, count: nat, phase: Phase, stolen: seq<Item>, done: seq<Outcome>)

  /** `ovf` is the chain hanging off ep->ovflist, newest first; it is active exactly while a scan runs.
      `owed` is history: items with an event that user space has neither received nor seen refuted by f_op->poll. */
  datatype Lists = Lists(mask: map<Item, Mask>, rdl: seq<Item>, tx: seq<Item>, ovf: seq<Item>,
                         scan: Scan, owed: set<Item>)

  predicate LevelTriggered(m: Mask) {
    !m.oneshot && !m.et
  }

  /** Both mask tests at the head of ep_poll_callback; an empty key stands for NULL. */
  predicate Passes(m: Mask, key: set<Event>) {
    m.bits != {} && (key == {} || key * m.bits != {})
  }

  function Hand(scan: Scan): seq<Item> {
    if scan.Scan? && (scan.phase.Unlinked? || scan.phase.Polled?) then [scan.phase.item] else []
  }

  function Consumed(done: seq<Outcome>): seq<Item> {
    seq(|done|, i requires 0 <= i < |done| => done[i].item)
  }

  /** The items the scan put back on rdllist, oldest first. */
  function Requeued(done: seq<Outcome>): seq<Item> {
    if done == [] then [] else
      var o := done[|done| - 1];
      Requeued(done[..|done| - 1]) + if o.delivered && o.level then [o.item] else []
  }

  function Deliveries(done: seq<Outcome>): nat {
    if done == [] then 0
    else Deliveries(done[..|done| - 1]) + if done[|done| - 1].delivered then 1 else 0
  }

  /** The members of `xs`, in order, that `linked` does not hold. */
  function Fresh(xs: seq<Item>, linked: seq<Item>): seq<Item> {
    if xs == [] then [] else
      Fresh(xs[..|xs| - 1], linked) + if xs[|xs| - 1] in linked then [] else [xs[|xs| - 1]]
  }

  // ---- steps ----

  function Callback(c: Lists, i: Item, key: set<Event>): Lists
    requires i in c.mask
  {
    if !Passes(c.mask[i], key) then c
    else if c.scan.Scan? then c.(ovf := if i in c.ovf then c.ovf else [i] + c.ovf, owed := c.owed + {i})
    else c.(rdl := if i in c.rdl then c.rdl else c.rdl + [i], owed := c.owed + {i})
  }

  function StealReady(c: Lists, maxevents: nat): Lists {
    c.(tx := c.rdl, rdl := [], scan := Scan(maxevents, 0, Top, c.rdl, []))
  }

  predicate CanUnlink(c: Lists) {
    c.scan.Scan? && c.scan.phase.Top? && c.tx != [] && c.scan.count < c.scan.maxevents
  }

  function UnlinkHead(c: Lists): Lists
    requires CanUnlink(c)
  {
    c.(tx := c.tx[1..], scan := c.scan.(phase := Unlinked(c.tx[0])))
  }

  predicate CanPoll(c: Lists) {
    c.scan.Scan? && c.scan.phase.Unlinked? && c.scan.phase.item in c.mask
  }

  function PollHand(c: Lists, ready: set<Event>): Lists
    requires CanPoll(c)
  {
    var i := c.scan.phase.item;
    c.(scan := c.scan.(phase := Polled(i, ready * c.mask[i].bits)), owed := c.owed - {i})
  }

  predicate CanReport(c: Lists) {
    c.scan.Scan? && c.scan.phase.Polled? && c.scan.phase.item in c.mask
  }

  function Report(c: Lists, fault: bool): Lists
    requires CanReport(c)
  {
    var Polled(i, revents) := c.scan.phase;
    var m := c.mask[i];
    if revents == {} then
      c.(scan := c.scan.(phase := Top, done := c.scan.done + [Outcome(i, false, LevelTriggered(m))]))
    else if fault then
      c.(tx := [i] + c.tx, owed := c.owed + {i}, scan := c.scan.(phase := Faulted))
    else
      c.(mask := if m.oneshot then c.mask[i := m.(bits := {})] else c.mask,
         rdl := if LevelTriggered(m) then c.rdl + [i] else c.rdl,
         scan := c.scan.(phase := Top, count := c.scan.count + 1,
                         done := c.scan.done + [Outcome(i, true, LevelTriggered(m))]))
  }

  predicate CanEnd(c: Lists) {
    c.scan.Scan? &&
    (c.scan.phase.Faulted? || (c.scan.phase.Top? && (c.tx == [] || c.scan.count >= c.scan.maxevents)))
  }

  function EndScan(c: Lists): Lists
    requires CanEnd(c)
  {
    c.(rdl := c.tx + (c.rdl + Fresh(c.ovf, c.tx + c.rdl)), tx := [], ovf := [], scan := NoScan)
  }

  /** ep_insert up to the installed poll hook: callbacks may hit the item from here on. */
  function InsertItem(c: Lists, i: Item, m: Mask): Lists {
    c.(mask := c.mask[i := m])
  }

  predicate InsertLinks(c: Lists, i: Item, ready: set<Event>)
    requires i in c.mask
  {
    ready * c.mask[i].bits != {} && i !in c.rdl
  }

  function InsertReady(c: Lists, i: Item, ready: set<Event>): Lists
    requires i in c.mask
  {
    c.(rdl := if InsertLinks(c, i, ready) then c.rdl + [i] else c.rdl,
       owed := if ready * c.mask[i].bits != {} then c.owed + {i} else c.owed)
  }

  function Without(s: seq<Item>, i: Item): seq<Item> {
    if s == [] then [] else Without(s[..|s| - 1], i) + if s[|s| - 1] == i then [] else [s[|s| - 1]]
  }

  /** The error_unregister path. */
  function InsertAbort(c: Lists, i: Item): Lists {
    c.(mask := c.mask - {i}, rdl := Without(c.rdl, i), owed := c.owed - {i})
  }

  function Rearm(c: Lists, i: Item, m: Mask): Lists {
    c.(mask := c.mask[i := m])
  }

  // ---- the invariant ----

  ghost predicate Listed(c: Lists, i: Item) {
    i in c.rdl || i in c.tx || i in c.ovf || (c.scan.Scan? && c.scan.phase == Unlinked(i))
  }

  /** No lost edge: everything owed sits on some list or has just been unlinked and is about to be polled. */
  ghost predicate NoLostEdge(c: Lists) {
    forall i :: i in c.owed ==> Listed(c, i)
  }

  ghost predicate ScanShape(c: Lists)
    requires c.scan.Scan?
  {
    var sc := c.scan;
    && sc.stolen == Consumed(sc.done) + Hand(sc) + c.tx
    && NoDup(sc.stolen)
    && c.rdl == Requeued(sc.done)
    && sc.count == Deliveries(sc.done) <= sc.maxevents
    && (Hand(sc) != [] ==> sc.count < sc.maxevents)
    && (sc.phase.Faulted? ==> c.tx != [])
    && (sc.phase.Polled? && sc.phase.item in c.mask ==> sc.phase.revents <= c.mask[sc.phase.item].bits)
    && (forall o :: o in sc.done && o.item in c.mask ==> o.level == LevelTriggered(c.mask[o.item]))
  }

  ghost predicate Monitored(c: Lists) {
    && (forall i :: i in c.rdl ==> i in c.mask)
    && (forall i :: i in c.tx ==> i in c.mask)
    && (forall i :: i in c.ovf ==> i in c.mask)
    && (forall i :: i in Hand(c.scan) ==> i in c.mask)
  }

  ghost predicate Disjoint(c: Lists) {
    && NoDup(c.rdl) && NoDup(c.tx) && NoDup(c.ovf)
    && (forall i :: i in c.rdl ==> i !in c.tx)
    && (forall i :: i in Hand(c.scan) ==> i !in c.tx && i !in c.rdl)
  }

  ghost predicate Inv(c: Lists) {
    && Monitored(c) && Disjoint(c) && NoLostEdge(c)
    && (c.scan.NoScan? ==> c.tx == [] && c.ovf == [])
    && (c.scan.Scan? ==> ScanShape(c))
  }

  // ---- sequence facts ----

  lemma {:induction false} RequeuedMembers(done: seq<Outcome>)
    ensures forall x :: x in Requeued(done) <==> exists o :: o in done && o.delivered && o.level && o.item == x
  {
    if done != [] {
      var init, last := done[..|done| - 1], done[|done| - 1];
      RequeuedMembers(init);
      assert done == init + [last];
    }
  }

  lemma {:induction false} RequeuedNoDup(done: seq<Outcome>)
    requires NoDup(Consumed(done))
    ensures NoDup(Requeued(done))
  {
    if done != [] {
      var n := |done| - 1;
      assert forall i :: 0 <= i < n ==> Consumed(done[..n])[i] == Consumed(done)[i];
      RequeuedNoDup(done[..n]);
      RequeuedMembers(done[..n]);
      assert forall i :: 0 <= i < n ==> Consumed(done)[i] != Consumed(done)[n];
      forall x | x in Requeued(done[..n])
        ensures x != done[n].item
      {
        var o :| o in done[..n] && o.item == x;
        var j :| 0 <= j < n && done[j] == o;
        assert Consumed(done)[j] == x;
      }
      NoDupConcat(Requeued(done[..n]), if done[n].delivered && done[n].level then [done[n].item] else []);
    }
  }

  lemma {:induction false} FreshMembers(xs: seq<Item>, linked: seq<Item>)
    ensures forall x :: x in Fresh(xs, linked) <==> x in xs && x !in linked
    ensures NoDup(xs) ==> NoDup(Fresh(xs, linked))
  {
    if xs != [] {
      var init, last := xs[..|xs| - 1], xs[|xs| - 1];
      FreshMembers(init, linked);
      assert xs == init + [last];
      if NoDup(xs) {
        assert last !in init;
        NoDupConcat(Fresh(init, linked), if last in linked then [] else [last]);
      }
    }
  }

  lemma {:induction false} WithoutMembers(s: seq<Item>, i: Item)
    ensures forall x :: x in Without(s, i) <==> x in s && x != i
    ensures NoDup(s) ==> NoDup(Without(s, i))
  {
    if s != [] {
      var init, last := s[..|s| - 1], s[|s| - 1];
      WithoutMembers(init, i);
      assert s == init + [last];
      if NoDup(s) {
        assert last !in init;
        NoDupConcat(Without(init, i), if last == i then [] else [last]);
      }
    }
  }

  // ---- every step keeps the invariant ----

  lemma CallbackInv(c: Lists, i: Item, key: set<Event>)
    requires Inv(c) && i in c.mask
    ensures Inv(Callback(c, i, key))
  {
    var c' := Callback(c, i, key);
    assert forall x :: x in c.rdl ==> x in c'.rdl;
    assert forall x :: x in c.ovf ==> x in c'.ovf;
    assert NoLostEdge(c');
  }

  lemma StealInv(c: Lists, maxevents: nat)
    requires Inv(c) && c.scan.NoScan?
    ensures Inv(StealReady(c, maxevents))
  {
  }

  lemma UnlinkInv(c: Lists)
    requires Inv(c) && CanUnlink(c)
    ensures Inv(UnlinkHead(c))
  {
    var c' := UnlinkHead(c);
    assert c.tx == [c.tx[0]] + c'.tx;
    assert c'.scan.stolen == Consumed(c'.scan.done) + Hand(c'.scan) + c'.tx;
    assert NoLostEdge(c');
  }

  lemma PollInv(c: Lists, ready: set<Event>)
    requires Inv(c) && CanPoll(c)
    ensures Inv(PollHand(c, ready))
  {
    var c' := PollHand(c, ready);
    assert Hand(c'.scan) == Hand(c.scan);
    assert NoLostEdge(c');
  }

  lemma ConsumeOne(done: seq<Outcome>, o: Outcome)
    ensures Consumed(done + [o]) == Consumed(done) + [o.item]
    ensures Requeued(done + [o]) == Requeued(done) + if o.delivered && o.level then [o.item] else []
    ensures Deliveries(done + [o]) == Deliveries(done) + if o.delivered then 1 else 0
  {
    assert (done + [o])[..|done|] == done;
  }

  lemma ReportDisjoint(c: Lists, fault: bool)
    requires Inv(c) && CanReport(c)
    ensures Disjoint(Report(c, fault))
  {
    var i := c.scan.phase.item;
    NoDupConcat([i], c.tx);
    NoDupConcat(c.rdl, [i]);
    // an item comes off txlist before it can come back through rdllist
    assert i in Hand(c.scan);
    forall x | x in c.rdl
      ensures x !in c.tx
    {
    }
  }

  lemma ReportEdges(c: Lists, fault: bool)
    requires Inv(c) && CanReport(c)
    ensures NoLostEdge(Report(c, fault))
  {
    var c' := Report(c, fault);
    forall x | x in c'.owed
      ensures Listed(c', x)
    {
      if x in c.owed { assert Listed(c, x); }
    }
  }

  lemma ReportLevels(c: Lists, fault: bool)
    requires CanReport(c) && ScanShape(c)
    ensures var c' := Report(c, fault);
            forall o :: o in c'.scan.done && o.item in c'.mask ==> o.level == LevelTriggered(c'.mask[o.item])
  {
    var c' := Report(c, fault);
    forall o | o in c'.scan.done && o.item in c'.mask
      ensures o.level == LevelTriggered(c'.mask[o.item])
    {
      if o !in c.scan.done { assert o.item == c.scan.phase.item; }
    }
  }

  lemma ReportStolen(c: Lists, fault: bool)
    requires CanReport(c) && c.scan.stolen == Consumed(c.scan.done) + Hand(c.scan) + c.tx
    ensures var c' := Report(c, fault); c.scan.stolen == Consumed(c'.scan.done) + Hand(c'.scan) + c'.tx
  {
    var c' := Report(c, fault);
    var i := c.scan.phase.item;
    if c.scan.phase.revents != {} && fault {
      assert Consumed(c.scan.done) + [i] + c.tx == Consumed(c.scan.done) + [] + ([i] + c.tx);
    } else {
      ConsumeOne(c.scan.done, c'.scan.done[|c.scan.done|]);
      assert Consumed(c.scan.done) + [i] + c.tx == Consumed(c'.scan.done) + [] + c'.tx;
    }
  }

  lemma ReportShape(c: Lists, fault: bool)
    requires CanReport(c) && ScanShape(c)
    ensures ScanShape(Report(c, fault))
  {
    ReportLevels(c, fault);
    ReportStolen(c, fault);
    var o := Outcome(c.scan.phase.item, c.scan.phase.revents != {}, LevelTriggered(c.mask[c.scan.phase.item]));
    ConsumeOne(c.scan.done, o);
  }

  lemma ReportInv(c: Lists, fault: bool)
    requires Inv(c) && CanReport(c)
    ensures Inv(Report(c, fault))
  {
    ReportShape(c, fault);
    ReportEdges(c, fault);
    ReportDisjoint(c, fault);
    var c' := Report(c, fault);
    assert c'.tx == c.tx || c'.tx == [c.scan.phase.item] + c.tx;
    assert Monitored(c');
  }

  lemma EndInv(c: Lists)
    requires Inv(c) && CanEnd(c)
    ensures Inv(EndScan(c))
  {
    hide NoDup, Fresh;
    EndMembers(c);
    EndNoDup(c);
    NoDupNone<Item>();
    var c' := EndScan(c);
    assert NoLostEdge(c') by {
      forall i | i in c.owed ensures Listed(c', i) { assert Listed(c, i); }
    }
  }

  lemma EndMembers(c: Lists)
    requires CanEnd(c)
    ensures forall x :: x in EndScan(c).rdl <==> x in c.tx || x in c.rdl || x in c.ovf
  {
    hide Fresh;
    FreshMembers(c.ovf, c.tx + c.rdl);
  }

  lemma EndNoDup(c: Lists)
    requires Disjoint(c) && CanEnd(c)
    ensures NoDup(EndScan(c).rdl)
  {
    hide NoDup, Fresh;
    FreshMembers(c.ovf, c.tx + c.rdl);
    var f := Fresh(c.ovf, c.tx + c.rdl);
    NoDupConcat(c.rdl, f);
    NoDupConcat(c.tx, c.rdl + f);
  }

  lemma InsertInv(c: Lists, i: Item, m: Mask)
    requires Inv(c) && c.scan.NoScan?
    ensures Inv(InsertItem(c, i, m))
  {
  }

  lemma InsertReadyInv(c: Lists, i: Item, ready: set<Event>)
    requires Inv(c) && c.scan.NoScan? && i in c.mask
    ensures Inv(InsertReady(c, i, ready))
  {
    var c' := InsertReady(c, i, ready);
    assert forall x :: x in c.rdl ==> x in c'.rdl;
    assert NoLostEdge(c');
  }

  lemma InsertAbortInv(c: Lists, i: Item)
    requires Inv(c) && c.scan.NoScan?
    ensures Inv(InsertAbort(c, i))
  {
    WithoutMembers(c.rdl, i);
  }

  // ---- what one scan leaves behind ----

  /** The scan-list algebra: after a scan the ready list is the unscanned rest, then the re-queued level-triggered
      items, then the items hit meanwhile that were not linked, newest first. */
  lemma ScanResult(c: Lists)
    requires Inv(c) && CanEnd(c)
    ensures var c' := EndScan(c); var k := |c.scan.done|;
            var linked := c.scan.stolen[k..] + Requeued(c.scan.done);
            && c'.rdl == linked + Fresh(c.ovf, linked)
            && c'.ovf == [] && c'.tx == [] && c'.scan.NoScan?
  {
    var k := |c.scan.done|;
    assert c.scan.stolen[k..] == c.tx;
    var f := Fresh(c.ovf, c.tx + c.rdl);
    assert c.tx + (c.rdl + f) == c.tx + c.rdl + f;
  }

  /** A delivered item is ready again when the scan ends iff it is level-triggered or has overflowed. */
  lemma DeliveredReady(c: Lists, o: Outcome)
    requires Inv(c) && CanEnd(c) && o in c.scan.done && o.delivered
    ensures o.item in EndScan(c).rdl <==> o.level || o.item in c.ovf
    ensures o.item in c.mask ==> o.level == LevelTriggered(c.mask[o.item])
  {
    FreshMembers(c.ovf, c.tx + c.rdl);
    RequeuedMembers(c.scan.done);
    var k := |c.scan.done|;
    var j :| 0 <= j < k && c.scan.done[j] == o;
    assert c.scan.stolen[j] == Consumed(c.scan.done)[j] == o.item;
    assert forall n :: 0 <= n < |c.tx| ==> c.tx[n] == c.scan.stolen[k + |Hand(c.scan)| + n];
    assert o.item !in c.tx;
    if o.item in Requeued(c.scan.done) {
      var p :| p in c.scan.done && p.delivered && p.level && p.item == o.item;
      var n :| 0 <= n < k && c.scan.done[n] == p;
      assert Consumed(c.scan.done)[n] == c.scan.stolen[n] == p.item;
      assert n == j;
    }
  }
}
