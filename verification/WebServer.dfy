/** http_web_server.cpp with its pool: one main thread in the epoll loop, any number of workers, and EPOLLONESHOT as the
    token that says who may touch a connection. */
module WebServer {
  import P = ThreadPoolModel

  type Conn = P.Request  // users + sockfd, never NULL

  datatype Event = Listen | Ready(conn: Conn)

  /** The main thread between events, between push and post of append, or inside write() past its modfd. */
  datatype MainPc = Idle | Posting | Rearmed

  /** `events` is the unprocessed part of the array epoll_wait filled. `dropped` is history: connections whose event
      was ignored or whose append was refused; nobody owns them any more. */
  datatype Server = Server(pool: P.Pool, open: set<Conn>, armed: set<Conn>, events: seq<Event>, main: MainPc,
                           dropped: set<Conn>)

  const MAIN: P.Tid := 0

  datatype Label =
    | EpollWait(events: seq<Event>)
    | Accept(conn: Conn)
    | AcceptFails                       // accept fails, or the server is full
    | CloseOnEvent                      // hang-up or error, read() failed, or write() failed without re-arming
    | ReadOk                            // read() succeeded: the push half of append
    | PostWork                          // its post half
    | WriteRearms                       // write() calls modfd
    | WriteReturns(keep: bool)
    | Ignore                            // none of the tested event bits
    | WorkerWait(w: P.Tid, early: bool)
    | WorkerTake(w: P.Tid)
    | WorkerRearms(w: P.Tid)            // process() ends with modfd
    | WorkerCloses(w: P.Tid)            // process() ends with close_conn

  predicate HeadReady(s: Server) {
    s.events != [] && s.events[0].Ready? && s.main.Idle?
  }

  predicate HeadListen(s: Server) {
    s.events != [] && s.events[0].Listen? && s.main.Idle?
  }

  /** epoll reports a connection only while it is armed, and reporting disarms it (EpollRuns.OneShot). */
  predicate Deliverable(events: seq<Event>, armed: set<Conn>) {
    && (forall i :: 0 <= i < |events| && events[i].Ready? ==> events[i].conn in armed)
    && (forall i, j :: 0 <= i < j < |events| && events[i].Ready? ==> events[i] != events[j])
  }

  function Reported(events: seq<Event>): set<Conn> {
    set e | e in events && e.Ready? :: e.conn
  }

  predicate Holding(s: Server, w: P.Tid) {
    w in s.pool.worker && s.pool.worker[w].Busy?
  }

  predicate Enabled(s: Server, l: Label) {
    match l
    case EpollWait(es) => s.events == [] && s.main.Idle? && Deliverable(es, s.armed)
    case Accept(c) => HeadListen(s) && c !in s.open && c != 0
    case AcceptFails => HeadListen(s)
    case CloseOnEvent => HeadReady(s)
    case ReadOk => HeadReady(s) && P.Enabled(s.pool, P.Push(MAIN, s.events[0].conn))
    case PostWork => s.main.Posting? && P.Enabled(s.pool, P.Post(MAIN))
    case WriteRearms => HeadReady(s)
    case WriteReturns(_) => s.main.Rearmed? && s.events != [] && s.events[0].Ready?
    case Ignore => HeadReady(s)
    case WorkerWait(w, early) => P.Enabled(s.pool, P.Wait(w, early))
    case WorkerTake(w) => P.Enabled(s.pool, P.Take(w))
    case WorkerRearms(w) => Holding(s, w)
    case WorkerCloses(w) => Holding(s, w)
  }

  function Apply(s: Server, l: Label): Server
    requires Enabled(s, l)
  {
    match l
    case EpollWait(es) => s.(events := es, armed := s.armed - Reported(es))
    case Accept(c) => s.(events := s.events[1..], open := s.open + {c}, armed := s.armed + {c})
    case AcceptFails => s.(events := s.events[1..])
    case CloseOnEvent => s.(events := s.events[1..], open := s.open - {s.events[0].conn})
    case ReadOk =>
      var c := s.events[0].conn;
      var refused := P.Refuses(s.pool);
      s.(events := s.events[1..], pool := P.Apply(s.pool, P.Push(MAIN, c)),
         main := if refused then Idle else Posting,
         dropped := if refused then s.dropped + {c} else s.dropped)
    case PostWork => s.(main := Idle, pool := P.Apply(s.pool, P.Post(MAIN)))
    case WriteRearms => s.(main := Rearmed, armed := s.armed + {s.events[0].conn})
    case WriteReturns(keep) =>
      var c := s.events[0].conn;
      if keep then s.(main := Idle, events := s.events[1..])
      else s.(main := Idle, events := s.events[1..], open := s.open - {c}, armed := s.armed - {c})
    case Ignore => s.(events := s.events[1..], dropped := s.dropped + {s.events[0].conn})
    case WorkerWait(w, early) => s.(pool := P.Apply(s.pool, P.Wait(w, early)))
    case WorkerTake(w) => s.(pool := P.Apply(s.pool, P.Take(w)))
    case WorkerRearms(w) =>
      s.(pool := P.Apply(s.pool, P.Finish(w)), armed := s.armed + {s.pool.worker[w].request})
    case WorkerCloses(w) =>
      s.(pool := P.Apply(s.pool, P.Finish(w)), open := s.open - {s.pool.worker[w].request})
  }

  predicate Initial(s: Server) {
    P.Initial(s.pool) && s.open == {} && s.armed == {} && s.events == [] && s.main.Idle? && s.dropped == {}
  }

  predicate CanRun(s: Server, ls: seq<Label>)
    decreases |ls|
  {
    ls == [] || (Enabled(s, ls[0]) && CanRun(Apply(s, ls[0]), ls[1..]))
  }

  function Run(s: Server, ls: seq<Label>): Server
    requires CanRun(s, ls)
    decreases |ls|
  {
    if ls == [] then s else Run(Apply(s, ls[0]), ls[1..])
  }

  // ---- ownership ----

  predicate InEvents(s: Server, c: Conn) {
    Ready(c) in s.events
  }

  predicate Queued(s: Server, c: Conn) {
    c in s.pool.queue
  }

  ghost predicate AtWork(s: Server, c: Conn) {
    exists w :: w in s.pool.worker && s.pool.worker[w] == P.Busy(c)
  }

  ghost predicate NoRepeats(s: Server) {
    && (forall i, j :: 0 <= i < j < |s.pool.queue| ==> s.pool.queue[i] != s.pool.queue[j])
    && (forall i, j :: 0 <= i < j < |s.events| && s.events[i].Ready? ==> s.events[i] != s.events[j])
    && (forall v, w :: Holding(s, v) && Holding(s, w) && s.pool.worker[v] == s.pool.worker[w] ==> v == w)
  }

  /** Nobody else holds what a queue slot, a worker or a drop holds; a reported connection is armed again only while
      the main thread is still inside write() on it. */
  ghost predicate Exclusive(s: Server) {
    && (forall c :: c in s.pool.queue ==> c !in s.armed && !InEvents(s, c) && c !in s.dropped)
    && (forall w :: Holding(s, w) ==> var c := s.pool.worker[w].request;
                      c !in s.armed && !InEvents(s, c) && c !in s.dropped && !Queued(s, c))
    && (forall c :: c in s.dropped ==> c !in s.armed && !InEvents(s, c))
    && (forall c :: c in s.armed && InEvents(s, c) ==> s.main.Rearmed? && s.events[0] == Ready(c))
  }

  /** No connection is forgotten: what is open is armed, reported, queued, at work, or was dropped. */
  ghost predicate Covered(s: Server) {
    && (forall c :: c in s.open ==> c in s.armed || InEvents(s, c) || Queued(s, c) || AtWork(s, c) || c in s.dropped)
    && (forall c :: c in s.armed ==> c in s.open) && (forall c :: c in s.dropped ==> c in s.open)
    && (forall c :: InEvents(s, c) ==> c in s.open)
    && (forall c :: c in s.pool.queue ==> c in s.open)
    && (forall w :: Holding(s, w) ==> s.pool.worker[w].request in s.open)
    && 0 !in s.open
  }

  ghost predicate MainOk(s: Server) {
    && (s.main.Rearmed? ==> s.events != [] && s.events[0].Ready? && s.events[0].conn in s.armed)
    && (s.main.Posting? <==> MAIN in s.pool.pushed)
  }

  ghost predicate Inv(s: Server) {
    NoRepeats(s) && Exclusive(s) && Covered(s) && MainOk(s)
  }

  /** Taking the first event off: its connection, if it has one, is reported no more. */
  lemma HeadGone(s: Server, s': Server)
    requires NoRepeats(s) && s.events != [] && s'.events == s.events[1..]
    ensures forall c :: InEvents(s', c) <==> InEvents(s, c) && s.events[0] != Ready(c)
    ensures forall i, j :: 0 <= i < j < |s'.events| && s'.events[i].Ready? ==> s'.events[i] != s'.events[j]
  {
    assert s.events == [s.events[0]] + s.events[1..];
  }

  lemma SameEvents(s: Server, s': Server)
    requires s'.events == s.events
    ensures forall c :: InEvents(s', c) <==> InEvents(s, c)
  {
  }

  lemma HeadIn(s: Server)
    requires s.events != [] && s.events[0].Ready?
    ensures InEvents(s, s.events[0].conn)
  {
  }

  /** Taking the first request out of the queue. */
  lemma FrontGone(s: Server)
    requires NoRepeats(s) && s.pool.queue != []
    ensures forall c :: c in s.pool.queue[1..] <==> c in s.pool.queue && c != s.pool.queue[0]
  {
    assert s.pool.queue == [s.pool.queue[0]] + s.pool.queue[1..];
  }

  /** What epoll reports was armed, is so no longer, and was held by nobody. */
  lemma Waited(s: Server, es: seq<Event>)
    requires Inv(s) && Enabled(s, EpollWait(es))
    ensures var s' := Apply(s, EpollWait(es));
            && (forall c :: InEvents(s', c) ==> c in s.armed && c !in s'.armed)
            && (forall c :: c in s'.armed ==> c in s.armed)
            && (forall c :: c in s.armed ==> c in s'.armed || InEvents(s', c))
  {
    hide NoRepeats, Exclusive, Covered, MainOk;
    var s' := Apply(s, EpollWait(es));
    forall c | InEvents(s', c) ensures c in s.armed && c !in s'.armed {
      var i :| 0 <= i < |es| && es[i] == Ready(c);
      assert es[i] in es && es[i].conn in Reported(es);
    }
  }

  predicate PopsEvent(l: Label) {
    l.Accept? || l.AcceptFails? || l.CloseOnEvent? || l.Ignore? || l.WriteReturns?
  }

  // The main thread takes its next events.

  lemma WaitStep(s: Server, l: Label)
    requires Inv(s) && Enabled(s, l) && l.EpollWait?
    ensures NoRepeats(Apply(s, l)) && Exclusive(Apply(s, l)) && Covered(Apply(s, l))
  {
    Waited(s, l.events);
    hide InEvents;
    var s' := Apply(s, l);
    assert s'.pool == s.pool && s'.open == s.open && s'.dropped == s.dropped;
    assert forall c :: !InEvents(s, c) by { NoEvents(s); }
    assert forall c :: AtWork(s, c) ==> AtWork(s', c);
  }

  lemma NoEvents(s: Server)
    requires s.events == []
    ensures forall c :: !InEvents(s, c)
  {
  }

  // The main thread is done with an event.

  lemma PopRepeats(s: Server, l: Label)
    requires Inv(s) && Enabled(s, l) && PopsEvent(l)
    ensures NoRepeats(Apply(s, l))
  {
    HeadGone(s, Apply(s, l));
    hide Exclusive, Covered, MainOk, InEvents;
  }

  lemma PopExclusive(s: Server, l: Label)
    requires Inv(s) && Enabled(s, l) && PopsEvent(l)
    ensures Exclusive(Apply(s, l))
  {
    HeadGone(s, Apply(s, l));
    if s.events[0].Ready? { HeadIn(s); }
    hide InEvents, NoRepeats, AtWork;
  }

  lemma PopCovered(s: Server, l: Label)
    requires Inv(s) && Enabled(s, l) && PopsEvent(l)
    ensures Covered(Apply(s, l))
  {
    HeadGone(s, Apply(s, l));
    if s.events[0].Ready? { HeadIn(s); }
    hide InEvents, NoRepeats;
    var s' := Apply(s, l);
    assert forall c :: AtWork(s, c) ==> AtWork(s', c);
  }

  // The main thread hands a connection over.

  lemma ReadRepeats(s: Server, l: Label)
    requires Inv(s) && Enabled(s, l) && l.ReadOk?
    ensures NoRepeats(Apply(s, l))
  {
    HeadGone(s, Apply(s, l));
    HeadIn(s);
    hide InEvents, Covered, MainOk;
  }

  lemma ReadExclusive(s: Server, l: Label)
    requires Inv(s) && Enabled(s, l) && l.ReadOk?
    ensures Exclusive(Apply(s, l))
  {
    HeadGone(s, Apply(s, l));
    HeadIn(s);
    hide InEvents, NoRepeats, Covered, AtWork;
  }

  lemma ReadCovered(s: Server, l: Label)
    requires Inv(s) && Enabled(s, l) && l.ReadOk?
    ensures Covered(Apply(s, l))
  {
    HeadGone(s, Apply(s, l));
    HeadIn(s);
    hide InEvents, NoRepeats, Exclusive, MainOk;
    var s' := Apply(s, l);
    assert forall c :: AtWork(s, c) ==> AtWork(s', c);
  }

  // The main thread posts, or re-arms within write().

  lemma KeepStep(s: Server, l: Label)
    requires Inv(s) && Enabled(s, l) && (l.PostWork? || l.WriteRearms?)
    ensures NoRepeats(Apply(s, l)) && Exclusive(Apply(s, l)) && Covered(Apply(s, l))
  {
    SameEvents(s, Apply(s, l));
    if l.WriteRearms? { HeadIn(s); }
    hide InEvents;
    var s' := Apply(s, l);
    assert forall c :: AtWork(s, c) ==> AtWork(s', c);
  }

  // Workers.

  predicate ByWorker(l: Label) {
    l.WorkerWait? || l.WorkerTake? || l.WorkerRearms? || l.WorkerCloses?
  }

  lemma WorkerRepeats(s: Server, l: Label)
    requires Inv(s) && Enabled(s, l) && ByWorker(l)
    ensures NoRepeats(Apply(s, l))
  {
    if s.pool.queue != [] { FrontGone(s); }
    hide InEvents, Covered, MainOk;
  }

  lemma WorkerExclusive(s: Server, l: Label)
    requires Inv(s) && Enabled(s, l) && ByWorker(l)
    ensures Exclusive(Apply(s, l))
  {
    SameEvents(s, Apply(s, l));
    if s.pool.queue != [] { FrontGone(s); }
    hide InEvents, Covered, MainOk;
  }

  /** A worker's step takes nothing out of another worker's hands. */
  lemma StillAtWork(s: Server, l: Label, c: Conn)
    requires Enabled(s, l) && ByWorker(l) && AtWork(s, c) && l.w in s.pool.worker && s.pool.worker[l.w] != P.Busy(c)
    ensures AtWork(Apply(s, l), c)
  {
    var s' := Apply(s, l);
    var v :| v in s.pool.worker && s.pool.worker[v] == P.Busy(c);
    assert s'.pool.worker[v] == P.Busy(c);
  }

  lemma TakeCovered(s: Server, l: Label)
    requires Inv(s) && Enabled(s, l) && l.WorkerTake?
    ensures Covered(Apply(s, l))
  {
    SameEvents(s, Apply(s, l));
    if s.pool.queue != [] { FrontGone(s); }
    var s' := Apply(s, l);
    forall c | AtWork(s, c) ensures AtWork(s', c) {
      StillAtWork(s, l, c);
    }
    if s.pool.queue != [] && s.pool.queue[0] != 0 {
      assert s'.pool.worker[l.w] == P.Busy(s.pool.queue[0]);
    }
    hide InEvents, NoRepeats, Exclusive, MainOk;
  }

  lemma LeaveCovered(s: Server, l: Label)
    requires Inv(s) && Enabled(s, l) && ByWorker(l) && !l.WorkerTake?
    ensures Covered(Apply(s, l))
  {
    SameEvents(s, Apply(s, l));
    hide InEvents, NoRepeats, MainOk;
    forall c | AtWork(s, c) && s.pool.worker[l.w] != P.Busy(c)
      ensures AtWork(Apply(s, l), c)
    {
      StillAtWork(s, l, c);
    }
  }

  lemma MainStep(s: Server, l: Label)
    requires Inv(s) && Enabled(s, l)
    ensures MainOk(Apply(s, l))
  {
    hide NoRepeats, Exclusive;
  }

  lemma InvStep(s: Server, l: Label)
    requires Inv(s) && Enabled(s, l)
    ensures Inv(Apply(s, l))
  {
    hide NoRepeats, Exclusive, Covered, MainOk, Apply, Enabled;
    MainStep(s, l);
    if l.EpollWait? {
      WaitStep(s, l);
    } else if PopsEvent(l) {
      PopRepeats(s, l);
      PopExclusive(s, l);
      PopCovered(s, l);
    } else if l.ReadOk? {
      ReadRepeats(s, l);
      ReadExclusive(s, l);
      ReadCovered(s, l);
    } else if ByWorker(l) {
      WorkerRepeats(s, l);
      WorkerExclusive(s, l);
      if l.WorkerTake? { TakeCovered(s, l); } else { LeaveCovered(s, l); }
    } else {
      KeepStep(s, l);
    }
  }

  lemma {:induction false} InvRun(s: Server, ls: seq<Label>)
    requires Inv(s) && CanRun(s, ls)
    ensures Inv(Run(s, ls))
    decreases |ls|
  {
    hide Inv, Apply, Enabled;
    if ls != [] {
      InvStep(s, ls[0]);
      InvRun(Apply(s, ls[0]), ls[1..]);
    }
  }

  // ---- the theorem, for a reader ----

  /** A thread that may be running read, process or write on the connection. */
  datatype Thread = MainThread | Worker(w: P.Tid)

  ghost predicate Touches(s: Server, t: Thread, c: Conn) {
    match t
    case MainThread => s.events != [] && s.events[0] == Ready(c)
    case Worker(w) => w in s.pool.worker && s.pool.worker[w] == P.Busy(c)
  }

  /** Single ownership in every reachable state: at most one thread touches a connection; a connection in the queue
      is there once, untouched and not armed; one in a worker's hands is neither queued, reported nor armed. */
  lemma SingleOwnership(s: Server, ls: seq<Label>, c: Conn)
    requires Initial(s) && CanRun(s, ls)
    ensures var e := Run(s, ls);
            && (forall t, u :: Touches(e, t, c) && Touches(e, u, c) ==> t == u)
            && (Queued(e, c) ==> c !in e.armed && !InEvents(e, c) && forall t :: !Touches(e, t, c))
            && (forall i, j :: 0 <= i < j < |e.pool.queue| ==> e.pool.queue[i] != e.pool.queue[j])
            && (forall w :: Touches(e, Worker(w), c) ==> c !in e.armed && !InEvents(e, c))
            && (InEvents(e, c) && c in e.armed ==> e.main.Rearmed? && Touches(e, MainThread, c))
  {
    InvRun(s, ls);
    var e := Run(s, ls);
    hide Initial, CanRun, Run, Covered, MainOk;
    forall t, u | Touches(e, t, c) && Touches(e, u, c)
      ensures t == u
    {
      assert t.Worker? ==> Holding(e, t.w);
      assert u.Worker? ==> Holding(e, u.w);
      assert t.MainThread? || u.MainThread? ==> InEvents(e, c);
    }
    forall w | Touches(e, Worker(w), c)
      ensures c !in e.armed && !InEvents(e, c) && !Queued(e, c)
    {
      assert Holding(e, w);
    }
  }

  /** No connection is forgotten: every open one is armed, reported, queued or at work, unless its event was ignored or
      its append refused, and a closed one is nowhere. */
  lemma NothingForgotten(s: Server, ls: seq<Label>, c: Conn)
    requires Initial(s) && CanRun(s, ls)
    ensures var e := Run(s, ls);
            c in e.open <==> c in e.armed || InEvents(e, c) || Queued(e, c) || AtWork(e, c) || c in e.dropped
  {
    InvRun(s, ls);
    var e := Run(s, ls);
    hide Initial, CanRun, Run, NoRepeats, Exclusive, MainOk;
    if AtWork(e, c) {
      var w :| w in e.pool.worker && e.pool.worker[w] == P.Busy(c);
      assert Holding(e, w);
    }
  }
}
