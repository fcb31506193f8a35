/** threadpool.h: a work queue behind a mutex, announced through a counting semaphore, as a step system over any number
    of appenders and workers. A step is one section under m_queuelocker or one semaphore operation. */
module ThreadPoolModel {
  import opened Wrappers

  type Tid = nat
  type Request = nat  // a pointer; 0 is NULL

  /** A worker in run(): before wait(), past it, or in process(). */
  datatype WorkerPc = Waits | Woken | Busy(request: Request)

  /** `pushed` holds the appenders between their push and their post; accepted and popped are history. */
  datatype Pool = Pool(queue: seq<Request>, sem: nat, maxRequests: nat, pushed: set<Tid>, worker: map<Tid, WorkerPc>,
                       accepted: seq<Request>, popped: seq<Request>)

  datatype Label =
    | Push(t: Tid, request: Request)
    | Post(t: Tid)
    | Wait(w: Tid, early: bool)   // sem_wait may also return early, with no token; run() ignores its result
    | Take(w: Tid)
    | Finish(w: Tid)

  predicate Refuses(s: Pool) {
    |s.queue| > s.maxRequests
  }

  predicate Enabled(s: Pool, l: Label) {
    match l
    case Push(t, _) => t !in s.pushed
    case Post(t) => t in s.pushed
    case Wait(w, early) => w in s.worker && s.worker[w].Waits? && (early || s.sem > 0)
    case Take(w) => w in s.worker && s.worker[w].Woken?
    case Finish(w) => w in s.worker && s.worker[w].Busy?
  }

  function Apply(s: Pool, l: Label): Pool
    requires Enabled(s, l)
  {
    match l
    case Push(t, r) =>
      if Refuses(s) then s
      else s.(queue := s.queue + [r], pushed := s.pushed + {t}, accepted := s.accepted + [r])
    case Post(t) => s.(sem := s.sem + 1, pushed := s.pushed - {t})
    case Wait(w, early) => s.(sem := if early then s.sem else s.sem - 1, worker := s.worker[w := Woken])
    case Take(w) =>
      if s.queue == [] then s.(worker := s.worker[w := Waits])
      else s.(queue := s.queue[1..], popped := s.popped + [s.queue[0]],
              worker := s.worker[w := if s.queue[0] == 0 then Waits else Busy(s.queue[0])])
    case Finish(w) => s.(worker := s.worker[w := Waits])
  }

  function WokenWorkers(s: Pool): set<Tid> {
    set w | w in s.worker && s.worker[w].Woken?
  }

  predicate Initial(s: Pool) {
    && s.queue == [] && s.sem == 0 && s.pushed == {} && s.accepted == [] && s.popped == []
    && forall w :: w in s.worker ==> s.worker[w].Waits?
  }

  predicate CanRun(s: Pool, ls: seq<Label>)
    decreases |ls|
  {
    ls == [] || (Enabled(s, ls[0]) && CanRun(Apply(s, ls[0]), ls[1..]))
  }

  function Run(s: Pool, ls: seq<Label>): Pool
    requires CanRun(s, ls)
    decreases |ls|
  {
    if ls == [] then s else Run(Apply(s, ls[0]), ls[1..])
  }

  /** Requests leave in the order they came, each once, and the strict comparison lets the queue grow to max + 1. */
  ghost predicate Fifo(s: Pool) {
    s.accepted == s.popped + s.queue && |s.queue| <= s.maxRequests + 1
  }

  /** What the semaphore, the woken workers and the unfinished appends account for. */
  function Tokens(s: Pool): nat {
    s.sem + |WokenWorkers(s)| + |s.pushed|
  }

  /** A queue that holds at most maxRequests accepts; a longer one leaves everything as it is. */
  lemma PushAccepts(s: Pool, t: Tid, request: Request)
    requires Enabled(s, Push(t, request))
    ensures var s' := Apply(s, Push(t, request));
            if |s.queue| <= s.maxRequests
            then s'.queue == s.queue + [request] && s'.accepted == s.accepted + [request] && s'.pushed == s.pushed + {t}
            else s' == s
  {
  }

  lemma WokenChange(s: Pool, w: Tid, p: WorkerPc)
    requires w in s.worker
    ensures var n := |WokenWorkers(s.(worker := s.worker[w := p]))| - |WokenWorkers(s)|;
            n == (if p.Woken? then 1 else 0) - (if s.worker[w].Woken? then 1 else 0)
  {
    var before, after := WokenWorkers(s), WokenWorkers(s.(worker := s.worker[w := p]));
    if p.Woken? && !s.worker[w].Woken? {
      assert after == before + {w};
    } else if !p.Woken? && s.worker[w].Woken? {
      assert before == after + {w};
    } else {
      assert after == before;
    }
  }

  predicate EmptyTake(s: Pool, l: Label) {
    l.Take? && s.queue == []
  }

  /** The balance of one step: an early return from wait adds a token, the empty branch of run() burns one. */
  lemma TokenStep(s: Pool, l: Label)
    requires Enabled(s, l)
    ensures var s' := Apply(s, l);
            Tokens(s') - |s'.queue| ==
            Tokens(s) - |s.queue| + (if l.Wait? && l.early then 1 else 0) - (if EmptyTake(s, l) then 1 else 0)
  {
    match l
    case Push(t, _) => assert WokenWorkers(Apply(s, l)) == WokenWorkers(s);
    case Post(t) => assert WokenWorkers(Apply(s, l)) == WokenWorkers(s);
    case Wait(w, _) => WokenChange(s, w, Woken);
    case Take(w) =>
      WokenChange(s, w, Apply(s, l).worker[w]);
      assert WokenWorkers(Apply(s, l)) == WokenWorkers(s.(worker := Apply(s, l).worker));
    case Finish(w) => WokenChange(s, w, Waits);
  }

  function EarlyWaits(ls: seq<Label>): nat {
    if ls == [] then 0 else (if ls[0].Wait? && ls[0].early then 1 else 0) + EarlyWaits(ls[1..])
  }

  /** How often run() finds the queue empty along a run. */
  function EmptyTakes(s: Pool, ls: seq<Label>): nat
    requires CanRun(s, ls)
    decreases |ls|
  {
    if ls == [] then 0 else (if EmptyTake(s, ls[0]) then 1 else 0) + EmptyTakes(Apply(s, ls[0]), ls[1..])
  }

  lemma FifoStep(s: Pool, l: Label)
    requires Enabled(s, l) && Fifo(s)
    ensures Fifo(Apply(s, l)) && s.accepted <= Apply(s, l).accepted && s.popped <= Apply(s, l).popped
  {
  }

  /** FIFO, exactly once, bounded. */
  lemma {:induction false} PoolRun(s: Pool, ls: seq<Label>)
    requires CanRun(s, ls) && Fifo(s)
    ensures Fifo(Run(s, ls)) && s.accepted <= Run(s, ls).accepted && s.popped <= Run(s, ls).popped
    decreases |ls|
  {
    if ls != [] {
      FifoStep(s, ls[0]);
      PoolRun(Apply(s, ls[0]), ls[1..]);
    }
  }

  /** Token accounting: semaphore, woken workers and unfinished appends exceed the queue by exactly the early returns
      not yet burnt by an empty branch. */
  lemma {:induction false} TokenAccounting(s: Pool, ls: seq<Label>)
    requires CanRun(s, ls) && |s.queue| <= Tokens(s)
    ensures var s' := Run(s, ls);
            Tokens(s') - |s'.queue| == Tokens(s) - |s.queue| + EarlyWaits(ls) - EmptyTakes(s, ls)
    ensures |Run(s, ls).queue| <= Tokens(Run(s, ls))
    decreases |ls|
  {
    if ls != [] {
      TokenStep(s, ls[0]);
      if EmptyTake(s, ls[0]) { assert Apply(s, ls[0]).queue == []; }
      TokenAccounting(Apply(s, ls[0]), ls[1..]);
    }
  }

  lemma InitialBalance(s: Pool)
    requires Initial(s)
    ensures Fifo(s) && |s.queue| == Tokens(s)
  {
    assert WokenWorkers(s) == {};
  }

  /** Every visit of the "queue is empty" branch is paid for by an early return from wait; without any, the branch is
      dead and the queue holds exactly what is accounted for. */
  lemma EmptyBranches(s: Pool, ls: seq<Label>)
    requires Initial(s) && CanRun(s, ls)
    ensures EmptyTakes(s, ls) <= EarlyWaits(ls)
    ensures EarlyWaits(ls) == 0 ==>
              var s' := Run(s, ls); |s'.queue| == s'.sem + |WokenWorkers(s')| + |s'.pushed|
  {
    InitialBalance(s);
    TokenAccounting(s, ls);
  }

  /** Work in the queue with nobody on the way to it or to posting for it has a token, early returns or not. */
  lemma NoStrandedWork(s: Pool, ls: seq<Label>)
    requires Initial(s) && CanRun(s, ls)
    ensures var s' := Run(s, ls); s'.queue != [] && WokenWorkers(s') == {} && s'.pushed == {} ==> s'.sem > 0
  {
    InitialBalance(s);
    TokenAccounting(s, ls);
  }

  /** The k-th request handed to a worker is the k-th one accepted. */
  lemma ServedInOrder(s: Pool, ls: seq<Label>, k: nat)
    requires Initial(s) && CanRun(s, ls) && k < |Run(s, ls).popped|
    ensures k < |Run(s, ls).accepted| && Run(s, ls).popped[k] == Run(s, ls).accepted[k]
  {
    InitialBalance(s);
    PoolRun(s, ls);
    assert Run(s, ls).accepted[k] == (Run(s, ls).popped + Run(s, ls).queue)[k];
  }

  /** The object the threads share. Each method is one atomic section and refines one step. */
  class ThreadPool {
    var workqueue: seq<Request>
    var queuestat: nat
    const maxRequests: nat
    ghost var pushed: set<Tid>
    ghost var worker: map<Tid, WorkerPc>
    ghost var accepted: seq<Request>
    ghost var popped: seq<Request>

    ghost function View(): Pool
      reads this
    {
      Pool(workqueue, queuestat, maxRequests, pushed, worker, accepted, popped)
    }

    constructor (maxRequests: nat, workers: set<Tid>)
      ensures Initial(View()) && worker.Keys == workers && this.maxRequests == maxRequests
    {
      this.maxRequests := maxRequests;
      workqueue, queuestat, pushed, accepted, popped := [], 0, {}, [], [];
      worker := map w | w in workers :: Waits;
    }

    /** append(), up to unlock; when it answers true the caller goes on to Signal. */
    method Append(ghost t: Tid, request: Request) returns (ok: bool)
      requires Enabled(View(), Push(t, request))
      modifies this
      ensures View() == Apply(old(View()), Push(t, request))
      ensures ok <==> t in pushed
      ensures ok <==> |old(workqueue)| <= maxRequests
      ensures workqueue == if ok then old(workqueue) + [request] else old(workqueue)
    {
      if |workqueue| > maxRequests {
        return false;
      }
      workqueue := workqueue + [request];
      pushed, accepted := pushed + {t}, accepted + [request];
      return true;
    }

    method Signal(ghost t: Tid)
      requires Enabled(View(), Post(t))
      modifies this
      ensures View() == Apply(old(View()), Post(t))
    {
      queuestat := queuestat + 1;
      pushed := pushed - {t};
    }

    /** The locked part of run(): None stands for `continue`. */
    method TakeWork(ghost w: Tid) returns (request: Option<Request>)
      requires Enabled(View(), Take(w))
      modifies this
      ensures View() == Apply(old(View()), Take(w))
      ensures worker[w] == match request case Some(r) => Busy(r) case None => Waits
      ensures old(workqueue) == [] ==> request.None? && workqueue == []
      ensures old(workqueue) != [] ==>
                && workqueue == old(workqueue)[1..]
                && request == if old(workqueue)[0] == 0 then None else Some(old(workqueue)[0])
    {
      if workqueue == [] {
        worker := worker[w := Waits];
        return None;
      }
      var front := workqueue[0];
      workqueue := workqueue[1..];
      popped := popped + [front];
      if front == 0 {
        worker := worker[w := Waits];
        return None;
      }
      worker := worker[w := Busy(front)];
      return Some(front);
    }

    /** request->process() has returned. */
    method Done(ghost w: Tid)
      requires Enabled(View(), Finish(w))
      modifies this`worker
      ensures View() == Apply(old(View()), Finish(w))
    {
      worker := worker[w := Waits];
    }

    /** m_queuestat.wait(), once it returns. */
    method Wake(ghost w: Tid, early: bool)
      requires Enabled(View(), Wait(w, early))
      modifies this`worker, this`queuestat
      ensures View() == Apply(old(View()), Wait(w, early))
    {
      if !early {
        queuestat := queuestat - 1;
      }
      worker := worker[w := Woken];
    }
  }
}
