/** The event loop of http_web_server.cpp and the arming calls of http_conn.cpp, in place. Each method is what one
    thread does between two points where others may run, and refines one step of WebServer. */
module EventLoopModel {
  import opened WebServer
  import P = ThreadPoolModel

  /** The tested bits of events[i].events; `hangup` stands for EPOLLRDHUP | EPOLLHUP | EPOLLERR. */
  datatype Bits = Bits(hangup: bool, readable: bool, writable: bool)

  /** How the writev loop of write() ends. */
  datatype Writing = NothingToSend | WouldBlock | Broken | Sent(linger: bool)

  /** What write() answers; every answer but Broken comes after a modfd. */
  predicate Keeps(w: Writing) {
    w.NothingToSend? || w.WouldBlock? || (w.Sent? && w.linger)
  }

  /** The step an event of a connection leads to: hang-up comes first, then input, then output. */
  function StepFor(bits: Bits, readOk: bool, writing: Writing): Label {
    if bits.hangup then CloseOnEvent
    else if bits.readable then if readOk then ReadOk else CloseOnEvent
    else if bits.writable then if writing.Broken? then CloseOnEvent else WriteRearms
    else Ignore
  }

  class EventLoop {
    const pool: P.ThreadPool
    var open: set<Conn>        // users whose m_sockfd is not -1
    var armed: set<Conn>       // descriptors epoll may still report
    var events: seq<Event>     // events[i..number]
    var main: MainPc
    ghost var dropped: set<Conn>

    ghost function View(): Server
      reads this, pool
    {
      Server(pool.View(), open, armed, events, main, dropped)
    }

    constructor (maxRequests: nat, workers: set<P.Tid>)
      ensures Initial(View()) && fresh(pool) && pool.worker.Keys == workers && pool.maxRequests == maxRequests
    {
      pool := new P.ThreadPool(maxRequests, workers);
      open, armed, events, main, dropped := {}, {}, [], Idle, {};
    }

    /** epoll_wait: the reported connections are one-shot, so they are disarmed. */
    method Wait(reported: seq<Event>)
      requires Enabled(View(), EpollWait(reported))
      modifies this
      ensures View() == Apply(old(View()), EpollWait(reported))
      ensures events == reported && forall c :: c in armed <==> c in old(armed) && Ready(c) !in reported
    {
      events := reported;
      armed := armed - (set e | e in reported && e.Ready? :: e.conn);
    }

    /** close_conn(): removefd drops the registration with the descriptor. */
    method CloseConn(conn: Conn)
      modifies this`open, this`armed
      ensures open == old(open) - {conn} && armed == old(armed) - {conn}
    {
      open := open - {conn};
      armed := armed - {conn};
    }

    method ModFd(conn: Conn)
      modifies this`armed
      ensures armed == old(armed) + {conn}
    {
      armed := armed + {conn};
    }

    /** Lines 102-118: accept's answer, and whether the server is full. */
    method HandleListen(connfd: int, full: bool)
      requires HeadListen(View()) && connfd != 0 && (connfd > 0 ==> connfd !in open)
      modifies this
      ensures View() == Apply(old(View()), if connfd < 0 || full then AcceptFails else Accept(connfd))
      ensures events == old(events)[1..]
      ensures connfd > 0 && !full ==> open == old(open) + {connfd} && armed == old(armed) + {connfd}
      ensures connfd < 0 || full ==> open == old(open) && armed == old(armed)
    {
      events := events[1..];
      if connfd < 0 {
        return;
      }
      if full {
        return;
      }
      open := open + {connfd};
      ModFd(connfd);  // addfd, one-shot
    }

    /** The main thread has closed conn, the connection of the first event, and goes on to the next event. */
    twostate predicate Closed(conn: Conn)
      reads this
    {
      && conn !in open && open == old(open) - {conn} && armed == old(armed) - {conn} && dropped == old(dropped)
      && old(events) != [] && events == old(events)[1..] && main.Idle?
    }

    /** Lines 119-143. An append stops between push and post, a write() behind its modfd. */
    method HandleReady(bits: Bits, readOk: bool, writing: Writing)
      requires Inv(View()) && Enabled(View(), StepFor(bits, readOk, writing))
      modifies this, pool
      ensures View() == Apply(old(View()), StepFor(bits, readOk, writing))
      // hang-up
      ensures bits.hangup ==> Closed(old(events)[0].conn) && pool.workqueue == old(pool.workqueue)
      // input: the work queue refuses only when it holds more than maxRequests
      ensures !bits.hangup && bits.readable && readOk ==>
                var conn := old(events)[0].conn;
                && open == old(open) && armed == old(armed)
                && if |old(pool.workqueue)| <= pool.maxRequests
                   then pool.workqueue == old(pool.workqueue) + [conn] && main.Posting? && dropped == old(dropped)
                   else pool.workqueue == old(pool.workqueue) && main.Idle? && dropped == old(dropped) + {conn}
      ensures !bits.hangup && bits.readable && !readOk ==>
                Closed(old(events)[0].conn) && pool.workqueue == old(pool.workqueue)
      // output
      ensures !bits.hangup && !bits.readable && bits.writable ==>
                var conn := old(events)[0].conn;
                && pool.workqueue == old(pool.workqueue)
                && if writing.Broken? then Closed(conn)
                   else open == old(open) && armed == old(armed) + {conn} && events == old(events) && main.Rearmed?
      // nothing that is tested
      ensures !bits.hangup && !bits.readable && !bits.writable ==>
                && open == old(open) && armed == old(armed) && pool.workqueue == old(pool.workqueue)
                && dropped == old(dropped) + {old(events)[0].conn} && events == old(events)[1..] && main.Idle?
    {
      hide Inv;
      var conn := events[0].conn;
      if bits.hangup {
        Unarmed();
        CloseConn(conn);
        events := events[1..];
      } else if bits.readable {
        if readOk {
          var accepted := pool.Append(MAIN, conn);
          events := events[1..];
          main := if accepted then Posting else Idle;
          dropped := if accepted then dropped else dropped + {conn};
        } else {
          Unarmed();
          CloseConn(conn);
          events := events[1..];
        }
      } else if bits.writable {
        if writing.Broken? {
          Unarmed();
          CloseConn(conn);
          events := events[1..];
        } else {
          ModFd(conn);
          main := Rearmed;
        }
      } else {
        events := events[1..];
        dropped := dropped + {conn};
      }
    }

    /** The reported connection is not armed, so there is no registration to lose. */
    lemma Unarmed()
      requires Inv(View()) && HeadReady(View())
      ensures armed - {events[0].conn} == armed
    {
      assert InEvents(View(), events[0].conn);
    }

    /** m_queuestat.post() */
    method FinishAppend()
      requires Enabled(View(), PostWork)
      modifies this`main, pool
      ensures View() == Apply(old(View()), PostWork)
    {
      pool.Signal(MAIN);
      main := Idle;
    }

    /** The end of write(), and lines 137-139. */
    method FinishWrite(writing: Writing)
      requires Enabled(View(), WriteReturns(Keeps(writing))) && !writing.Broken?
      modifies this
      ensures View() == Apply(old(View()), WriteReturns(Keeps(writing)))
      ensures writing == Sent(false) ==> Closed(old(events)[0].conn)
      ensures writing != Sent(false) ==>
                open == old(open) && armed == old(armed) && events == old(events)[1..] && main.Idle?
    {
      var conn := events[0].conn;
      if writing.Sent? && !writing.linger {
        CloseConn(conn);
      }
      main := Idle;
      events := events[1..];
    }

    /** process() on worker w, from the answer of process_read on: the worker lets go of the connection. */
    method Process(w: P.Tid, conn: Conn, noRequest: bool, writeOk: bool)
      requires Inv(View()) && w in pool.worker && pool.worker[w] == P.Busy(conn)
      modifies this`open, this`armed, pool
      ensures View() == Apply(old(View()), if noRequest || writeOk then WorkerRearms(w) else WorkerCloses(w))
      ensures pool.workqueue == old(pool.workqueue) && w in pool.worker && pool.worker[w].Waits?
      ensures noRequest || writeOk ==> open == old(open) && armed == old(armed) + {conn}
      ensures !noRequest && !writeOk ==> conn !in open && open == old(open) - {conn} && armed == old(armed) - {conn}
    {
      if noRequest {
        ModFd(conn);
      } else if !writeOk {
        assert Holding(View(), w);
        CloseConn(conn);  // m_sockfd is -1 from here on: the trailing modfd has nothing to arm
      } else {
        ModFd(conn);
      }
      pool.Done(w);
    }
  }
}
