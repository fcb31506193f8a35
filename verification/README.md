# Verified models of an epoll server's core

This project models, in Dafny, five parts of the repository and proves what each of them is for:

1. **The epoll ready-list protocol** (`epoll_source.cpp`). Device callbacks, `ep_insert` and any number of tasks in
   `epoll_wait` share `rdllist`, the scanner's `txlist`, the overflow chain behind `ovflist` and the wait queue.
   `EpollLists` has one function per critical section of `ep->lock` or piece of the lockless scan loop, `EpollTasks` puts
   them into one labelled step system with a program counter per task, `EpollRuns` proves properties of whole runs,
   `EpollLaws` says in the terms of epoll_wait's callers what each step does, and `EventPoll` is the structure itself,
   rewritten in place, each method refining one step. What the environment decides
   (callback keys, `f_op->poll`, `__put_user`, signals, time-outs, scheduling) is an argument of the step.
2. **The resumable HTTP request parser** (`http_conn.cpp`). `HttpText` gives the C string functions, `HttpGrammar` a pure
   one-shot parser and the grammar it decides, `HttpConn` the class that tokenises its buffer in place and resumes, and
   `HttpServe` a whole connection, with `read` and `process_read` called in turn by a peer that stays open. Pointers are
   indices into the buffer.
   Input is free of NUL, as the C strings in the buffer need.
3. **The thread pool and the server around it** (`threadpool.h`, `http_web_server.cpp`). `ThreadPool` is a step system
   with a queue, a semaphore and any number of appenders and workers, and the object they share. `WebServer` adds the main
   loop and EPOLLONESHOT as the token of ownership; `EventLoop` is that loop in place.
4. **The round-robin dispatcher** (`processpool.cpp`), in `ProcessPool`.
5. **The timer containers** (`sort_timer_list.cpp`, `time_heap.h`, `time_wheel_timer.cpp`): a doubly linked sorted list,
   an array heap with lazy deletion and a hashed wheel of doubly linked buckets, each on the heap with its pointers.
   `TimerQueues` drives list and heap with the same calls, `WheelRuns` drives the wheel. `Seqs` has the facts about
   sequences they share with the epoll lists.

Where the code and its comments or its own copies differ, the code of the named file is modelled:

- A line that ends badly (a stray CR or LF) makes `process_read` answer NO_REQUEST for ever, as in `http_conn.cpp`;
  the older `http_parse.cpp` answers BAD_REQUEST (`HttpGrammar.BadEndingIsFinal`).
- `strncasecmp(text, "Content-Length", 15)` compares the terminator as well, so only a line consisting of the bare name
  matches, the length stays 0 and CHECK_STATE_CONTENT is never entered (`HttpConnModel.HttpConn.ParseHeaders`).
- When the buffer is full, `read` asks `recv` for 0 bytes. What that answers depends on the system, so it is a parameter:
  where it is 0, `read` takes it for a closed connection and refuses a request that fills the buffer to the last byte,
  and then the cut into reads matters (`HttpServe.FullBufferDependsOnTheCut`). `HttpServe.ClosedExactly` says for both
  answers when a connection is closed; in every other case the cut does not matter (`HttpServe.ServedExactly`).
- `threadpool::append` tests with a strict comparison, so the queue may hold one request more than `m_max_requests`.
- In `time_heap.h`, line 89 is read as `array[parent]` and `hold` in line 155 as `hole`; in `time_wheel_timer.cpp`,
  `ticks` is the local variable the source does not declare. A heap of capacity 0 cannot grow by doubling, so adding
  needs a positive capacity.
- `sort_timer_list::tick` leaves `tail` stale when it empties the list; `tail` is constrained only while `head` is set.

## Model

| member | source | states |
|---|---|---|
| EpollTasks.FromTheStart | epoll_source.cpp:512-873 | in every reachable state of every interleaving: the lists are duplicate-free and rdllist and txlist disjoint, mtx keeps scans and inserts apart, ovflist is active only during a scan, no edge is lost and no wakeup is lost |
| EpollTasks.ReachableStates | epoll_source.cpp:512-873 | the same along every run from any state that has these properties |
| EpollTasks.WakeupStep | epoll_source.cpp:646-707 | every step keeps: with no scan running and rdllist not empty, nobody sleeps or some awake task is bound to look at rdllist again or to scan it |
| EpollTasks.WakeupEnd | epoll_source.cpp:798-807 | the closing section of a scan re-establishes that, whatever happened during the scan |
| EpollTasks.WakeOneSuffices | epoll_source.cpp:559-567 | waking one task is enough, because every sleeper is queued |
| EpollTasks.MutexStep | epoll_source.cpp:738-759 | a scan runs exactly while one task in the scanning state holds mtx |
| EpollTasks.TasksStep | epoll_source.cpp:650-694 | a task is on the wait queue, once, exactly while it is in the sleep loop |
| EpollRuns.NoEdgeIsLost | epoll_source.cpp:512-577 | from a callback on a watched item whose key is empty or has a watched bit, until the scan next polls the item, in any run, the item is on rdllist, txlist or ovflist, or has just been unlinked to be polled |
| EpollRuns.NoReadyItemIsLost | epoll_source.cpp:436-450 | the same from the insertion of an item that f_op->poll finds ready for a watched event |
| EpollRuns.OwedPersists | epoll_source.cpp:833-871 | the same for any event not yet handed over, a copy fault included |
| EpollRuns.Rotation | epoll_source.cpp:755-796 | an item at place p of rdllist is polled before more than p / m scans have ended, whatever callbacks and inserts arrive, when every scan may report m events and user memory does not fault |
| EpollRuns.InLineEnd | epoll_source.cpp:833-834 | a scan that ends without polling an item has reported exactly maxevents, at least m, and the item is m places further on |
| EpollRuns.OneShot | epoll_source.cpp:844-870 | an EPOLLONESHOT item is delivered at most once per arming, and never while disarmed, in every run |
| EpollRuns.ScanAlgebra | epoll_source.cpp:751-796 | from its start to its end a scan leaves: the part of rdllist it is not done with, then the level-triggered items it delivered, in order, then the items that passing callbacks hit meanwhile and that are not linked yet, newest first |
| EpollRuns.ScanRun | epoll_source.cpp:550-556 | while a scan runs, ovflist holds exactly the items that passing callbacks have hit since, newest first, and rdllist exactly the level-triggered items delivered |
| EpollLists.ScanResult | epoll_source.cpp:766-796 | the closing section in terms of the scanner's own lists |
| EpollRuns.TriggerModes | epoll_source.cpp:844-870 | over a whole scan: a delivered item is on rdllist when the scan ends iff it is level-triggered or a passing callback hit it while the scan ran |
| EpollLists.CallbackInv | epoll_source.cpp:512-577 | a callback at any moment keeps the list invariant |
| EpollLists.ReportInv | epoll_source.cpp:846-870 | reporting, re-queueing and the copy fault keep it |
| EpollLists.EndInv | epoll_source.cpp:774-796 | draining the overflow list and splicing the rest back keep it |
| EpollLists.InsertAbortInv | epoll_source.cpp:456-469 | the error path of ep_insert keeps it |
| EpollLaws.HookIgnored | epoll_source.cpp:525-537 | a callback on a disabled item, or with a non-empty key without a watched bit, changes nothing |
| EpollLaws.HookLinks | epoll_source.cpp:550-567 | any other callback links the item: in front of the overflow list, quietly, while a scan runs; otherwise at the end of rdllist unless it is there, with a wakeup |
| EpollLaws.WakesTheFirst | epoll_source.cpp:566-567 | a wakeup makes runnable the first task of the queue that sleeps, wherever it stands, and nobody else |
| EpollLaws.PollReports | epoll_source.cpp:844-845 | the scan reports an event of the item in hand iff it is ready and watched |
| EpollLaws.ReadyIsDelivered | epoll_source.cpp:844-870 | with a watched event ready and no fault, poll and hand-over deliver the item, count it, re-queue it iff neither one-shot nor edge-triggered, and disarm it iff one-shot |
| EpollLaws.NotReadyIsSkipped | epoll_source.cpp:844-846 | with no watched event ready nothing is delivered or counted and the item leaves the scan |
| EpollLaws.FaultPutsBack | epoll_source.cpp:849-852 | when user memory faults the item goes back to the front of txlist, nothing is counted, re-queued or disarmed, and the scan is over |
| EpollLaws.MaskChanges | epoll_source.cpp:856-857 | only insertion, its error path, re-arming and the delivery of a one-shot item change a mask, and to what |
| EpollLaws.InsertLists | epoll_source.cpp:439-449 | an item with a watched event ready at insertion is put at the end of rdllist unless a callback has been faster; else rdllist stays |
| EpollLaws.AbandonedIsGone | epoll_source.cpp:456-469 | an abandoned item is on no list and not watched, and the others keep their membership |
| EpollLaws.LookDecides | epoll_source.cpp:650-697 | one look at the ready list: scan if something is ready, or if time is up while a scan runs; return if time is up or a signal is pending; otherwise sleep, queued |
| EpollLaws.TimeLeftKept | epoll_source.cpp:643-706 | a call keeps its maxevents, and its time until a sleep of its own expires |
| EpollLaws.SleepFromTheStart | epoll_source.cpp:671-688 | in every reachable state a sleeping task has time left: a call with timeout 0 never sleeps |
| EpollLaws.NoSleeperIsForgotten | epoll_source.cpp:646-707 | in every reachable state with something ready, no scan and a sleeper, some task is awake in ep_poll, about to look or to scan |
| EpollLaws.ListsAreSound | epoll_source.cpp:512-873 | in every reachable state: which lists can share an item, that none repeats one, who is queued, and who scans |
| EpollLaws.RetriesIffNothing | epoll_source.cpp:704-706 | after a whole scan ep_poll starts over iff the scan delivered nothing, nothing faulted and time is left; otherwise it returns |
| EpollLaws.MutexMoves | epoll_source.cpp:738-809 | who takes and drops mtx, and which steps need it |
| EpollLaws.ScanMoves | epoll_source.cpp:833-871 | a running scan always has a next step, whatever poll and user memory answer |
| EpollLaws.NewestFirst | epoll_source.cpp:551-554 | of two overflowed items the one first hit later stands in front |
| EpollLaws.FreshInOrder | epoll_source.cpp:774-785 | the drain appends items in the order of the overflow list |
| EventPollModel.OnChain | epoll_source.cpp:550-556 | an item is on the overflow chain iff its next pointer is not EP_UNACTIVE_PTR |
| EventPollModel.PushChain | epoll_source.cpp:551-554 | pushing an inactive item keeps the chain threaded without repetition |
| EventPollModel.PopChain | epoll_source.cpp:774-775 | stepping off the first item and resetting its pointer leaves the rest threaded |
| EventPollModel.EventPoll.WakeUpLocked | epoll_source.cpp:566-567 | wakes the first queued task that sleeps, and only that one |
| EventPollModel.EventPoll.PollCallback | epoll_source.cpp:512-577 | on the threaded next pointers, exactly the callback step, wakeup included |
| EventPollModel.EventPoll.InsertReadyItem | epoll_source.cpp:436-450 | exactly the insertion step of a ready item |
| EventPollModel.EventPoll.PollRound | epoll_source.cpp:646-697 | one locked round of ep_poll is exactly the step that goes scanning, leaves or sleeps |
| EventPollModel.EventPoll.InstallItem | epoll_source.cpp:386-415 | a new item is watched from here on, with an inactive next pointer, under mtx |
| EventPollModel.EventPoll.AbandonItem | epoll_source.cpp:456-469 | exactly the step that undoes an insertion, wherever callbacks have put the item |
| EventPollModel.EventPoll.StealReadyList | epoll_source.cpp:751-759 | the ready list becomes txlist and the overflow list becomes active and empty |
| EventPollModel.EventPoll.ReportEvents | epoll_source.cpp:846-870 | exactly the reporting step, with one-shot disarming, re-queueing and the fault path |
| EventPollModel.EventPoll.DrainOverflow | epoll_source.cpp:774-791 | the pointer loop appends exactly the overflowed items that were linked nowhere before it began, and resets every next pointer |
| EventPollModel.EventPoll.Reinject | epoll_source.cpp:774-796 | the lists end as the closing step says |
| EventPollModel.EventPoll.FinishScan | epoll_source.cpp:766-809 | the whole closing section is the end step; every next pointer and ovflist are inactive again |
| HttpGrammar.SplitIndependence | HTTP_server_learning/http_conn.cpp:236-280 | running the parser after every chunk until it answers gives the verdict and strings of one run on all the bytes, for every cut |
| HttpGrammar.VerdictStands | HTTP_server_learning/http_conn.cpp:236-280 | a verdict never changes with what arrives later |
| HttpGrammar.BadEndingIsFinal | HTTP_server_learning/http_conn.cpp:104-111 | after a stray CR or LF no further input ever brings a verdict |
| HttpGrammar.AcceptsGrammar | HTTP_server_learning/http_conn.cpp:236-280 | do_request is reached with r iff the input starts with a request line of the line grammar, non-empty header lines and an empty line, and they say r: path and version of that line, keep-alive iff some Connection header asks for it, the host of the last Host header or none |
| HttpGrammar.RejectsGrammar | HTTP_server_learning/http_conn.cpp:247-253 | BAD_REQUEST iff the first complete line is not a request line |
| HttpGrammar.RequestLineSound | HTTP_server_learning/http_conn.cpp:140-181 | whatever parse_request_line accepts is GET, blanks, target, blanks, HTTP/1.1, with the path it extracts |
| HttpGrammar.RequestLineComplete | HTTP_server_learning/http_conn.cpp:140-181 | every such line is accepted, with exactly that path and version |
| HttpGrammar.HeaderLinesMeaning | HTTP_server_learning/http_conn.cpp:184-223 | keep-alive iff some Connection header asks for it; the host is that of the last Host header |
| HttpGrammar.RoundTrip | HTTP_server_learning/http_conn.cpp:140-223 | a request rendered from path, host and keep-alive, with the fixed words in any letter case, parses back to exactly these |
| HttpGrammar.AnyCase | HTTP_server_learning/http_conn.cpp:150-216 | a concrete request in mixed case, with tabs, and what it is parsed to |
| HttpText.SameTextIs | HTTP_server_learning/http_conn.cpp:150-216 | strcasecmp answers equal iff the lengths agree and each pair of letters is equal or the upper and lower case of one of 'A'..'Z' |
| HttpConnModel.HttpConn.constructor | HTTP_server_learning/http_conn.cpp:70-86 | a new connection has understood nothing and received nothing |
| HttpConnModel.HttpConn.Receive | HTTP_server_learning/http_conn.cpp:124-134 | a chunk stored behind the rest leaves what was understood, and every parsed string, as it was |
| HttpConnModel.HttpConn.Read | HTTP_server_learning/http_conn.cpp:117-137 | however recv cuts the bytes, they arrive in order up to the end of the buffer; it succeeds iff there was room and recv ends with EAGAIN, in a full buffer when asked for 0 bytes |
| HttpConnModel.HttpConn.ParseLine | HTTP_server_learning/http_conn.cpp:89-114 | finds the next line of the input, terminates it in place and leaves no CR or LF below m_checked_idx, so the branch for an LF behind a CR is dead; its loop runs at most once per byte plus once per call |
| HttpConnModel.HttpConn.ParseRequestLine | HTTP_server_learning/http_conn.cpp:140-181 | writes only inside the line; m_url and m_version point to the strings the pure parser gives, and it fails exactly where that does |
| HttpConnModel.HttpConn.ParseTarget | HTTP_server_learning/http_conn.cpp:158-180 | the same for the part behind the verb |
| HttpConnModel.HttpConn.LocatePath | HTTP_server_learning/http_conn.cpp:168-175 | the path of an origin-form or absolute-form target, or failure |
| HttpConnModel.HttpConn.ParseHeaders | HTTP_server_learning/http_conn.cpp:184-223 | the fields end as the pure parser's effect of the line; the empty line ends the request; the content length stays 0 |
| HttpConnModel.HttpConn.AnalyseLine | HTTP_server_learning/http_conn.cpp:241-277 | one turn of the main machine takes over exactly one line, and any answer is the one-shot answer to all the input |
| HttpConnModel.HttpConn.ProcessRead | HTTP_server_learning/http_conn.cpp:236-280 | resumed anywhere, it answers as the pure parser does on everything received, with the fields pointing to those strings |
| HttpServe.Serve | HTTP_server_learning/http_web_server.cpp:126-134 | read and process_read in turn, whatever recv answers to a request for 0 bytes, answer or close as the pure account of the reads says, with the fields pointing to the strings of the answer |
| HttpServe.AnswerIsOneShot | HTTP_server_learning/http_conn.cpp:117-137 | an answer, when there is one, is that of one read of all the bytes, for every cut and every length |
| HttpServe.ServedExactly | HTTP_server_learning/http_conn.cpp:117-137 | the connection answers as one read of all the bytes would iff no read closes it; below READ_BUFFER_SIZE it always does |
| HttpServe.ClosedExactly | HTTP_server_learning/http_conn.cpp:118-133 | the connection is closed iff some read fills the buffer before any answer, and recv answers 0 to a request for 0 bytes, or it answers EAGAIN, the full buffer holds no answer and there is more to come |
| HttpServe.FullBufferDependsOnTheCut | HTTP_server_learning/http_conn.cpp:118-133 | READ_BUFFER_SIZE bytes that are answered in two reads and refused in one where recv answers 0 to a request for 0 bytes, and answered either way where it answers EAGAIN |
| ThreadPoolModel.PoolRun | HTTP_server_learning/threadpool.h:76-110 | in every run the accepted requests are the popped ones followed by the queue, in order, and the queue holds at most m_max_requests + 1 |
| ThreadPoolModel.PushAccepts | HTTP_server_learning/threadpool.h:79-83 | append takes the request iff at most m_max_requests are queued, at the end; else nothing changes |
| ThreadPoolModel.ServedInOrder | HTTP_server_learning/threadpool.h:98-115 | the k-th request popped is the k-th accepted |
| ThreadPoolModel.TokenStep | HTTP_server_learning/threadpool.h:76-115 | the exact change of semaphore + woken workers + unfinished appends - queue length in each step |
| ThreadPoolModel.TokenAccounting | HTTP_server_learning/threadpool.h:76-115 | over every run that balance grows by the early returns from wait and shrinks by the visits of the empty branch, and never goes below zero |
| ThreadPoolModel.EmptyBranches | HTTP_server_learning/threadpool.h:101-106 | the empty branch is taken at most once per early return; without early returns it is dead and the balance is zero |
| ThreadPoolModel.NoStrandedWork | HTTP_server_learning/threadpool.h:83-101 | a non-empty queue with nobody on the way to it has a token |
| ThreadPoolModel.ThreadPool.Append | HTTP_server_learning/threadpool.h:76-84 | exactly the push step; true iff at most m_max_requests were queued; then the request is the last of the queue and a post is owed |
| ThreadPoolModel.ThreadPool.TakeWork | HTTP_server_learning/threadpool.h:102-113 | exactly the take step; a worker that gets no request goes back to waiting |
| WebServer.SingleOwnership | HTTP_server_learning/http_web_server.cpp:93-145 | in every reachable state at most one thread touches a connection; a queued one is queued once, untouched and not armed; one at a worker is neither reported nor armed |
| WebServer.NothingForgotten | HTTP_server_learning/http_web_server.cpp:93-145 | a connection is open iff it is armed, reported, queued, at work, or was dropped by an ignored event or a refused append |
| WebServer.InvStep | HTTP_server_learning/http_web_server.cpp:100-144 | every step of main thread and workers keeps the ownership invariant |
| EventLoopModel.EventLoop.HandleListen | HTTP_server_learning/http_web_server.cpp:102-118 | an accepted connection is opened and armed; a failed accept or a full server changes neither |
| EventLoopModel.EventLoop.HandleReady | HTTP_server_learning/http_web_server.cpp:119-143 | on the fields, for each combination of event bits, read and write results: hang-up, failed read and failed write close; a successful read queues iff at most m_max_requests wait; a write re-arms; anything else drops |
| EventLoopModel.EventLoop.FinishWrite | HTTP_server_learning/http_web_server.cpp:136-141 | after a whole answer without keep-alive the connection is closed; otherwise open and armed stay as the modfd before left them |
| EventLoopModel.EventLoop.Process | HTTP_server_learning/http_conn.cpp:467-481 | the worker re-arms the connection or closes it, and lets go of it |
| ProcessPoolModel.ProcessPool.Dispatch | HTTP_server_learning/processpool.cpp:296-311 | the first live child met going round from the counter; none and stop iff no child lives |
| ProcessPoolModel.ProcessPool.DispatchAll | HTTP_server_learning/processpool.cpp:292-311 | while no child dies, every request is dispatched, by consecutive rounds |
| ProcessPoolModel.ProcessPool.Reap | HTTP_server_learning/processpool.cpp:326-342 | exactly the reaped children are marked dead; the parent stops iff none is left |
| ProcessPoolModel.PicksInTurn | HTTP_server_learning/processpool.cpp:296-309 | for every d, the d-th dispatch goes to the live child d places further round the live children |
| ProcessPoolModel.RoundRobin | HTTP_server_learning/processpool.cpp:296-309 | any L consecutive dispatches over L live children hit each exactly once |
| ProcessPoolModel.Balanced | HTTP_server_learning/processpool.cpp:296-309 | the numbers of connections given to two live children differ by at most one |
| SortTimerListModel.SortTimerList.AddTimer | HTTP_server_learning/sort_timer_list.cpp:41-56 | the linked list holds the timer in its place; links mutually inverse, tail last, order kept |
| SortTimerListModel.SortTimerList.Search | HTTP_server_learning/sort_timer_list.cpp:137-148 | the walk stops behind every timer that expires no later |
| SortTimerListModel.SortTimerList.AddAfter | HTTP_server_learning/sort_timer_list.cpp:136-157 | the private overload inserts in the same place from any node that expires no later |
| SortTimerListModel.SortTimerList.DelTimer | HTTP_server_learning/sort_timer_list.cpp:80-108 | exactly that node leaves, in each of the four cases |
| SortTimerListModel.SortTimerList.AdjustTimer | HTTP_server_learning/sort_timer_list.cpp:58-78 | a timer whose expiry was raised ends where a fresh insertion would put it |
| SortTimerListModel.SortTimerList.Tick | HTTP_server_learning/sort_timer_list.cpp:110-131 | exactly the timers that are due run, in list order, and the rest stays |
| SortTimerListModel.InsertedBehindEquals | HTTP_server_learning/sort_timer_list.cpp:136-157 | timers of equal expiry stay in insertion order |
| SortTimerListModel.InsertedSorted | HTTP_server_learning/sort_timer_list.cpp:136-157 | insertion keeps the order of expiry |
| TimeHeapModel.TimeHeap.FromArray | HTTP_server_learning/time_heap.h:44-64 | a heap of exactly the given timers, or failure iff the capacity is too small |
| TimeHeapModel.TimeHeap.PercolateDown | HTTP_server_learning/time_heap.h:146-162 | extends the heap order to the node it starts from, keeps the multiset, touches nothing before that node |
| TimeHeapModel.TimeHeap.AddTimer | HTTP_server_learning/time_heap.h:75-92 | heap order kept, exactly the timer added, capacity doubled iff full |
| TimeHeapModel.TimeHeap.PopTimer | HTTP_server_learning/time_heap.h:109-118 | heap order kept, exactly the root removed |
| TimeHeapModel.TimeHeap.Resize | HTTP_server_learning/time_heap.h:164-178 | the same timers in an array twice as long |
| TimeHeapModel.TimeHeap.Tick | HTTP_server_learning/time_heap.h:120-139 | removes exactly the due timers in order of expiry, runs the callbacks of those not deleted, leaves only later ones |
| TimeHeapModel.RootIsLeast | HTTP_server_learning/time_heap.h:102-107 | no timer expires before the root |
| TimerQueues.RunBoth | HTTP_server_learning/time_heap.h:94-139 | list and heap, driven by any lawful sequence of adds, deletions and ticks, run at each tick the same multiset of callbacks, both in order of expiry |
| TimerQueues.RunList | HTTP_server_learning/sort_timer_list.cpp:41-131 | the sorted list runs what the abstract set of pending timers says |
| TimerQueues.RunHeap | HTTP_server_learning/time_heap.h:75-139 | so does the heap |
| TimerQueues.QueuesAgree | HTTP_server_learning/time_heap.h:94-139 | two outcomes of the same abstract run agree tick by tick |
| TimeWheelModel.TimeWheel.AddTimer | HTTP_server_learning/time_wheel_timer.cpp:51-76 | adds a countdown of max(1, timeout / SI) ticks, at the head of one bucket; a negative timeout changes nothing |
| TimeWheelModel.TimeWheel.DelTimer | HTTP_server_learning/time_wheel_timer.cpp:77-96 | removes exactly that timer; buckets stay well-formed lists |
| TimeWheelModel.TimeWheel.Tick | HTTP_server_learning/time_wheel_timer.cpp:98-130 | fires exactly the timers whose countdown is 0, each once, and lowers every other countdown by 1 |
| TimeWheelModel.TimeWheel.Unlink | HTTP_server_learning/time_wheel_timer.cpp:82-94 | the doubly linked bucket loses exactly that node |
| WheelRuns.RunWheel | HTTP_server_learning/time_wheel_timer.cpp:51-130 | the wheel itself, driven by any lawful sequence of adds, deletions and ticks, runs what the countdowns say; a timer added with k ticks to go and left alone has run by any later call iff more than k ticks have passed, and only once; a deleted one runs no more |
| WheelRuns.FiresOnTime | HTTP_server_learning/time_wheel_timer.cpp:98-130 | that exact-once firing, on the (k + 1)-th later tick, for every outcome of the calls |
| WheelRuns.DeletedNeverRuns | HTTP_server_learning/time_wheel_timer.cpp:77-130 | a deleted timer never runs, by any outcome of the calls |
| TimeWheelModel.FiresExactlyOnce | HTTP_server_learning/time_wheel_timer.cpp:98-130 | the same for one countdown of the abstract machine |
| TimeWheelModel.Turn | HTTP_server_learning/time_wheel_timer.cpp:98-129 | slot distance + N * rotation is 0 exactly for a timer that fires, and otherwise one turn, with one rotation less in the current slot, lowers it by exactly 1 |

## Left out

- Kernel parts that are not shown: `wake_up_locked` is modelled as waking the first queued task that really sleeps;
  the red-black tree is a map of masks; `ep_modify` is a step that sets the mask, under `mtx` (`EventPoll.SetMask`).
- `poll_wait`, `ep_poll_safewake` (epoll descriptors polled by others), reference counts, user limits and
  `ep_remove`: bookkeeping without a further hard property; the set of items is fixed during a scan.
- Callback keys that contain EP_PRIVATE_BITS: a key holds poll(2) bits only.
- Unsynchronised reads of `epi->event.events` in the scan loop: one piece of the loop is one step.
- EpollRuns.Rotation: assumes no copy fault, because after a fault a scan ends with its quota unused.
- HTTP request bodies and `parse_content`: not reachable, since the content length stays 0.
- `do_request`, `process_write`, the byte counting of `write` and the HTTP answer: only their arming effects are kept.
- `m_method` (always GET), and NUL bytes inside the input.
- WebServer.SingleOwnership: closing is one step, so the race of a reused descriptor with the modfd that trails
  `close_conn` in `process` is not part of the model.
- WebServer.NothingForgotten: a connection whose append is refused, or whose event has none of the tested bits, stays
  open with no owner; the model records it as dropped.
- `epoll_wait` errors, signals, `m_stop`, the constructors' thread creation and all destructors.
- The SIGTERM and SIGINT branches and the pipes of `processpool.cpp`, and the children's side of the pool.
- Freeing of timer nodes: an unlinked node is simply no longer in the container. Timer callbacks do not touch
  the container they are called from, and clock values are arguments.
- TimeHeapModel.TimeHeap.AddTimer: requires a positive capacity, because doubling 0 makes no room.
- The order in which one wheel slot fires its timers: only the set is stated.
- Sockets, fork, mmap, stat, logging and command lines; `http_parse.cpp`, the Libevent excerpts and the sample programs.
