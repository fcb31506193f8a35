/** processpool.cpp, run_parent: round-robin dispatch over children that can die, and the bookkeeping of SIGCHLD. */
module ProcessPoolModel {
  /** m_pid of every child; -1 marks a dead one. */
  predicate Live(pids: seq<int>, i: nat) {
    i < |pids| && pids[i] != -1
  }

  ghost predicate NoneLive(pids: seq<int>) {
    forall i :: 0 <= i < |pids| ==> pids[i] == -1
  }

  /** The indices of the live children among the first n, ascending. */
  function LiveUpTo(pids: seq<int>, n: nat): seq<nat>
    requires n <= |pids|
  {
    if n == 0 then [] else LiveUpTo(pids, n - 1) + if pids[n - 1] != -1 then [n - 1] else []
  }

  function LiveList(pids: seq<int>): seq<nat> {
    LiveUpTo(pids, |pids|)
  }

  /** How many live children have an index below c. */
  function Rank(pids: seq<int>, c: nat): nat
    requires c <= |pids|
  {
    |LiveUpTo(pids, c)|
  }

  /** i is the first live child met going round from c. */
  ghost predicate FirstFrom(pids: seq<int>, c: nat, i: nat) {
    Live(pids, i) &&
    if c <= i then forall k :: c <= k < i ==> !Live(pids, k)
    else (forall k :: c <= k < |pids| ==> !Live(pids, k)) && (forall k :: 0 <= k < i ==> !Live(pids, k))
  }

  /** The next index round a ring of n. */
  function Next(i: nat, n: nat): (j: nat)
    requires i < n
    ensures j == if i + 1 == n then 0 else i + 1
  {
    (i + 1) % n
  }

  class ProcessPool {
    const pid: array<int>
    var counter: nat     // sub_process_counter
    var stop: bool

    ghost predicate Valid()
      reads this
    {
      counter < pid.Length
    }

    /** Lines 296-310: one connection request. The loop walks once round the ring. */
    method Dispatch() returns (chosen: int)
      requires Valid()
      modifies this
      ensures Valid()
      ensures NoneLive(pid[..]) <==> chosen == -1
      ensures chosen == -1 ==> stop && counter == old(counter)
      ensures chosen != -1 ==> chosen >= 0 && FirstFrom(pid[..], old(counter), chosen) && stop == old(stop)
                               && chosen < pid.Length && counter == Next(chosen, pid.Length)
    {
      hide Next;
      var n := pid.Length;
      var i := counter;
      var walked := 0;  // steps taken round the ring
      while true
        invariant 0 <= walked < n && i == (if counter + walked < n then counter + walked else counter + walked - n)
        invariant forall k :: counter <= k < n && k < counter + walked ==> pid[k] == -1
        invariant forall k :: 0 <= k < n && k < counter + walked - n ==> pid[k] == -1
        decreases n - walked
      {
        if pid[i] != -1 {
          break;
        }
        i := Next(i, n);
        walked := walked + 1;
        if i == counter {
          break;
        }
      }
      if pid[i] == -1 {
        stop := true;
        return -1;
      }
      counter := Next(i, n);
      chosen := i;
    }

    /** The event loop, as far as connection requests go, while no child dies. */
    method DispatchAll(requests: nat) returns (picks: seq<nat>)
      requires Valid() && !NoneLive(pid[..])
      modifies this
      ensures Valid() && |picks| == requests && Round(pid[..], old(counter), picks)
    {
      hide FirstFrom, Leads;
      picks := [];
      ghost var pids, c := pid[..], counter;
      LeadsNowhere(pids, c);
      while |picks| < requests
        invariant Valid() && |picks| <= requests && Leads(pids, c, picks, counter)
      {
        ghost var at := counter;
        var i := Dispatch();
        LeadsOn(pids, c, picks, at, i);
        picks := picks + [i];
      }
      LeadsTo(pids, c, picks, counter);
    }

    /** Lines 326-342, one SIGCHLD: `dead` are the ids waitpid answers with until it has no more. The parent stops when
        no child is left. */
    method Reap(dead: seq<int>)
      modifies this, pid
      ensures counter == old(counter)
      ensures forall k :: 0 <= k < pid.Length ==> pid[k] == if old(pid[k]) in dead then -1 else old(pid[k])
      ensures stop <==> NoneLive(pid[..])
    {
      for j := 0 to |dead|
        invariant counter == old(counter)
        invariant forall k :: 0 <= k < pid.Length ==> pid[k] == if old(pid[k]) in dead[..j] then -1 else old(pid[k])
      {
        assert forall x :: x in dead[..j + 1] <==> x in dead[..j] || x == dead[j];
        Bury(dead[j]);
      }
      assert dead[..|dead|] == dead;
      stop := true;
      var i := 0;
      while i < pid.Length
        invariant 0 <= i <= pid.Length && stop && forall k :: 0 <= k < i ==> pid[k] == -1
      {
        if pid[i] != -1 {
          stop := false;
          break;
        }
        i := i + 1;
      }
    }

    /** Lines 327-333. */
    method Bury(dead: int)
      modifies pid
      ensures forall k :: 0 <= k < pid.Length ==> pid[k] == if old(pid[k]) == dead then -1 else old(pid[k])
    {
      var i := 0;
      while i < pid.Length
        invariant 0 <= i <= pid.Length
        invariant forall k :: 0 <= k < i ==> pid[k] == if old(pid[k]) == dead then -1 else old(pid[k])
        invariant forall k :: i <= k < pid.Length ==> pid[k] == old(pid[k])
      {
        if pid[i] == dead {
          pid[i] := -1;
        }
        i := i + 1;
      }
    }
  }

  // ---- fairness ----

  lemma {:induction false} LiveMembers(pids: seq<int>, n: nat)
    requires n <= |pids|
    ensures forall i: nat :: i in LiveUpTo(pids, n) <==> i < n && Live(pids, i)
  {
    if n > 0 { LiveMembers(pids, n - 1); }
  }

  lemma {:induction false} LiveAscending(pids: seq<int>, n: nat)
    requires n <= |pids|
    ensures forall j, k :: 0 <= j < k < |LiveUpTo(pids, n)| ==> LiveUpTo(pids, n)[j] < LiveUpTo(pids, n)[k]
  {
    if n > 0 {
      LiveAscending(pids, n - 1);
      LiveMembers(pids, n - 1);
      var init := LiveUpTo(pids, n - 1);
      assert forall j :: 0 <= j < |init| ==> init[j] in init;
    }
  }

  lemma {:induction false} LiveUpToPrefix(pids: seq<int>, m: nat, n: nat)
    requires m <= n <= |pids|
    ensures LiveUpTo(pids, m) <= LiveUpTo(pids, n)
    decreases n - m
  {
    if m < n { LiveUpToPrefix(pids, m, n - 1); }
  }

  lemma {:induction false} LiveUpToSame(pids: seq<int>, m: nat, n: nat)
    requires m <= n <= |pids| && forall k :: m <= k < n ==> !Live(pids, k)
    ensures LiveUpTo(pids, m) == LiveUpTo(pids, n)
    decreases n - m
  {
    if m < n {
      assert !Live(pids, n - 1);
      LiveUpToSame(pids, m, n - 1);
    }
  }

  /** A place on a ring of L places. */
  function Wrap(p: nat, L: nat): nat {
    if p < L then p else 0
  }

  /** The place reached after x steps round a ring of L places. */
  function Around(x: nat, L: nat): (p: nat)
    requires L > 0
    ensures p < L
  {
    if x < L then x else Around(x - L, L)
  }

  /** The child met first from c is the one whose place in the list of live children is the rank of c. */
  lemma FirstFromRank(pids: seq<int>, c: nat, i: nat)
    requires c <= |pids| && FirstFrom(pids, c, i)
    ensures var l := LiveList(pids); var p := Wrap(Rank(pids, c), |l|);
            p < |l| && l[p] == i && Rank(pids, i + 1) == p + 1
  {
    hide Live;
    assert pids[i] != -1 by { LiveIs(pids, i); }
    var l := LiveList(pids);
    LiveUpToPrefix(pids, i, i + 1);
    LiveUpToPrefix(pids, i + 1, |pids|);
    assert LiveUpTo(pids, i + 1) == LiveUpTo(pids, i) + [i];
    assert l[Rank(pids, i)] == i;
    if c <= i {
      LiveUpToSame(pids, c, i);
    } else {
      LiveUpToSame(pids, c, |pids|);
      LiveUpToSame(pids, 0, i);
    }
  }

  lemma LiveIs(pids: seq<int>, i: nat)
    ensures Live(pids, i) ==> i < |pids| && pids[i] != -1
  {
  }

  /** A run of dispatches while no child dies: each starts where the counter stands and moves it behind its choice. */
  ghost predicate Round(pids: seq<int>, c: nat, picks: seq<nat>)
    decreases |picks|
  {
    c < |pids| &&
    (picks == [] ||
     (FirstFrom(pids, c, picks[0]) && picks[0] < |pids| && Round(pids, Next(picks[0], |pids|), picks[1..])))
  }

  /** After `picks` from c the counter stands at c'. */
  ghost predicate Leads(pids: seq<int>, c: nat, picks: seq<nat>, c': nat) {
    forall more :: Round(pids, c', more) ==> Round(pids, c, picks + more)
  }

  lemma LeadsNowhere(pids: seq<int>, c: nat)
    ensures Leads(pids, c, [], c)
  {
    forall more | Round(pids, c, more) ensures Round(pids, c, [] + more) {
      assert [] + more == more;
    }
  }

  lemma LeadsOn(pids: seq<int>, c: nat, picks: seq<nat>, at: nat, i: nat)
    requires Leads(pids, c, picks, at) && at < |pids| && i < |pids| && FirstFrom(pids, at, i)
    ensures Leads(pids, c, picks + [i], Next(i, |pids|))
  {
    forall more | Round(pids, Next(i, |pids|), more)
      ensures Round(pids, c, picks + [i] + more)
    {
      assert ([i] + more)[1..] == more;
      assert Round(pids, at, [i] + more);
      assert picks + ([i] + more) == picks + [i] + more;
    }
  }

  lemma LeadsTo(pids: seq<int>, c: nat, picks: seq<nat>, c': nat)
    requires Leads(pids, c, picks, c') && c' < |pids|
    ensures Round(pids, c, picks)
  {
    assert Round(pids, c', []);
    assert picks + [] == picks;
  }

  lemma NextPlace(pids: seq<int>, c: nat, i: nat)
    requires c < |pids| && i < |pids| && FirstFrom(pids, c, i)
    ensures var l := LiveList(pids); var c' := Next(i, |pids|); var p := Wrap(Rank(pids, c), |l|);
            p < |l| && l[p] == i && c' < |pids| && Wrap(Rank(pids, c'), |l|) == Around(p + 1, |l|)
  {
    FirstFromRank(pids, c, i);
    LiveUpToPrefix(pids, i + 1, |pids|);
  }

  lemma OneFurther(p: nat, d: nat, L: nat)
    requires p < L && d > 0
    ensures Around(Around(p + 1, L) + (d - 1), L) == Around(p + d, L)
  {
  }

  /** The d-th dispatch goes to the live child d places further round the list of live children. */
  lemma {:induction false} PicksInTurn(pids: seq<int>, c: nat, picks: seq<nat>, d: nat)
    requires Round(pids, c, picks) && d < |picks|
    ensures var l := LiveList(pids); l != [] && picks[d] == l[Around(Wrap(Rank(pids, c), |l|) + d, |l|)]
    decreases |picks|
  {
    hide LiveList, Rank, FirstFrom, Wrap;
    var l := LiveList(pids);
    var p := Wrap(Rank(pids, c), |l|);
    NextPlace(pids, c, picks[0]);
    if d > 0 {
      PicksInTurn(pids, Next(picks[0], |pids|), picks[1..], d - 1);
      OneFurther(p, d, |l|);
    }
  }

  lemma {:induction false} LaterRound(pids: seq<int>, c: nat, picks: seq<nat>, from: nat) returns (c': nat)
    requires Round(pids, c, picks) && from <= |picks|
    ensures Round(pids, c', picks[from..])
    decreases from
  {
    c' := c;
    if from > 0 {
      c' := LaterRound(pids, Next(picks[0], |pids|), picks[1..], from - 1);
      assert picks[1..][from - 1..] == picks[from..];
    } else {
      assert picks[0..] == picks;
    }
  }

  /** The first L picks name a live child exactly once, in fewer picks at most once. */
  lemma FirstRound(pids: seq<int>, c: nat, picks: seq<nat>, i: nat)
    requires Round(pids, c, picks) && Live(pids, i)
    ensures |LiveList(pids)| > 0
    ensures |picks| >= |LiveList(pids)| ==> multiset(picks[..|LiveList(pids)|])[i] == 1
    ensures |picks| < |LiveList(pids)| ==> multiset(picks)[i] <= 1
  {
    var l := LiveList(pids);
    LiveMembers(pids, |pids|);
    LiveAscending(pids, |pids|);
    var q :| 0 <= q < |l| && l[q] == i;
    var p := Wrap(Rank(pids, c), |l|);
    var k := if q >= p then q - p else q + |l| - p;
    hide LiveList, Rank, Round, Live;
    forall d | 0 <= d < |picks| && d < |l|
      ensures picks[d] == i <==> d == k
    {
      PicksInTurn(pids, c, picks, d);
    }
    var w := if |picks| >= |l| then picks[..|l|] else picks;
    CountOnce(w, i, k);
  }

  lemma CountOnce(s: seq<nat>, x: nat, k: nat)
    requires forall d :: 0 <= d < |s| ==> (s[d] == x <==> d == k)
    ensures multiset(s)[x] == if k < |s| then 1 else 0
  {
    if k < |s| {
      assert s == s[..k] + [x] + s[k + 1..];
      assert x !in s[..k] && x !in s[k + 1..];
    } else {
      assert x !in s;
    }
  }

  /** Fairness: while the live set stands, any L consecutive dispatches, L the number of live children, hit each of
      them exactly once. */
  lemma RoundRobin(pids: seq<int>, c: nat, picks: seq<nat>, from: nat, i: nat)
    requires Round(pids, c, picks) && from + |LiveList(pids)| <= |picks| && Live(pids, i)
    ensures multiset(picks[from..from + |LiveList(pids)|])[i] == 1
  {
    var c' := LaterRound(pids, c, picks, from);
    FirstRound(pids, c', picks[from..], i);
    assert picks[from..][..|LiveList(pids)|] == picks[from..from + |LiveList(pids)|];
  }

  /** Hence the numbers of connections two live children have been sent never differ by more than one. */
  lemma {:induction false} Balanced(pids: seq<int>, c: nat, picks: seq<nat>, i: nat, j: nat)
    requires Round(pids, c, picks) && Live(pids, i) && Live(pids, j)
    ensures multiset(picks)[i] <= multiset(picks)[j] + 1
    ensures multiset(picks)[j] <= multiset(picks)[i] + 1
    decreases |picks|
  {
    var L := |LiveList(pids)|;
    FirstRound(pids, c, picks, i);
    FirstRound(pids, c, picks, j);
    if |picks| >= L {
      var c' := LaterRound(pids, c, picks, L);
      Balanced(pids, c', picks[L..], i, j);
      assert picks == picks[..L] + picks[L..];
    }
  }
}
