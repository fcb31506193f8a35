/** An application that keeps its timers in the time wheel: what the wheel does over a whole sequence of calls. */
module WheelRuns {
  import opened Seqs
  import opened TimeWheelModel

  datatype Call = AddCall(id: nat, timeout: int) | DelCall(id: nat) | TickCall

  /** The step of the countdown machine; add_timer answers NULL to a negative timeout. */
  function OpOf(call: Call): Op<nat> {
    match call
    case AddCall(id, timeout) => if timeout < 0 then Nothing else Add(id, Countdown(timeout))
    case DelCall(id) => Del(id)
    case TickCall => Tick
  }

  function Ops(calls: seq<Call>): (ops: seq<Op<nat>>)
    ensures |ops| == |calls| && forall i :: 0 <= i < |calls| ==> ops[i] == OpOf(calls[i])
  {
    seq(|calls|, i requires 0 <= i < |calls| => OpOf(calls[i]))
  }

  /** Added timers are new, deleted ones still pending. */
  predicate Lawful(m: map<nat, nat>, op: Op<nat>) {
    match op
    case Add(id, _) => id !in m
    case Del(id) => id in m
    case Tick => true
    case Nothing => true
  }

  predicate AllLawful(m: map<nat, nat>, ops: seq<Op<nat>>)
    decreases |ops|
  {
    ops == [] || (Lawful(m, ops[0]) && AllLawful(Step(m, ops[0]), ops[1..]))
  }

  /** Each tick runs the callbacks of exactly the timers that are due, each once; no other call runs any. */
  ghost predicate Runs(m: map<nat, nat>, op: Op<nat>, fired: seq<nat>) {
    if op.Tick? then NoDup(fired) && forall id :: id in fired <==> id in Due(m) else fired == []
  }

  ghost predicate Outcome(m: map<nat, nat>, ops: seq<Op<nat>>, out: seq<seq<nat>>)
    decreases |ops|
  {
    if ops == [] then out == []
    else out != [] && Runs(m, ops[0], out[0]) && Outcome(Step(m, ops[0]), ops[1..], out[1..])
  }

  // ---- what an outcome says about one timer ----

  function Count(out: seq<seq<nat>>, id: nat): nat {
    if out == [] then 0 else (if id in out[0] then 1 else 0) + Count(out[1..], id)
  }

  lemma {:induction false} CountIsFires(m: map<nat, nat>, ops: seq<Op<nat>>, out: seq<seq<nat>>, id: nat)
    requires Outcome(m, ops, out)
    ensures |out| == |ops| && Count(out, id) == Fires(m, ops, id)
    decreases |ops|
  {
    hide Step, Due;
    if ops != [] {
      CountIsFires(Step(m, ops[0]), ops[1..], out[1..], id);
    }
  }

  lemma {:induction false} OutcomeFrom(m: map<nat, nat>, ops: seq<Op<nat>>, out: seq<seq<nat>>, i: nat)
    requires Outcome(m, ops, out) && i <= |ops|
    ensures |out| == |ops| && Outcome(Run(m, ops[..i]), ops[i..], out[i..])
    decreases |ops|
  {
    hide Step, Runs;
    if i == 0 {
      assert ops[..0] == [] && ops[0..] == ops && out[0..] == out;
      if ops != [] { OutcomeFrom(Step(m, ops[0]), ops[1..], out[1..], 0); }
    } else {
      OutcomeFrom(Step(m, ops[0]), ops[1..], out[1..], i - 1);
      assert ops[..i][1..] == ops[1..][..i - 1];
      assert ops[i..] == ops[1..][i - 1..] && out[i..] == out[1..][i - 1..];
    }
  }

  lemma {:induction false} OutcomeUpTo(m: map<nat, nat>, ops: seq<Op<nat>>, out: seq<seq<nat>>, n: nat)
    requires Outcome(m, ops, out) && n <= |ops|
    ensures |out| == |ops| && Outcome(m, ops[..n], out[..n])
    decreases |ops|
  {
    hide Step, Runs;
    if ops != [] {
      var next := Step(m, ops[0]);
      OutcomeUpTo(next, ops[1..], out[1..], if n > 0 then n - 1 else 0);
      if n > 0 {
        assert ops[..n][1..] == ops[1..][..n - 1] && out[..n][1..] == out[1..][..n - 1];
      }
    }
  }

  /** After call i adds a timer, no call up to the n-th adds or deletes it. */
  predicate LeftAlone(calls: seq<Call>, i: nat, n: nat)
    requires i < n <= |calls|
  {
    calls[i].AddCall? && calls[i].timeout >= 0 &&
    forall j :: i < j < n ==> calls[j].TickCall? || calls[j].id != calls[i].id
  }

  /** After call i deletes a timer, no call up to the n-th names it again. */
  predicate DeletedAt(calls: seq<Call>, i: nat, n: nat)
    requires i < n <= |calls|
  {
    calls[i].DelCall? && forall j :: i < j < n ==> calls[j].TickCall? || calls[j].id != calls[i].id
  }

  /** The timer that call i added has run by the n-th call, and only once, iff more ticks have passed than it counts. */
  ghost predicate FiredOnce(calls: seq<Call>, out: seq<seq<nat>>, i: nat, n: nat)
    requires i < n <= |calls| == |out| && calls[i].AddCall? && calls[i].timeout >= 0
  {
    var k := if calls[i].timeout < SI then 1 else calls[i].timeout / SI;
    Count(out[i + 1..n], calls[i].id) == if TickCalls(calls[i + 1..n]) > k then 1 else 0
  }

  function TickCalls(calls: seq<Call>): nat {
    if calls == [] then 0 else (if calls[0].TickCall? then 1 else 0) + TickCalls(calls[1..])
  }

  lemma {:induction false} TickCallsAreTicks(calls: seq<Call>)
    ensures Ticks(Ops(calls)) == TickCalls(calls)
  {
    if calls != [] {
      assert Ops(calls)[1..] == Ops(calls[1..]);
      TickCallsAreTicks(calls[1..]);
    }
  }

  /** How often id runs between call i and the n-th, from the countdowns behind call i. */
  lemma CountAfter(calls: seq<Call>, out: seq<seq<nat>>, id: nat, i: nat, n: nat) returns (m: map<nat, nat>)
    requires Outcome(map[], Ops(calls), out) && i < n <= |calls|
    ensures |out| == |calls| && Count(out[i + 1..n], id) == Fires(m, Ops(calls[i + 1..n]), id)
    ensures m == Step(Run(map[], Ops(calls)[..i]), Ops(calls)[i])
  {
    hide Outcome, Fires, Count, Step;
    var ops := Ops(calls);
    OutcomeFrom(map[], ops, out, i);
    OutcomeFrom(Run(map[], ops[..i]), ops[i..], out[i..], 1);
    m := Run(Run(map[], ops[..i]), ops[i..][..1]);
    assert ops[i..][..1][0] == ops[i] && ops[i..][..1][1..] == [];
    assert ops[i..][1..] == ops[i + 1..] && out[i..][1..] == out[i + 1..];
    OutcomeUpTo(m, ops[i + 1..], out[i + 1..], n - i - 1);
    assert ops[i + 1..][..n - i - 1] == ops[i + 1..n] && out[i + 1..][..n - i - 1] == out[i + 1..n];
    CountIsFires(m, ops[i + 1..n], out[i + 1..n], id);
    assert ops[i + 1..n] == Ops(calls[i + 1..n]);
  }

  lemma FiresOnTime(calls: seq<Call>, out: seq<seq<nat>>, i: nat, n: nat)
    requires Outcome(map[], Ops(calls), out) && i < n <= |calls| && LeftAlone(calls, i, n)
    ensures |out| == |calls| && FiredOnce(calls, out, i, n)
  {
    hide Outcome, Run, Fires, Count, Ticks;
    var m := CountAfter(calls, out, calls[i].id, i, n);
    FiresExactlyOnce(m, Ops(calls[i + 1..n]), calls[i].id);
    TickCallsAreTicks(calls[i + 1..n]);
  }

  /** A deleted timer runs no more, unless its number is given out again. */
  lemma DeletedNeverRuns(calls: seq<Call>, out: seq<seq<nat>>, i: nat, n: nat)
    requires Outcome(map[], Ops(calls), out) && i < n <= |calls| && DeletedAt(calls, i, n)
    ensures |out| == |calls| && Count(out[i + 1..n], calls[i].id) == 0
  {
    hide Outcome, Run, Fires, Count, Ticks;
    var m := CountAfter(calls, out, calls[i].id, i, n);
    FiresExactlyOnce(m, Ops(calls[i + 1..n]), calls[i].id);
  }

  // ---- the wheel ----

  /** The wheel's countdowns are the abstract ones; `at` and `name` translate between timers and their users. */
  ghost predicate Holds(v: map<TwTimer, nat>, at: map<nat, TwTimer>, name: map<TwTimer, nat>, m: map<nat, nat>) {
    && (forall id :: id in m ==> id in at && at[id] in v && v[at[id]] == m[id] && at[id] in name && name[at[id]] == id)
    && (forall t :: t in v ==> t in name && name[t] in m && at[name[t]] == t)
  }

  lemma HoldsAdded(v: map<TwTimer, nat>, at: map<nat, TwTimer>, name: map<TwTimer, nat>, m: map<nat, nat>,
                   t: TwTimer, id: nat, k: nat)
    requires Holds(v, at, name, m) && t !in v && id !in m
    ensures Holds(v[t := k], at[id := t], name[t := id], m[id := k])
  {
  }

  lemma HoldsDeleted(v: map<TwTimer, nat>, at: map<nat, TwTimer>, name: map<TwTimer, nat>, m: map<nat, nat>, id: nat)
    requires Holds(v, at, name, m) && id in m
    ensures at[id] in v && Holds(v - {at[id]}, at, name, m - {id})
  {
  }

  lemma HoldsTicked(v: map<TwTimer, nat>, at: map<nat, TwTimer>, name: map<TwTimer, nat>, m: map<nat, nat>,
                    fired: seq<TwTimer>)
    requires Holds(v, at, name, m) && NoDup(fired) && forall t :: t in fired <==> t in Due(v)
    ensures Holds(Ticked(v), at, name, Ticked(m))
    ensures (forall t :: t in fired ==> t in name) && Runs(m, Tick, Names(fired, name))
  {
    var ids := Names(fired, name);
    forall id | id in Due(m) ensures id in ids {
      assert at[id] in Due(v) && at[id] in fired;
      var i :| 0 <= i < |fired| && fired[i] == at[id];
      assert ids[i] == id;
    }
    forall i, j | 0 <= i < j < |ids| ensures ids[i] != ids[j] {
      assert fired[i] in fired && fired[j] in fired;
    }
  }

  function Names(fired: seq<TwTimer>, name: map<TwTimer, nat>): (ids: seq<nat>)
    requires forall t :: t in fired ==> t in name
    ensures |ids| == |fired| && forall i :: 0 <= i < |fired| ==> ids[i] == name[fired[i]]
  {
    seq(|fired|, i requires 0 <= i < |fired| => name[fired[i]])
  }

  class WheelClient {
    const wheel: TimeWheel
    var at: map<nat, TwTimer>
    var name: map<TwTimer, nat>

    ghost predicate Keeps(m: map<nat, nat>)
      reads this, wheel, wheel.slots, wheel.Timers()
    {
      wheel.Valid() && Holds(wheel.View(), at, name, m)
    }

    constructor ()
      ensures Keeps(map[]) && fresh(wheel) && fresh(wheel.slots) && wheel.Timers() == {}
    {
      wheel := new TimeWheel();
      at, name := map[], map[];
    }

    method AddOne(id: nat, timeout: int, ghost m: map<nat, nat>)
      requires Keeps(m) && (timeout >= 0 ==> id !in m)
      modifies this, wheel, wheel.slots, wheel.Timers()
      ensures Keeps(Step(m, OpOf(AddCall(id, timeout))))
      ensures forall t :: t in wheel.Timers() ==> t in old(wheel.Timers()) || fresh(t)
    {
      hide TimeWheel.Valid, TimeWheel.View, Holds;
      ghost var v := wheel.View();
      assert v.Keys == wheel.Timers();
      var timer := wheel.AddTimer(timeout);
      if timer != null {
        HoldsAdded(v, at, name, m, timer, id, Countdown(timeout));
        at, name := at[id := timer], name[timer := id];
      }
    }

    method DelOne(id: nat, ghost m: map<nat, nat>)
      requires Keeps(m) && id in m
      modifies wheel, wheel.slots, wheel.Timers()
      ensures Keeps(m - {id}) && forall t :: t in wheel.Timers() ==> t in old(wheel.Timers())
    {
      hide TimeWheel.Valid, TimeWheel.View, AllOf;
      HoldsDeleted(wheel.View(), at, name, m, id);
      wheel.DelTimer(at[id]);
    }

    method TickOne(ghost m: map<nat, nat>) returns (ids: seq<nat>)
      requires Keeps(m)
      modifies wheel, wheel.slots, wheel.Timers()
      ensures Keeps(Ticked(m)) && Runs(m, Tick, ids) && forall t :: t in wheel.Timers() ==> t in old(wheel.Timers())
    {
      hide TimeWheel.Valid, TimeWheel.View, Holds, AllOf, Ticked, Due, NoDup;
      ghost var v := wheel.View();
      var fired := wheel.Tick();
      HoldsTicked(v, at, name, m, fired);
      TickedKeys(v);
      ids := Names(fired, name);
    }
  }

  lemma TickedKeys(v: map<TwTimer, nat>)
    ensures Ticked(v).Keys <= v.Keys
  {
  }

  lemma {:induction false} OutcomeSnoc(m: map<nat, nat>, ops: seq<Op<nat>>, out: seq<seq<nat>>, op: Op<nat>,
                                       fired: seq<nat>)
    requires Outcome(m, ops, out) && Runs(Run(m, ops), op, fired)
    ensures Outcome(m, ops + [op], out + [fired]) && Run(m, ops + [op]) == Step(Run(m, ops), op)
    decreases |ops|
  {
    hide Step, Runs;
    if ops == [] {
      assert (ops + [op])[1..] == [] && (out + [fired])[1..] == [];
    } else {
      assert (ops + [op])[1..] == ops[1..] + [op] && (out + [fired])[1..] == out[1..] + [fired];
      OutcomeSnoc(Step(m, ops[0]), ops[1..], out[1..], op, fired);
    }
  }

  lemma {:induction false} LawfulAt(m: map<nat, nat>, ops: seq<Op<nat>>, i: nat)
    requires AllLawful(m, ops) && i < |ops|
    ensures Lawful(Run(m, ops[..i]), ops[i])
    decreases i
  {
    hide Step, Lawful;
    if i > 0 {
      LawfulAt(Step(m, ops[0]), ops[1..], i - 1);
      assert ops[..i][1..] == ops[1..][..i - 1];
    }
  }

  lemma NothingYet()
    ensures Outcome(map[], [], []) && Run<nat>(map[], []) == map[]
  {
  }

  /** The wheel driven by any lawful sequence of calls: a timer added with k ticks to go and then left alone runs
      exactly once, on the (k + 1)-th later tick; a deleted one runs no more. */
  method RunWheel(calls: seq<Call>) returns (out: seq<seq<nat>>)
    requires AllLawful(map[], Ops(calls))
    ensures |out| == |calls| && Outcome(map[], Ops(calls), out)
    ensures forall i, n :: 0 <= i < n <= |calls| && LeftAlone(calls, i, n) ==> FiredOnce(calls, out, i, n)
    ensures forall i, n :: 0 <= i < n <= |calls| && DeletedAt(calls, i, n) ==>
                             Count(out[i + 1..n], calls[i].id) == 0
  {
    hide Outcome, AllLawful, WheelClient.Keeps, Lawful, Step, Runs, FiredOnce, AllOf;
    var client := new WheelClient();
    ghost var ops := Ops(calls);
    ghost var m: map<nat, nat> := map[];
    out := [];
    NothingYet();
    for i := 0 to |calls|
      invariant fresh(client) && fresh(client.wheel) && fresh(client.wheel.slots)
      invariant forall t :: t in client.wheel.Timers() ==> fresh(t)
      invariant |out| == i && m == Run(map[], ops[..i]) && client.Keeps(m) && Outcome(map[], ops[..i], out)
    {
      LawfulAt(map[], ops, i);
      var fired := Do(client, calls[i], m);
      OutcomeSnoc(map[], ops[..i], out, ops[i], fired);
      m := Step(m, ops[i]);
      assert ops[..i] + [ops[i]] == ops[..i + 1];
      out := out + [fired];
    }
    assert ops[..|calls|] == ops;
    forall i, n | 0 <= i < n <= |calls| && LeftAlone(calls, i, n)
      ensures FiredOnce(calls, out, i, n)
    {
      FiresOnTime(calls, out, i, n);
    }
    forall i, n | 0 <= i < n <= |calls| && DeletedAt(calls, i, n)
      ensures Count(out[i + 1..n], calls[i].id) == 0
    {
      DeletedNeverRuns(calls, out, i, n);
    }
  }

  method Do(client: WheelClient, call: Call, ghost m: map<nat, nat>) returns (fired: seq<nat>)
    requires client.Keeps(m) && Lawful(m, OpOf(call))
    modifies client, client.wheel, client.wheel.slots, client.wheel.Timers()
    ensures client.Keeps(Step(m, OpOf(call))) && Runs(m, OpOf(call), fired)
    ensures forall t :: t in client.wheel.Timers() ==> t in old(client.wheel.Timers()) || fresh(t)
  {
    hide WheelClient.Keeps, Ticked, Due, AllOf;
    fired := [];
    match call
    case AddCall(id, timeout) => client.AddOne(id, timeout, m);
    case DelCall(id) => client.DelOne(id, m);
    case TickCall => fired := client.TickOne(m);
  }
}
