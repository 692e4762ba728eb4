/** internal/dnsserver/upstream.go: failover over the configured upstreams.  The tracker is
    changed by this call alone; what the network, the clock and the context do is an input. */
module Upstreams {
  import opened Message
  import opened Durations
  import opened Text

  const COOLDOWN: int := 30 * SECOND

  /** An error value; only which one it is matters here. */
  type Error = nat

  /** One exchange with an upstream. */
  datatype Outcome = Answer(msg: Msg) | Failure(err: Error)

  /** What the k-th exchange of the call gives, the time read when it has failed, and whether the
      i-th look at the context finds it ended. */
  datatype Env = Env(net: nat -> Outcome, clock: nat -> int, ended: nat -> bool)

  datatype Cause = Cause(upstream: string, err: Error)

  datatype Result = Answered(msg: Msg) | Failed(causes: seq<Cause>) | Ended

  type Failures = map<string, int>

  predicate Cooling(last: Failures, u: string, now: int) {
    u in last && now - last[u] < COOLDOWN
  }

  // ---- The plan -----------------------------------------------------------------

  /** The upstreams not in cooldown, each at its first place in the list. */
  function Fresh(list: seq<string>, last: Failures, now: int): seq<string> {
    if list == [] then []
    else
      var rest := Fresh(list[..|list| - 1], last, now);
      var u := list[|list| - 1];
      if Cooling(last, u, now) || u in rest then rest else rest + [u]
  }

  /** The entries in cooldown, at every place they have in the list. */
  function Waiting(list: seq<string>, last: Failures, now: int): seq<string> {
    if list == [] then []
    else
      var rest := Waiting(list[..|list| - 1], last, now);
      var u := list[|list| - 1];
      if Cooling(last, u, now) then rest + [u] else rest
  }

  /** The order of contact, until one answers. */
  function Plan(list: seq<string>, last: Failures, now: int): seq<string> {
    Fresh(list, last, now) + Waiting(list, last, now)
  }

  lemma {:induction false} FreshHas(list: seq<string>, last: Failures, now: int, u: string)
    ensures u in Fresh(list, last, now) <==> u in list && !Cooling(last, u, now)
  {
    if list != [] {
      var n := |list| - 1;
      FreshHas(list[..n], last, now, u);
      assert list == list[..n] + [list[n]];
    }
  }

  lemma {:induction false} WaitingHas(list: seq<string>, last: Failures, now: int, u: string)
    ensures u in Waiting(list, last, now) <==> u in list && Cooling(last, u, now)
  {
    if list != [] {
      var n := |list| - 1;
      WaitingHas(list[..n], last, now, u);
      assert list == list[..n] + [list[n]];
    }
  }

  /** Every upstream has its turn, and nothing else. */
  lemma PlanCovers(list: seq<string>, last: Failures, now: int, u: string)
    ensures u in Plan(list, last, now) <==> u in list
  {
    FreshHas(list, last, now, u);
    WaitingHas(list, last, now, u);
  }

  // ---- No upstream is contacted twice, and when --------------------------------------

  function Count(list: seq<string>, u: string): nat {
    if list == [] then 0 else Count(list[..|list| - 1], u) + if list[|list| - 1] == u then 1 else 0
  }

  lemma {:induction false} CountConcat(a: seq<string>, b: seq<string>, u: string)
    ensures Count(a + b, u) == Count(a, u) + Count(b, u)
  {
    if b == [] {
      assert a + b == a;
    } else {
      var n := |b| - 1;
      CountConcat(a, b[..n], u);
      assert (a + b)[..|a| + n] == a + b[..n];
    }
  }

  lemma {:induction false} CountIn(list: seq<string>, u: string)
    ensures Count(list, u) > 0 <==> u in list
  {
    if list != [] {
      CountIn(list[..|list| - 1], u);
      assert list == list[..|list| - 1] + [list[|list| - 1]];
    }
  }

  lemma {:induction false} FreshCount(list: seq<string>, last: Failures, now: int, u: string)
    ensures Count(Fresh(list, last, now), u) == if u in list && !Cooling(last, u, now) then 1 else 0
  {
    if list != [] {
      var n := |list| - 1;
      FreshCount(list[..n], last, now, u);
      FreshHas(list[..n], last, now, list[n]);
      assert list == list[..n] + [list[n]];
      CountConcat(Fresh(list[..n], last, now), [list[n]], u);
      assert [list[n]][..0] == [];
    }
  }

  lemma {:induction false} WaitingCount(list: seq<string>, last: Failures, now: int, u: string)
    ensures Count(Waiting(list, last, now), u) == if Cooling(last, u, now) then Count(list, u) else 0
  {
    if list != [] {
      var n := |list| - 1;
      WaitingCount(list[..n], last, now, u);
      CountConcat(Waiting(list[..n], last, now), [list[n]], u);
      assert [list[n]][..0] == [];
    }
  }

  /** Each upstream's turns: one when it is not in cooldown, else one for each place in the list. */
  lemma TurnsOf(list: seq<string>, last: Failures, now: int, u: string)
    ensures Count(Plan(list, last, now), u) ==
            if Cooling(last, u, now) then Count(list, u) else if u in list then 1 else 0
  {
    FreshCount(list, last, now, u);
    WaitingCount(list, last, now, u);
    CountConcat(Fresh(list, last, now), Waiting(list, last, now), u);
  }

  ghost predicate AtMostOnce(plan: seq<string>) {
    forall u :: Count(plan, u) <= 1
  }

  ghost predicate NoCooledTwice(list: seq<string>, last: Failures, now: int) {
    forall u :: Cooling(last, u, now) ==> Count(list, u) <= 1
  }

  /** No upstream has two turns exactly when none that is in cooldown at entry is listed twice. */
  lemma ContactedOnceExactly(list: seq<string>, last: Failures, now: int)
    ensures AtMostOnce(Plan(list, last, now)) <==> NoCooledTwice(list, last, now)
  {
    var plan := Plan(list, last, now);
    if AtMostOnce(plan) {
      forall u | Cooling(last, u, now) ensures Count(list, u) <= 1 {
        TurnsOf(list, last, now, u);
        assert Count(plan, u) <= 1;
      }
    }
    if NoCooledTwice(list, last, now) {
      forall u ensures Count(plan, u) <= 1 {
        TurnsOf(list, last, now, u);
      }
    }
  }

  // ---- Encrypted upstreams first ------------------------------------------------------

  predicate IsDoH(u: string) {
    HasPrefix(u, "https://")
  }

  predicate EncryptedFirst(list: seq<string>) {
    forall i, j :: 0 <= i < j < |list| && !IsDoH(list[i]) ==> !IsDoH(list[j])
  }

  /** In a list with the encrypted upstreams first, so is the part not in cooldown. */
  lemma {:induction false} FreshKeepsOrder(list: seq<string>, last: Failures, now: int, k: nat, d: string)
    requires EncryptedFirst(list) && k < |Fresh(list, last, now)| && !IsDoH(Fresh(list, last, now)[k])
    requires d in list && IsDoH(d) && !Cooling(last, d, now)
    ensures d in Fresh(list, last, now)[..k]
  {
    var n := |list| - 1;
    var rest := Fresh(list[..n], last, now);
    var w := Fresh(list, last, now)[k];
    assert list == list[..n] + [list[n]];
    FreshHas(list[..n], last, now, w);
    FreshHas(list[..n], last, now, d);
    if k < |rest| {
      assert w in list[..n];
      FreshKeepsOrder(list[..n], last, now, k, d);
      assert Fresh(list, last, now)[..k] == rest[..k];
    } else {
      assert Fresh(list, last, now)[..k] == rest;
    }
  }

  /** A plain upstream has its turn only after every encrypted one that was not in cooldown. */
  lemma PlainComesAfter(list: seq<string>, last: Failures, now: int, k: nat, d: string)
    requires EncryptedFirst(list) && k < |Plan(list, last, now)| && !IsDoH(Plan(list, last, now)[k])
    requires d in list && IsDoH(d)
    ensures d in Plan(list, last, now)[..k] || Cooling(last, d, now)
  {
    var first := Fresh(list, last, now);
    if !Cooling(last, d, now) {
      if k < |first| {
        FreshKeepsOrder(list, last, now, k, d);
        assert Plan(list, last, now)[..k] == first[..k];
      } else {
        FreshHas(list, last, now, d);
        assert forall i :: 0 <= i < |first| ==> Plan(list, last, now)[..k][i] == first[i];
      }
    }
  }

  // ---- The call ---------------------------------------------------------------------

  function CountOf(counts: map<string, nat>, u: string): nat {
    if u in counts then counts[u] else 0
  }

  /** upstreamTracker: when each upstream last failed, and how often it has failed at all. */
  datatype Tracker = Tracker(last: Failures, failures: map<string, nat>)
  {
    function Fail(u: string, now: int): Tracker {
      Tracker(last[u := now], failures[u := CountOf(failures, u) + 1])
    }

    function Succeed(u: string): Tracker {
      Tracker(last - {u}, failures)
    }
  }

  /** The tracker after the given upstreams have failed one after the other. */
  function FailedAt(t: Tracker, contacted: seq<string>, clock: nat -> int): Tracker {
    if contacted == [] then t
    else
      var n := |contacted| - 1;
      FailedAt(t, contacted[..n], clock).Fail(contacted[n], clock(n))
  }

  /** An upstream that has failed in this call is in cooldown; any other is as it was. */
  lemma {:induction false} CoolingAfter(t: Tracker, contacted: seq<string>, clock: nat -> int, now: int, u: string)
    requires forall k: nat :: now <= clock(k)
    ensures Cooling(FailedAt(t, contacted, clock).last, u, now) <==> Cooling(t.last, u, now) || u in contacted
  {
    if contacted != [] {
      var n := |contacted| - 1;
      CoolingAfter(t, contacted[..n], clock, now, u);
      assert contacted == contacted[..n] + [contacted[n]];
    }
  }

  /** Each failed exchange is counted once for its upstream, from zero on. */
  lemma {:induction false} FailuresCounted(t: Tracker, contacted: seq<string>, clock: nat -> int, u: string)
    ensures
      var failures := FailedAt(t, contacted, clock).failures;
      && (u in failures <==> u in t.failures || u in contacted)
      && (u in failures ==> failures[u] == (if u in t.failures then t.failures[u] else 0) + Count(contacted, u))
  {
    if contacted != [] {
      var n := |contacted| - 1;
      FailuresCounted(t, contacted[..n], clock, u);
      CountIn(contacted[..n], u);
      assert contacted == contacted[..n] + [contacted[n]];
    }
  }

  function CausesOf(contacted: seq<string>, net: nat -> Outcome): seq<Cause> {
    if contacted == [] then []
    else
      var n := |contacted| - 1;
      CausesOf(contacted[..n], net) + [Cause(contacted[n], if net(n).Failure? then net(n).err else 0)]
  }

  ghost predicate AllFailed(net: nat -> Outcome, n: nat) {
    forall k: nat :: k < n ==> net(k).Failure?
  }

  /** The upstreams contacted by the time the context has been looked at so many times, once in
      front of each entry of each sweep. */
  function Visited(list: seq<string>, last: Failures, now: int, looks: nat): seq<string>
    requires looks <= 2 * |list|
  {
    if looks <= |list| then Fresh(list[..looks], last, now)
    else Fresh(list, last, now) + Waiting(list[..looks - |list|], last, now)
  }

  /** A call: the exchanges it made, what it returned, and how many looks found the context alive. */
  datatype Run = Run(contacted: seq<string>, result: Result, looks: nat)

  /** What forwardWith does: it goes through the entries as long as each look finds the context
      alive, and stops at the first answer, at the first look that finds it ended, or at the end. */
  ghost predicate Forwards(env: Env, list: seq<string>, last: Failures, now: int, run: Run) {
    var (c, looks) := (run.contacted, run.looks);
    && looks <= 2 * |list| && c == Visited(list, last, now, looks)
    && Alive(env, looks)
    && match run.result
       case Answered(m) =>
         && c != [] && AllFailed(env.net, |c| - 1) && env.net(|c| - 1) == Answer(m)
         && looks > 0 && Visited(list, last, now, looks - 1) == c[..|c| - 1]
       case Failed(causes) =>
         && looks == 2 * |list| && AllFailed(env.net, |c|) && causes == CausesOf(c, env.net)
         && (list == [] ==> !env.ended(0))
       case Ended =>
         AllFailed(env.net, |c|) && env.ended(looks) && (looks < 2 * |list| || list == [])
  }

  /** Every exchange so far has failed, and the tracker and the causes say so. */
  ghost predicate FailedSoFar(env: Env, t0: Tracker, contacted: seq<string>, causes: seq<Cause>, t: Tracker) {
    && AllFailed(env.net, |contacted|) && causes == CausesOf(contacted, env.net)
    && t == FailedAt(t0, contacted, env.clock)
  }

  /** And every look so far has found the context alive. */
  ghost predicate SweepOk(env: Env, t0: Tracker, contacted: seq<string>, looks: nat, causes: seq<Cause>, t: Tracker) {
    FailedSoFar(env, t0, contacted, causes, t) && Alive(env, looks)
  }

  ghost predicate Alive(env: Env, looks: nat) {
    forall i: nat :: i < looks ==> !env.ended(i)
  }

  /** A success clears the upstream's failure time. */
  function TrackerAfter(t0: Tracker, contacted: seq<string>, clock: nat -> int, answered: bool): Tracker {
    if answered && contacted != [] then
      var n := |contacted| - 1;
      FailedAt(t0, contacted[..n], clock).Succeed(contacted[n])
    else FailedAt(t0, contacted, clock)
  }

  /** A plain answer while the list also has an encrypted upstream. */
  ghost function Fallback(used: string, list: seq<string>): nat {
    if !IsDoH(used) && exists d :: d in list && IsDoH(d) then 1 else 0
  }

  class Forwarder {
    var tracker: Tracker
    var plaintextFallbacks: nat

    /** forwardWith.  now is read at entry, and the clock does not go back. */
    method ForwardWith(list: seq<string>, env: Env, now: int) returns (run: Run)
      requires forall k: nat :: now <= env.clock(k)
      modifies this
      ensures Forwards(env, list, old(tracker.last), now, run)
      ensures tracker == TrackerAfter(old(tracker), run.contacted, env.clock, run.result.Answered?)
      // An answer of a plain upstream counts while the list also has an encrypted one.
      ensures
        var c := run.contacted;
        plaintextFallbacks == old(plaintextFallbacks) +
          if run.result.Answered? && !IsDoH(c[|c| - 1]) && exists d :: d in list && IsDoH(d) then 1 else 0
    {
      run := Sweep(list, env, now);
      if run.result.Answered? {
        CountPlaintextFallback(run.contacted[|run.contacted| - 1], list);
      }
    }

    /** The two sweeps. */
    method Sweep(list: seq<string>, env: Env, now: int) returns (run: Run)
      requires forall k: nat :: now <= env.clock(k)
      modifies this
      ensures Forwards(env, list, old(tracker.last), now, run)
      ensures tracker == TrackerAfter(old(tracker), run.contacted, env.clock, run.result.Answered?)
      ensures plaintextFallbacks == old(plaintextFallbacks)
    {
      var done, causes, tried;
      done, run, causes, tried := FirstSweep(list, env, now);
      if done {
        return;
      }
      done, run, causes := SecondSweep(list, env, now, old(tracker), run.contacted, causes, tried);
      if done {
        return;
      }
      if |causes| == 0 && env.ended(run.looks) {
        NoCauseNoEntry(list, old(tracker.last), now, env.net);
        return run.(result := Ended);
      }
      if list == [] {
        assert CausesOf([], env.net) == [];
      }
      run := run.(result := Failed(causes));
    }

    /** The first sweep skips the upstreams in cooldown. */
    method FirstSweep(list: seq<string>, env: Env, now: int)
      returns (done: bool, run: Run, causes: seq<Cause>, tried: set<string>)
      requires forall k: nat :: now <= env.clock(k)
      modifies this
      ensures done ==> Forwards(env, list, old(tracker.last), now, run) && !run.result.Failed?
      ensures done ==> tracker == TrackerAfter(old(tracker), run.contacted, env.clock, run.result.Answered?)
      ensures !done ==> SweepOk(env, old(tracker), run.contacted, |list|, causes, tracker) && run.looks == |list|
      ensures !done ==> run.contacted == Fresh(list, old(tracker.last), now)
      ensures !done ==> forall u :: u in tried <==> u in run.contacted
      ensures plaintextFallbacks == old(plaintextFallbacks)
    {
      ghost var path := Path(list, tracker.last, now, 0);
      FirstPath(list, tracker.last, now);
      var answered, contacted, place;
      done, answered, contacted, causes, tried, place := FirstLoop(list, env, now, path);
      run := Run(contacted, if answered then Answered(env.net(|contacted| - 1).msg) else Ended, place);
      SweepStops(env, list, old(tracker.last), now, 0, done, run, place);
      VisitedOnce(list, old(tracker.last), now);
    }

    /** Its loop, along the given path, and the place at which it stops. */
    method FirstLoop(list: seq<string>, env: Env, now: int, ghost path: nat -> seq<string>)
      returns (done: bool, answered: bool, contacted: seq<string>, causes: seq<Cause>, tried: set<string>, place: nat)
      requires forall k: nat :: now <= env.clock(k)
      requires path(0) == []
      requires forall i: nat :: i < |list| ==> FirstStep(list, tracker.last, now, path, i)
      modifies this
      ensures Arrives(env, |list|, 0, path, done, answered, contacted, place)
      ensures done ==> tracker == TrackerAfter(old(tracker), contacted, env.clock, answered)
      ensures !done ==> FailedSoFar(env, old(tracker), contacted, causes, tracker)
      ensures !done ==> forall u :: u in tried <==> u in contacted
      ensures plaintextFallbacks == old(plaintextFallbacks)
    {
      contacted, causes, tried, place := [], [], {}, 0;
      ghost var t0 := tracker;
      while place < |list|
        invariant place <= |list| && contacted == path(place)
        invariant SweepOk(env, t0, contacted, place, causes, tracker)
        invariant forall u :: u in tried <==> u in contacted
        invariant plaintextFallbacks == old(plaintextFallbacks)
      {
        if env.ended(place) {
          return true, false, contacted, causes, tried, place;
        }
        var u := list[place];
        assert FirstStep(list, t0.last, now, path, place);
        CoolingAfter(t0, contacted, env.clock, now, u);
        place := place + 1;
        var skip := ShouldSkip(u, now);
        if skip {
          continue;
        }
        tried := tried + {u};
        ghost var before := contacted;
        answered, contacted, causes := Attempt(u, env, t0, contacted, causes);
        if answered {
          done := true;
          assert contacted[..|before|] == before;
          return;
        }
      }
      done, answered := false, false;
    }

    /** The second sweep contacts what the first one skipped. */
    method SecondSweep(list: seq<string>, env: Env, now: int, ghost t0: Tracker, contacted0: seq<string>,
                       causes0: seq<Cause>, tried: set<string>)
      returns (done: bool, run: Run, causes: seq<Cause>)
      requires SweepOk(env, t0, contacted0, |list|, causes0, tracker)
      requires contacted0 == Fresh(list, t0.last, now)
      requires forall u :: u in tried <==> u in contacted0
      modifies this
      ensures done ==> Forwards(env, list, t0.last, now, run) && !run.result.Failed?
      ensures done ==> tracker == TrackerAfter(t0, run.contacted, env.clock, run.result.Answered?)
      ensures !done ==> SweepOk(env, t0, run.contacted, 2 * |list|, causes, tracker) && run.looks == 2 * |list|
      ensures !done ==> run.contacted == Visited(list, t0.last, now, 2 * |list|)
      ensures plaintextFallbacks == old(plaintextFallbacks)
    {
      ghost var path := Path(list, t0.last, now, |list|);
      SecondPath(list, t0.last, now, tried);
      var answered, contacted, place;
      done, answered, contacted, causes, place := SecondLoop(list, env, |list|, t0, path, contacted0, causes0, tried);
      run := Run(contacted, if answered then Answered(env.net(|contacted| - 1).msg) else Ended, |list| + place);
      SweepStops(env, list, t0.last, now, |list|, done, run, place);
    }

    /** Its loop. */
    method SecondLoop(list: seq<string>, env: Env, from: nat, ghost t0: Tracker, ghost path: nat -> seq<string>,
                      contacted0: seq<string>, causes0: seq<Cause>, tried: set<string>)
      returns (done: bool, answered: bool, contacted: seq<string>, causes: seq<Cause>, place: nat)
      requires SweepOk(env, t0, contacted0, from, causes0, tracker) && path(0) == contacted0
      requires forall i: nat :: i < |list| ==> SecondStep(list, tried, path, i)
      modifies this
      ensures Arrives(env, |list|, from, path, done, answered, contacted, place)
      ensures done ==> tracker == TrackerAfter(t0, contacted, env.clock, answered)
      ensures !done ==> FailedSoFar(env, t0, contacted, causes, tracker)
      ensures plaintextFallbacks == old(plaintextFallbacks)
    {
      contacted, causes, place := contacted0, causes0, 0;
      while place < |list|
        invariant place <= |list| && contacted == path(place)
        invariant SweepOk(env, t0, contacted, from + place, causes, tracker)
        invariant plaintextFallbacks == old(plaintextFallbacks)
      {
        if env.ended(from + place) {
          EndArrives(env, |list|, from, path, true, contacted, place);
          return true, false, contacted, causes, place;
        }
        var u := list[place];
        assert SecondStep(list, tried, path, place);
        place := place + 1;
        if u in tried {
          continue;
        }
        ghost var before := contacted;
        answered, contacted, causes := Attempt(u, env, t0, contacted, causes);
        if answered {
          done := true;
          AnswerArrives(env, |list|, from, path, before, u, place);
          return;
        }
      }
      done, answered := false, false;
      EndArrives(env, |list|, from, path, false, contacted, place);
    }

    /** One exchange and what the tracker learns from it. */
    method Attempt(u: string, env: Env, ghost t0: Tracker, before: seq<string>, causes0: seq<Cause>)
      returns (answered: bool, contacted: seq<string>, causes: seq<Cause>)
      requires FailedSoFar(env, t0, before, causes0, tracker)
      modifies this
      ensures contacted == before + [u]
      ensures answered ==> env.net(|before|).Answer? && AllFailed(env.net, |before|)
      ensures answered ==> tracker == TrackerAfter(t0, contacted, env.clock, true)
      ensures !answered ==> FailedSoFar(env, t0, contacted, causes, tracker)
      ensures plaintextFallbacks == old(plaintextFallbacks)
    {
      contacted, causes := before + [u], causes0;
      assert contacted[..|before|] == before;
      var outcome := env.net(|before|);
      if outcome.Answer? {
        RecordSuccess(u);
        return true, contacted, causes;
      }
      RecordFailure(u, env.clock(|before|));
      Snoc(t0, before, u, env);
      causes := causes + [Cause(u, outcome.err)];
      answered := false;
    }

    method ShouldSkip(u: string, now: int) returns (r: bool)
      ensures r <==> Cooling(tracker.last, u, now)
    {
      if u !in tracker.last {
        return false;
      }
      r := now - tracker.last[u] < COOLDOWN;
    }

    method RecordFailure(u: string, now: int)
      modifies this`tracker
      ensures tracker == old(tracker).Fail(u, now)
    {
      tracker := Tracker(tracker.last[u := now], tracker.failures[u := CountOf(tracker.failures, u) + 1]);
    }

    method RecordSuccess(u: string)
      modifies this`tracker
      ensures tracker == old(tracker).Succeed(u)
    {
      tracker := tracker.(last := tracker.last - {u});
    }

    /** countPlaintextFallback: a plain answer counts when the list has an encrypted upstream. */
    method CountPlaintextFallback(used: string, list: seq<string>)
      modifies this`plaintextFallbacks
      ensures plaintextFallbacks == old(plaintextFallbacks) + Fallback(used, list)
    {
      if IsDoH(used) {
        return;
      }
      for i := 0 to |list|
        invariant forall k :: 0 <= k < i ==> !IsDoH(list[k])
        invariant plaintextFallbacks == old(plaintextFallbacks)
      {
        if IsDoH(list[i]) {
          plaintextFallbacks := plaintextFallbacks + 1;
          return;
        }
      }
    }
  }

  // ---- Loop steps --------------------------------------------------------------------

  lemma {:induction false} FreshPrefix(list: seq<string>, i: nat, last: Failures, now: int)
    requires i <= |list|
    ensures Fresh(list[..i], last, now) <= Fresh(list, last, now)
    decreases |list|
  {
    var n := |list| - 1;
    if i <= n {
      FreshPrefix(list[..n], i, last, now);
      assert list[..n][..i] == list[..i];
    } else {
      assert list[..i] == list;
    }
  }

  lemma {:induction false} WaitingPrefix(list: seq<string>, i: nat, last: Failures, now: int)
    requires i <= |list|
    ensures Waiting(list[..i], last, now) <= Waiting(list, last, now)
    decreases |list|
  {
    var n := |list| - 1;
    if i <= n {
      WaitingPrefix(list[..n], i, last, now);
      assert list[..n][..i] == list[..i];
    } else {
      assert list[..i] == list;
    }
  }

  /** What one more look leads to: the entry behind it is contacted unless the sweep skips it. */
  lemma VisitedStep(list: seq<string>, last: Failures, now: int, i: nat)
    requires i < 2 * |list|
    ensures
      var (n, c) := (|list|, Visited(list, last, now, i));
      var u := if i < n then list[i] else list[i - n];
      var goes := if i < n then !Cooling(last, u, now) && u !in c else Cooling(last, u, now);
      Visited(list, last, now, i + 1) == if goes then c + [u] else c
  {
    var n := |list|;
    if i < n {
      assert list[..i + 1][..i] == list[..i];
    } else {
      var j := i - n;
      assert list[..j + 1][..j] == list[..j];
      assert list[..n] == list && list[..0] == [];
      Associate(Fresh(list, last, now), Waiting(list[..j], last, now), [list[j]]);
    }
  }

  lemma VisitedOnce(list: seq<string>, last: Failures, now: int)
    ensures Visited(list, last, now, |list|) == Fresh(list, last, now)
  {
    assert list[..|list|] == list;
  }

  // ---- The path of a sweep -------------------------------------------------------------

  /** What has been contacted in front of each place of a sweep that starts after from looks. */
  ghost function Path(list: seq<string>, last: Failures, now: int, from: nat): nat -> seq<string> {
    (i: nat) => if from + i <= 2 * |list| then Visited(list, last, now, from + i) else []
  }

  /** The first sweep contacts an entry unless it is in cooldown or has been contacted. */
  ghost predicate FirstStep(list: seq<string>, last: Failures, now: int, path: nat -> seq<string>, i: nat)
    requires i < |list|
  {
    path(i + 1) == if !Cooling(last, list[i], now) && list[i] !in path(i) then path(i) + [list[i]] else path(i)
  }

  /** The second one contacts what has not been tried. */
  ghost predicate SecondStep(list: seq<string>, tried: set<string>, path: nat -> seq<string>, i: nat)
    requires i < |list|
  {
    path(i + 1) == if list[i] !in tried then path(i) + [list[i]] else path(i)
  }

  /** A sweep of n entries along the path has stopped at the place: at a look that found the context
      ended, behind the entry that answered, or at the end. */
  ghost predicate Arrives(env: Env, n: nat, from: nat, path: nat -> seq<string>, done: bool, answered: bool,
                          contacted: seq<string>, place: nat)
  {
    && place <= n && contacted == path(place) && Alive(env, from + place) && (answered ==> done)
    && (!done ==> place == n)
    && (done && !answered ==> place < n && env.ended(from + place))
    && if answered then
         && contacted != [] && place > 0 && path(place - 1) == contacted[..|contacted| - 1]
         && AllFailed(env.net, |contacted| - 1) && env.net(|contacted| - 1).Answer?
       else AllFailed(env.net, |contacted|)
  }

  lemma AnswerArrives(env: Env, n: nat, from: nat, path: nat -> seq<string>, before: seq<string>, u: string,
                      place: nat)
    requires 0 < place <= n && path(place - 1) == before && path(place) == before + [u]
    requires Alive(env, from + place) && AllFailed(env.net, |before|) && env.net(|before|).Answer?
    ensures Arrives(env, n, from, path, true, true, before + [u], place)
  {
    assert (before + [u])[..|before|] == before;
  }

  lemma EndArrives(env: Env, n: nat, from: nat, path: nat -> seq<string>, done: bool, contacted: seq<string>,
                   place: nat)
    requires place <= n && contacted == path(place) && Alive(env, from + place) && AllFailed(env.net, |contacted|)
    requires if done then place < n && env.ended(from + place) else place == n
    ensures Arrives(env, n, from, path, done, false, contacted, place)
  {
  }

  lemma FirstPath(list: seq<string>, last: Failures, now: int)
    ensures Path(list, last, now, 0)(0) == []
    ensures forall i: nat :: i < |list| ==> FirstStep(list, last, now, Path(list, last, now, 0), i)
  {
    assert list[..0] == [] && Fresh([], last, now) == [];
    forall i: nat | i < |list| ensures FirstStep(list, last, now, Path(list, last, now, 0), i) {
      FirstStepAt(list, last, now, i);
    }
  }

  lemma FirstStepAt(list: seq<string>, last: Failures, now: int, i: nat)
    requires i < |list|
    ensures FirstStep(list, last, now, Path(list, last, now, 0), i)
  {
    VisitedStep(list, last, now, i);
  }

  lemma SecondPath(list: seq<string>, last: Failures, now: int, tried: set<string>)
    requires forall u :: u in tried <==> u in Fresh(list, last, now)
    ensures Path(list, last, now, |list|)(0) == Fresh(list, last, now)
    ensures forall i: nat :: i < |list| ==> SecondStep(list, tried, Path(list, last, now, |list|), i)
  {
    VisitedOnce(list, last, now);
    forall i: nat | i < |list| ensures SecondStep(list, tried, Path(list, last, now, |list|), i) {
      FreshHas(list, last, now, list[i]);
      SecondStepAt(list, last, now, tried, i);
    }
  }

  lemma SecondStepAt(list: seq<string>, last: Failures, now: int, tried: set<string>, i: nat)
    requires i < |list| && (list[i] in tried <==> !Cooling(last, list[i], now))
    ensures SecondStep(list, tried, Path(list, last, now, |list|), i)
  {
    VisitedStep(list, last, now, |list| + i);
  }

  lemma SweepStops(env: Env, list: seq<string>, last: Failures, now: int, from: nat, done: bool, run: Run, place: nat)
    requires (from == 0 || from == |list|) && run.looks == from + place
    requires Arrives(env, |list|, from, Path(list, last, now, from), done, run.result.Answered?, run.contacted, place)
    requires run.result == if run.result.Answered? then Answered(env.net(|run.contacted| - 1).msg) else Ended
    ensures run.looks <= 2 * |list| && run.contacted == Visited(list, last, now, run.looks)
    ensures done ==> Forwards(env, list, last, now, run) && !run.result.Failed?
  {
  }

  lemma Associate(a: seq<string>, b: seq<string>, c: seq<string>)
    ensures a + (b + c) == a + b + c
  {
  }

  /** What is visited is a prefix of the plan, and after all looks all of it. */
  lemma VisitedIsPlanned(list: seq<string>, last: Failures, now: int, looks: nat)
    requires looks <= 2 * |list|
    ensures Visited(list, last, now, looks) <= Plan(list, last, now)
    ensures looks == 2 * |list| ==> Visited(list, last, now, looks) == Plan(list, last, now)
  {
    var n := |list|;
    if looks <= n {
      FreshPrefix(list, looks, last, now);
    } else {
      WaitingPrefix(list, looks - n, last, now);
    }
    assert list[..n] == list;
  }

  lemma {:induction false} VisitedGrows(list: seq<string>, last: Failures, now: int, i: nat, j: nat)
    requires i <= j <= 2 * |list|
    ensures Visited(list, last, now, i) <= Visited(list, last, now, j)
  {
    if i < j {
      VisitedGrows(list, last, now, i, j - 1);
      VisitedStepGrows(list, last, now, j - 1);
      PrefixOfPrefix(Visited(list, last, now, i), Visited(list, last, now, j - 1), Visited(list, last, now, j));
    }
  }

  lemma VisitedStepGrows(list: seq<string>, last: Failures, now: int, i: nat)
    requires i < 2 * |list|
    ensures Visited(list, last, now, i) <= Visited(list, last, now, i + 1)
  {
    VisitedStep(list, last, now, i);
  }

  lemma PrefixOfPrefix(a: seq<string>, b: seq<string>, c: seq<string>)
    requires a <= b <= c
    ensures a <= c
  {
  }

  /** Without a cause no upstream was contacted, and that is only so for the empty list. */
  lemma NoCauseNoEntry(list: seq<string>, last: Failures, now: int, net: nat -> Outcome)
    requires CausesOf(Visited(list, last, now, 2 * |list|), net) == []
    ensures list == []
  {
    VisitedIsPlanned(list, last, now, 2 * |list|);
    CausesNameAll(Plan(list, last, now), net);
    if list != [] {
      PlanCovers(list, last, now, list[0]);
    }
  }

  lemma Snoc(t: Tracker, contacted: seq<string>, u: string, env: Env)
    requires env.net(|contacted|).Failure?
    ensures FailedAt(t, contacted + [u], env.clock) == FailedAt(t, contacted, env.clock).Fail(u, env.clock(|contacted|))
    ensures CausesOf(contacted + [u], env.net) == CausesOf(contacted, env.net) + [Cause(u, env.net(|contacted|).err)]
  {
    assert (contacted + [u])[..|contacted|] == contacted;
  }

  // ---- What the caller gets ------------------------------------------------------------

  /** The call is determined by what the network, the clock and the context do. */
  lemma ForwardsIsDetermined(env: Env, list: seq<string>, last: Failures, now: int, run: Run, other: Run)
    requires Forwards(env, list, last, now, run) && Forwards(env, list, last, now, other)
    ensures run == other
  {
    if run.looks < other.looks {
      NoLongerRun(env, list, last, now, run, other);
    } else if other.looks < run.looks {
      NoLongerRun(env, list, last, now, other, run);
    }
  }

  /** A run that has stopped while later looks find the context alive has had its answer. */
  lemma StoppedByAnswer(env: Env, list: seq<string>, last: Failures, now: int, run: Run, looks: nat)
    requires Forwards(env, list, last, now, run) && run.looks <= looks < 2 * |list| && Alive(env, looks + 1)
    ensures 0 < |run.contacted| <= |Visited(list, last, now, looks)| && env.net(|run.contacted| - 1).Answer?
  {
    VisitedGrows(list, last, now, run.looks, looks);
  }

  /** Before its last look a run has found the context alive and every exchange failed. */
  lemma FailedBefore(env: Env, list: seq<string>, last: Failures, now: int, run: Run)
    requires Forwards(env, list, last, now, run) && run.looks > 0
    ensures AllFailed(env.net, |Visited(list, last, now, run.looks - 1)|) && Alive(env, run.looks)
  {
    VisitedGrows(list, last, now, run.looks - 1, run.looks);
  }

  /** Where one run stops no run goes on. */
  lemma NoLongerRun(env: Env, list: seq<string>, last: Failures, now: int, run: Run, other: Run)
    requires Forwards(env, list, last, now, run) && Forwards(env, list, last, now, other)
    ensures run.looks >= other.looks
  {
    if run.looks < other.looks {
      FailedBefore(env, list, last, now, other);
      StoppedByAnswer(env, list, last, now, run, other.looks - 1);
    }
  }

  /** Once a look has found the context ended, no further upstream is contacted: the exchanges are
      those of the looks before it. */
  lemma EndedContextStops(env: Env, list: seq<string>, last: Failures, now: int, run: Run, i: nat)
    requires Forwards(env, list, last, now, run) && env.ended(i) && i < 2 * |list|
    ensures run.looks <= i && run.contacted <= Visited(list, last, now, i)
    ensures |run.contacted| <= run.looks
  {
    VisitedGrows(list, last, now, run.looks, i);
    VisitedIsShort(list, last, now, run.looks);
  }

  lemma {:induction false} VisitedIsShort(list: seq<string>, last: Failures, now: int, looks: nat)
    requires looks <= 2 * |list|
    ensures |Visited(list, last, now, looks)| <= looks
  {
    if looks > 0 {
      VisitedIsShort(list, last, now, looks - 1);
      VisitedStep(list, last, now, looks - 1);
    }
  }

  /** The last of the exchanges with u is number k. */
  ghost predicate LastTried(contacted: seq<string>, u: string, k: nat) {
    k < |contacted| && contacted[k] == u && forall i :: k < i < |contacted| ==> contacted[i] != u
  }

  lemma {:induction false} FailuresRemembered(t: Tracker, contacted: seq<string>, clock: nat -> int, u: string)
    ensures
      var last := FailedAt(t, contacted, clock).last;
      if u in contacted then u in last && exists k: nat :: LastTried(contacted, u, k) && last[u] == clock(k)
      else (u in last <==> u in t.last) && (u in last ==> last[u] == t.last[u])
  {
    if contacted != [] {
      var n := |contacted| - 1;
      FailuresRemembered(t, contacted[..n], clock, u);
      assert contacted == contacted[..n] + [contacted[n]];
      var last := FailedAt(t, contacted, clock).last;
      if contacted[n] == u {
        assert LastTried(contacted, u, n) && last[u] == clock(n);
      } else if u in contacted[..n] {
        var k: nat :| LastTried(contacted[..n], u, k) && last[u] == clock(k);
        assert LastTried(contacted, u, k);
      }
    }
  }

  lemma LastTriedOnce(contacted: seq<string>, u: string, j: nat, k: nat)
    requires LastTried(contacted, u, j) && LastTried(contacted, u, k)
    ensures j == k
  {
  }

  /** The last exchange with u failed less than the cooldown before the time. */
  ghost predicate FailedLately(contacted: seq<string>, clock: nat -> int, u: string, time: int) {
    exists k: nat :: LastTried(contacted, u, k) && time - clock(k) < COOLDOWN
  }

  /** Which upstreams are in cooldown after a call: never the one that answered; one that failed in
      the call, for the cooldown from its last failure on; any other as it was before. */
  lemma CooldownAfterCall(env: Env, list: seq<string>, t: Tracker, now: int, run: Run, u: string, time: int)
    requires Forwards(env, list, t.last, now, run)
    ensures
      var c := run.contacted;
      var last := TrackerAfter(t, c, env.clock, run.result.Answered?).last;
      Cooling(last, u, time) <==>
        if run.result.Answered? && u == c[|c| - 1] then false
        else if u in c then FailedLately(c, env.clock, u, time)
        else Cooling(t.last, u, time)
  {
    var c := run.contacted;
    if run.result.Answered? {
      var n := |c| - 1;
      assert c == c[..n] + [c[n]];
      FailuresRemembered(t, c[..n], env.clock, u);
      if u in c && u != c[n] {
        LatelyInPrefix(c, env.clock, u, time);
        OnlyLast(c[..n], env.clock, u);
      }
    } else {
      FailuresRemembered(t, c, env.clock, u);
      OnlyLast(c, env.clock, u);
    }
  }

  /** And each failed exchange of the call has been counted: an answer takes no count back. */
  lemma CountsAfterCall(env: Env, list: seq<string>, t: Tracker, now: int, run: Run, u: string)
    requires Forwards(env, list, t.last, now, run)
    ensures
      var c := run.contacted;
      var failed := if run.result.Answered? then c[..|c| - 1] else c;
      var failures := TrackerAfter(t, c, env.clock, run.result.Answered?).failures;
      && (u in failures <==> u in t.failures || u in failed)
      && (u in failures ==> failures[u] == (if u in t.failures then t.failures[u] else 0) + Count(failed, u))
  {
    var c := run.contacted;
    FailuresCounted(t, if run.result.Answered? then c[..|c| - 1] else c, env.clock, u);
  }

  lemma OnlyLast(contacted: seq<string>, clock: nat -> int, u: string)
    ensures forall j: nat, k: nat :: LastTried(contacted, u, j) && LastTried(contacted, u, k) ==> clock(j) == clock(k)
  {
    forall j: nat, k: nat | LastTried(contacted, u, j) && LastTried(contacted, u, k) ensures clock(j) == clock(k) {
      LastTriedOnce(contacted, u, j, k);
    }
  }

  lemma LatelyInPrefix(c: seq<string>, clock: nat -> int, u: string, time: int)
    requires c != [] && u != c[|c| - 1]
    ensures FailedLately(c, clock, u, time) <==> FailedLately(c[..|c| - 1], clock, u, time)
  {
    var n := |c| - 1;
    forall k: nat ensures LastTried(c, u, k) <==> LastTried(c[..n], u, k) {
    }
  }

  /** So in the first sweep of the next call, whenever and over whatever list it is, the upstream
      that answered has its turn, and one that failed lately has not. */
  lemma NextFirstSweep(env: Env, list: seq<string>, t: Tracker, now: int, run: Run, u: string,
                       list': seq<string>, now': int)
    requires Forwards(env, list, t.last, now, run) && u in list' && u in run.contacted
    ensures
      var c := run.contacted;
      var last := TrackerAfter(t, c, env.clock, run.result.Answered?).last;
      u in Visited(list', last, now', |list'|) <==>
        (run.result.Answered? && u == c[|c| - 1]) || !FailedLately(c, env.clock, u, now')
  {
    var last := TrackerAfter(t, run.contacted, env.clock, run.result.Answered?).last;
    CooldownAfterCall(env, list, t, now, run, u, now');
    VisitedOnce(list', last, now');
    FreshHas(list', last, now', u);
  }

  /** With the encrypted upstreams first, a plain answer means that every encrypted upstream has
      failed in this call or was in cooldown when it began. */
  lemma PlainAnswerIsFallback(env: Env, list: seq<string>, last: Failures, now: int, run: Run, d: string)
    requires Forwards(env, list, last, now, run) && run.result.Answered? && EncryptedFirst(list)
    requires !IsDoH(run.contacted[|run.contacted| - 1]) && d in list && IsDoH(d)
    ensures
      var c := run.contacted;
      Cooling(last, d, now) || exists k: nat :: k < |c| - 1 && c[k] == d && env.net(k).Failure?
  {
    var n := |run.contacted| - 1;
    VisitedIsPlanned(list, last, now, run.looks);
    PlainComesAfter(list, last, now, n, d);
    if !Cooling(last, d, now) {
      var k: nat :| k < n && Plan(list, last, now)[..n][k] == d;
      assert run.contacted[k] == d && env.net(k).Failure?;
    }
  }

  lemma {:induction false} CountTwo(list: seq<string>, i: nat, j: nat)
    requires i < j < |list| && list[i] == list[j]
    ensures Count(list, list[i]) >= 2
  {
    var n := |list| - 1;
    if j < n {
      CountTwo(list[..n], i, j);
    } else {
      assert list[..n][i] == list[i];
      CountIn(list[..n], list[i]);
    }
  }

  /** Then no call contacts an upstream twice, whatever the network does. */
  lemma NeverContactedTwice(env: Env, list: seq<string>, last: Failures, now: int, run: Run, i: nat, j: nat)
    requires Forwards(env, list, last, now, run) && NoCooledTwice(list, last, now)
    requires i < j < |run.contacted|
    ensures run.contacted[i] != run.contacted[j]
  {
    ContactedOnceExactly(list, last, now);
    VisitedIsPlanned(list, last, now, run.looks);
    if run.contacted[i] == run.contacted[j] {
      CountTwo(Plan(list, last, now), i, j);
    }
  }

  lemma {:induction false} CausesNameAll(contacted: seq<string>, net: nat -> Outcome)
    ensures |CausesOf(contacted, net)| == |contacted|
    ensures forall k :: 0 <= k < |contacted| ==> CausesOf(contacted, net)[k].upstream == contacted[k]
  {
    if contacted != [] {
      CausesNameAll(contacted[..|contacted| - 1], net);
    }
  }

  /** For a list without repeats, a total failure names each upstream exactly once. */
  lemma FailureNamesEachOnce(env: Env, list: seq<string>, last: Failures, now: int, run: Run, u: string)
    requires Forwards(env, list, last, now, run) && run.result.Failed?
    requires u in list && Count(list, u) == 1
    ensures
      var (c, causes) := (run.contacted, run.result.causes);
      && |causes| == |c| && Count(c, u) == 1
      && forall k :: 0 <= k < |causes| ==> causes[k].upstream == c[k] && causes[k].err == env.net(k).err
  {
    VisitedIsPlanned(list, last, now, run.looks);
    TurnsOf(list, last, now, u);
    CausesNameAll(run.contacted, env.net);
    CausesErr(run.contacted, env.net);
  }

  lemma {:induction false} CausesErr(contacted: seq<string>, net: nat -> Outcome)
    requires AllFailed(net, |contacted|)
    ensures |CausesOf(contacted, net)| == |contacted|
    ensures forall k: nat :: k < |contacted| ==> net(k).Failure? && CausesOf(contacted, net)[k].err == net(k).err
  {
    if contacted != [] {
      CausesErr(contacted[..|contacted| - 1], net);
    }
  }

  /** While no look finds the context ended, the call succeeds exactly when some exchange of the
      plan would. */
  lemma AnswersWhenOneDoes(env: Env, list: seq<string>, last: Failures, now: int, run: Run)
    requires Forwards(env, list, last, now, run) && !env.ended(run.looks)
    ensures run.result.Answered? <==> exists k: nat :: k < |Plan(list, last, now)| && env.net(k).Answer?
  {
    VisitedIsPlanned(list, last, now, run.looks);
    if run.result.Answered? {
      var k: nat := |run.contacted| - 1;
      assert k < |Plan(list, last, now)| && env.net(k).Answer?;
    }
  }

  /** A call over a list that has "a" twice, with "a" in cooldown and down: it is contacted twice. */
  lemma CooledRepeat() returns (env: Env, run: Run)
    ensures Forwards(env, ["a", "a"], map["a" := 0], 0, run)
    ensures run.contacted == ["a", "a"] && run.result == Failed([Cause("a", 7), Cause("a", 7)])
  {
    env := Env(_ => Failure(7), _ => 0, _ => false);
    run := Run(["a", "a"], Failed([Cause("a", 7), Cause("a", 7)]), 4);
    VisitedTwice();
    CausesTwice(env.net);
  }

  lemma VisitedTwice()
    ensures Visited(["a", "a"], map["a" := 0], 0, 4) == ["a", "a"]
  {
    var list := ["a", "a"];
    assert list[..1] == ["a"] && ["a"][..0] == [] && list[..2] == list;
    assert Fresh(["a"], map["a" := 0], 0) == [] && Waiting(["a"], map["a" := 0], 0) == ["a"];
  }

  lemma CausesTwice(net: nat -> Outcome)
    requires forall k :: net(k) == Failure(7)
    ensures CausesOf(["a", "a"], net) == [Cause("a", 7), Cause("a", 7)]
  {
    assert ["a", "a"][..1] == ["a"] && ["a"][..0] == [];
    assert CausesOf(["a"], net) == [Cause("a", 7)];
  }

  // ---- exchange and checkReply -----------------------------------------------------------

  /** What a transport gives: a reply or an error. */
  type Reply = Outcome

  /** checkReply: a reply to this question; same is the case-insensitive name test. */
  predicate Matches(same: (string, string) -> bool, req: Msg, resp: Msg)
    requires |req.question| == 1
  {
    && resp.response && resp.opcode == 0 && |resp.question| == 1
    && resp.question[0].qtype == req.question[0].qtype && resp.question[0].qclass == req.question[0].qclass
    && same(resp.question[0].name, req.question[0].name)
  }

  /** errReplyMismatch. */
  const MISMATCH: Error := 1

  /** exchange: one encrypted exchange, or UDP and, for a truncated reply, TCP. */
  function Exchange(same: (string, string) -> bool, req: Msg, u: string, doh: Reply, udp: Reply, tcp: Reply): Outcome
    requires |req.question| == 1
  {
    if IsDoH(u) then
      if doh.Failure? then doh else if Matches(same, req, doh.msg) then doh else Failure(MISMATCH)
    else if udp.Failure? then udp
    else if !Matches(same, req, udp.msg) then Failure(MISMATCH)
    else if !udp.msg.truncated then udp
    else if tcp.Failure? || !Matches(same, req, tcp.msg) then udp
    else tcp
  }

  /** A transport has delivered a reply to the question asked. */
  predicate Good(same: (string, string) -> bool, req: Msg, reply: Reply)
    requires |req.question| == 1
  {
    reply.Answer? && Matches(same, req, reply.msg)
  }

  /** Whatever the transports deliver: an encrypted exchange succeeds exactly when its reply is to the
      question asked; a plain one exactly when the UDP reply is, and then it gives the TCP reply if
      the UDP one is truncated and the TCP one is to the question, and the UDP one otherwise.  A
      failure is the transport's or the mismatch. */
  lemma ExchangeIsSound(same: (string, string) -> bool, req: Msg, u: string, doh: Reply, udp: Reply, tcp: Reply)
    requires |req.question| == 1
    ensures
      var r := Exchange(same, req, u, doh, udp, tcp);
      var first := if IsDoH(u) then doh else udp;
      && (r.Answer? <==> Good(same, req, first))
      && (r.Answer? ==>
            Good(same, req, r)
            && r == if !IsDoH(u) && udp.msg.truncated && Good(same, req, tcp) then tcp else first)
      && (r.Failure? ==> r == if first.Failure? then first else Failure(MISMATCH))
  {
  }
}
