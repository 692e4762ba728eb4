/** internal/dnsserver/dot.go, limitListener and limitConn: the connection-slot limiter as a
    step system.  Any number of Accept and Close calls interleave.  slots counts the tokens in
    the channel; it is an int, so that "a receive finds a token" is something to prove. */
module SlotLimiter {

  /** An Accept call: waiting in the select, holding a slot inside the inner Accept, returned. */
  datatype Call = Waiting | Holding | Returned

  /** An accepted connection: how often Close was called on it and how often it gave its slot back. */
  datatype Conn = Conn(closes: nat, releases: nat)

  datatype State = State(slots: int, done: bool, calls: seq<Call>, conns: seq<Conn>)

  const INITIAL := State(0, false, [], [])

  datatype Step =
    | Enter | Acquire(a: nat) | Abort(a: nat) | Accepted(a: nat) | Failed(a: nat)
    | CloseConn(c: nat) | CloseListener

  predicate Enabled(n: nat, s: State, step: Step) {
    match step
    case Enter => true
    case Acquire(a) => a < |s.calls| && s.calls[a] == Waiting && s.slots < n
    case Abort(a) => a < |s.calls| && s.calls[a] == Waiting && s.done
    case Accepted(a) => a < |s.calls| && s.calls[a] == Holding
    case Failed(a) => a < |s.calls| && s.calls[a] == Holding
    case CloseConn(c) => c < |s.conns|
    case CloseListener => true
  }

  /** The step takes a token back from the channel; it would block on an empty one. */
  predicate Releases(s: State, step: Step) {
    step.Failed? || (step.CloseConn? && step.c < |s.conns| && s.conns[step.c].releases == 0)
  }

  function Apply(n: nat, s: State, step: Step): State
    requires Enabled(n, s, step)
  {
    match step
    case Enter => s.(calls := s.calls + [Waiting])
    case Acquire(a) => s.(slots := s.slots + 1, calls := s.calls[a := Holding])
    case Abort(a) => s.(calls := s.calls[a := Returned])
    case Accepted(a) => s.(calls := s.calls[a := Returned], conns := s.conns + [Conn(0, 0)])
    case Failed(a) => s.(slots := s.slots - 1, calls := s.calls[a := Returned])
    case CloseConn(c) =>
      // once.Do runs the release on the first call only
      var k := s.conns[c];
      if k.releases == 0 then
        s.(slots := s.slots - 1, conns := s.conns[c := Conn(k.closes + 1, 1)])
      else
        s.(conns := s.conns[c := k.(closes := k.closes + 1)])
    case CloseListener => s.(done := true)
  }

  ghost predicate Reached(n: nat, steps: seq<Step>, s: State) {
    if steps == [] then s == INITIAL
    else
      var k := |steps| - 1;
      exists r :: Reached(n, steps[..k], r) && Enabled(n, r, steps[k]) && s == Apply(n, r, steps[k])
  }

  function HoldingCalls(calls: seq<Call>): nat {
    if calls == [] then 0 else HoldingCalls(calls[..|calls| - 1]) + if calls[|calls| - 1] == Holding then 1 else 0
  }

  /** Connections that have not given their slot back. */
  function OpenConns(conns: seq<Conn>): nat {
    if conns == [] then 0 else OpenConns(conns[..|conns| - 1]) + if conns[|conns| - 1].releases == 0 then 1 else 0
  }

  lemma {:induction false} CallsUpdate(calls: seq<Call>, i: nat, v: Call)
    requires i < |calls|
    ensures HoldingCalls(calls[i := v]) + (if calls[i] == Holding then 1 else 0) ==
            HoldingCalls(calls) + if v == Holding then 1 else 0
  {
    var n := |calls| - 1;
    if i < n {
      CallsUpdate(calls[..n], i, v);
      assert calls[i := v][..n] == calls[..n][i := v];
    } else {
      assert calls[i := v][..n] == calls[..n];
    }
  }

  lemma {:induction false} ConnsUpdate(conns: seq<Conn>, i: nat, v: Conn)
    requires i < |conns|
    ensures OpenConns(conns[i := v]) + (if conns[i].releases == 0 then 1 else 0) ==
            OpenConns(conns) + if v.releases == 0 then 1 else 0
  {
    var n := |conns| - 1;
    if i < n {
      ConnsUpdate(conns[..n], i, v);
      assert conns[i := v][..n] == conns[..n][i := v];
    } else {
      assert conns[i := v][..n] == conns[..n];
    }
  }

  ghost predicate Inv(n: nat, s: State) {
    && s.slots == HoldingCalls(s.calls) + OpenConns(s.conns)
    && s.slots <= n
    && forall i :: 0 <= i < |s.conns| ==> s.conns[i].releases == if s.conns[i].closes > 0 then 1 else 0
  }

  lemma CallsSnoc(calls: seq<Call>, v: Call)
    ensures HoldingCalls(calls + [v]) == HoldingCalls(calls) + if v == Holding then 1 else 0
  {
    assert (calls + [v])[..|calls|] == calls;
  }

  lemma ConnsSnoc(conns: seq<Conn>, v: Conn)
    ensures OpenConns(conns + [v]) == OpenConns(conns) + if v.releases == 0 then 1 else 0
  {
    assert (conns + [v])[..|conns|] == conns;
  }

  lemma CloseKeepsInv(n: nat, s: State, c: nat)
    requires Inv(n, s) && Enabled(n, s, CloseConn(c))
    ensures Inv(n, Apply(n, s, CloseConn(c)))
  {
    ConnsUpdate(s.conns, c, Apply(n, s, CloseConn(c)).conns[c]);
  }

  lemma StepKeepsInv(n: nat, s: State, step: Step)
    requires Inv(n, s) && Enabled(n, s, step)
    ensures Inv(n, Apply(n, s, step))
  {
    match step
    case Enter => CallsSnoc(s.calls, Waiting);
    case Acquire(a) => CallsUpdate(s.calls, a, Holding);
    case Abort(a) => CallsUpdate(s.calls, a, Returned);
    case Accepted(a) =>
      CallsUpdate(s.calls, a, Returned);
      ConnsSnoc(s.conns, Conn(0, 0));
    case Failed(a) => CallsUpdate(s.calls, a, Returned);
    case CloseConn(c) => CloseKeepsInv(n, s, c);
    case CloseListener =>
  }

  /** In every run the occupied slots are the Accepts in progress and the connections not yet
      released, never more than n; a connection gives its slot back exactly once, when it is
      first closed, however often Close is called. */
  lemma {:induction false} ReachedKeepsInv(n: nat, steps: seq<Step>, s: State)
    requires Reached(n, steps, s)
    ensures Inv(n, s)
  {
    if steps != [] {
      var k := |steps| - 1;
      var r :| Reached(n, steps[..k], r) && Enabled(n, r, steps[k]) && s == Apply(n, r, steps[k]);
      ReachedKeepsInv(n, steps[..k], r);
      StepKeepsInv(n, r, steps[k]);
    }
  }

  /** A release always finds a token, so no Close and no failed Accept ever blocks. */
  lemma ReleaseNeverBlocks(n: nat, steps: seq<Step>, s: State, step: Step)
    requires Reached(n, steps, s) && Enabled(n, s, step) && Releases(s, step)
    ensures s.slots > 0 && Apply(n, s, step).slots == s.slots - 1
  {
    ReachedKeepsInv(n, steps, s);
    match step
    case Failed(a) => CallsUpdate(s.calls, a, Returned);
    case CloseConn(c) => ConnsUpdate(s.conns, c, Conn(1, 1));
    case _ =>
  }

  /** No slot leaks: with no Accept in progress and every connection closed, all n are free. */
  lemma {:induction false} AllClosedAllFree(n: nat, steps: seq<Step>, s: State)
    requires Reached(n, steps, s)
    requires forall i :: 0 <= i < |s.calls| ==> s.calls[i] != Holding
    requires forall i :: 0 <= i < |s.conns| ==> s.conns[i].closes > 0
    ensures s.slots == 0
  {
    ReachedKeepsInv(n, steps, s);
    NoneHolding(s.calls);
    NoneOpen(s.conns);
  }

  lemma {:induction false} NoneHolding(calls: seq<Call>)
    requires forall i :: 0 <= i < |calls| ==> calls[i] != Holding
    ensures HoldingCalls(calls) == 0
  {
    if calls != [] { NoneHolding(calls[..|calls| - 1]); }
  }

  lemma {:induction false} NoneOpen(conns: seq<Conn>)
    requires forall i :: 0 <= i < |conns| ==> conns[i].releases > 0
    ensures OpenConns(conns) == 0
  {
    if conns != [] { NoneOpen(conns[..|conns| - 1]); }
  }

  // ---- What the run did, and what can come next ---------------------------------

  /** How often the run took the step. */
  function Occurs(steps: seq<Step>, step: Step): nat {
    if steps == [] then 0 else Occurs(steps[..|steps| - 1], step) + if steps[|steps| - 1] == step then 1 else 0
  }

  function Opened(steps: seq<Step>): nat {
    if steps == [] then 0 else Opened(steps[..|steps| - 1]) + if steps[|steps| - 1].Accepted? then 1 else 0
  }

  /** The call has returned: given up, with a connection, or with the inner error. */
  predicate Ends(steps: seq<Step>, a: nat) {
    Abort(a) in steps || Accepted(a) in steps || Failed(a) in steps
  }

  /** Where a call stands, by the steps that have moved it. */
  ghost predicate CallLedger(steps: seq<Step>, s: State, a: nat) {
    && (Ends(steps, a) <==> a < |s.calls| && s.calls[a] == Returned)
    && (Acquire(a) in steps && !Ends(steps, a) <==> a < |s.calls| && s.calls[a] == Holding)
  }

  /** Each Accept call stands where its steps have taken it. */
  ghost predicate CallsLedger(steps: seq<Step>, s: State) {
    |s.calls| == Occurs(steps, Enter) && forall a: nat :: CallLedger(steps, s, a)
  }

  /** Each connection counts its closes, and the listener remembers its own. */
  ghost predicate ConnsLedger(steps: seq<Step>, s: State) {
    && |s.conns| == Opened(steps) && (s.done <==> CloseListener in steps)
    && forall c: nat :: Occurs(steps, CloseConn(c)) == if c < |s.conns| then s.conns[c].closes else 0
  }

  lemma OccursSnoc(steps: seq<Step>, step: Step, x: Step)
    ensures Occurs(steps + [step], x) == Occurs(steps, x) + if x == step then 1 else 0
    ensures Opened(steps + [step]) == Opened(steps) + if step.Accepted? then 1 else 0
  {
    assert (steps + [step])[..|steps|] == steps;
  }

  lemma EndsSnoc(steps: seq<Step>, step: Step, a: nat)
    ensures Ends(steps + [step], a) <==> Ends(steps, a) || step == Abort(a) || step == Accepted(a) || step == Failed(a)
    ensures Acquire(a) in steps + [step] <==> Acquire(a) in steps || step == Acquire(a)
  {
  }

  lemma StepKeepsCall(n: nat, steps: seq<Step>, s: State, step: Step, a: nat)
    requires CallLedger(steps, s, a) && Enabled(n, s, step)
    ensures CallLedger(steps + [step], Apply(n, s, step), a)
  {
    EndsSnoc(steps, step, a);
    match step
    case Enter =>
    case Acquire(b) =>
    case Abort(b) =>
    case Accepted(b) =>
    case Failed(b) =>
    case CloseConn(_) =>
    case CloseListener =>
  }

  lemma StepKeepsCalls(n: nat, steps: seq<Step>, s: State, step: Step)
    requires CallsLedger(steps, s) && Enabled(n, s, step)
    ensures CallsLedger(steps + [step], Apply(n, s, step))
  {
    OccursSnoc(steps, step, Enter);
    forall a: nat ensures CallLedger(steps + [step], Apply(n, s, step), a) {
      StepKeepsCall(n, steps, s, step, a);
    }
  }

  lemma StepKeepsConns(n: nat, steps: seq<Step>, s: State, step: Step)
    requires ConnsLedger(steps, s) && Enabled(n, s, step)
    ensures ConnsLedger(steps + [step], Apply(n, s, step))
  {
    OccursSnoc(steps, step, Enter);
    var t := Apply(n, s, step);
    forall c: nat
      ensures Occurs(steps + [step], CloseConn(c)) == if c < |t.conns| then t.conns[c].closes else 0
    {
      OccursSnoc(steps, step, CloseConn(c));
      assert Occurs(steps, CloseConn(c)) == if c < |s.conns| then s.conns[c].closes else 0;
    }
  }

  /** In every run the state says exactly what has happened: which Accepts were started, hold a
      slot or have returned, how often each connection was closed, and whether the listener was. */
  lemma {:induction false} ReachedKeepsLedger(n: nat, steps: seq<Step>, s: State)
    requires Reached(n, steps, s)
    ensures CallsLedger(steps, s) && ConnsLedger(steps, s)
  {
    if steps != [] {
      var k := |steps| - 1;
      var r :| Reached(n, steps[..k], r) && Enabled(n, r, steps[k]) && s == Apply(n, r, steps[k]);
      ReachedKeepsLedger(n, steps[..k], r);
      StepKeepsCalls(n, steps[..k], r, steps[k]);
      StepKeepsConns(n, steps[..k], r, steps[k]);
      assert steps == steps[..k] + [steps[k]];
    }
  }

  /** A waiting Accept can take a slot exactly when fewer than n are held by Accepts and open
      connections, and can give up once the listener is closed; whoever holds a slot can give it
      back, and after that every waiting Accept can go on. */
  lemma WaitingGoesOn(n: nat, steps: seq<Step>, s: State, a: nat, step: Step)
    requires Reached(n, steps, s) && a < |s.calls| && s.calls[a] == Waiting
    ensures Enabled(n, s, Acquire(a)) <==> HoldingCalls(s.calls) + OpenConns(s.conns) < n
    ensures Enabled(n, s, Abort(a)) <==> CloseListener in steps
    ensures Enabled(n, s, step) && Releases(s, step) ==> Enabled(n, Apply(n, s, step), Acquire(a))
  {
    ReachedKeepsInv(n, steps, s);
    ReachedKeepsLedger(n, steps, s);
    assert CallLedger(steps, s, a);
    if Enabled(n, s, step) && Releases(s, step) {
      ReleaseNeverBlocks(n, steps, s, step);
    }
  }

  /** With every slot taken, one of them can be given back: an Accept that holds one can fail, or a
      connection that has not been closed can be. */
  lemma FullCanRelease(n: nat, steps: seq<Step>, s: State) returns (step: Step)
    requires Reached(n, steps, s) && s.slots == n > 0
    ensures Enabled(n, s, step) && Releases(s, step)
  {
    ReachedKeepsInv(n, steps, s);
    if a: nat :| a < |s.calls| && s.calls[a] == Holding {
      step := Failed(a);
    } else if c: nat :| c < |s.conns| && s.conns[c].releases == 0 {
      step := CloseConn(c);
    } else {
      NoneHolding(s.calls);
      NoneOpen(s.conns);
    }
  }

  /** Starting an Accept and closing the listener never wait. */
  lemma CallersNeverWait(n: nat, s: State)
    ensures Enabled(n, s, Enter) && Enabled(n, s, CloseListener)
  {
  }
}
