/** internal/stats/stats.go: the lock-free counters under concurrency.  Any number of queries
    bump their counters one atomic step at a time while any number of Snapshots load the
    counters one at a time; the order of the loads is what keeps a snapshot consistent. */
module Snapshots {

  datatype Field =
    | Total | Blocked | CnameBlocked | LocalPTR | LocalName | CacheHit | ForwardFailure | UpstreamError

  /** The counter steps of one query, in program order (handler.go): total first, then the one
      outcome; a block by a CNAME target also bumps its own counter after blocked. */
  ghost predicate Program(p: seq<Field>) {
    || p == [Total] || p == [Total, Blocked] || p == [Total, Blocked, CnameBlocked]
    || (|p| == 2 && p[0] == Total && Outcome(p[1]))
  }

  /** The counters of which one query bumps at most one. */
  predicate Outcome(f: Field) {
    f != Total && f != CnameBlocked
  }

  /** Snapshot's loads, in code order. */
  const CODE_ORDER: seq<Field> :=
    [CnameBlocked, Blocked, LocalPTR, LocalName, CacheHit, ForwardFailure, UpstreamError, Total]

  datatype Counters = Counters(
    total: nat, blocked: nat, cnameBlocked: nat, localPTR: nat, localName: nat,
    cacheHit: nat, forwardFailures: nat, upstreamErrors: nat)
  {
    function Get(f: Field): nat {
      match f
      case Total => total
      case Blocked => blocked
      case CnameBlocked => cnameBlocked
      case LocalPTR => localPTR
      case LocalName => localName
      case CacheHit => cacheHit
      case ForwardFailure => forwardFailures
      case UpstreamError => upstreamErrors
    }

    /** One atomic add. */
    function Inc(f: Field): (c: Counters)
      ensures forall g: Field :: c.Get(g) == Get(g) + if g == f then 1 else 0
    {
      match f
      case Total => this.(total := total + 1)
      case Blocked => this.(blocked := blocked + 1)
      case CnameBlocked => this.(cnameBlocked := cnameBlocked + 1)
      case LocalPTR => this.(localPTR := localPTR + 1)
      case LocalName => this.(localName := localName + 1)
      case CacheHit => this.(cacheHit := cacheHit + 1)
      case ForwardFailure => this.(forwardFailures := forwardFailures + 1)
      case UpstreamError => this.(upstreamErrors := upstreamErrors + 1)
    }

    /** The outcomes together. */
    function Outcomes(): nat {
      blocked + localPTR + localName + cacheHit + forwardFailures + upstreamErrors
    }
  }

  datatype Query = Query(program: seq<Field>, pc: nat)

  /** A Snapshot in progress: the values of the first |loaded| fields of the load order. */
  datatype Reader = Reader(loaded: seq<nat>)

  datatype State = State(counters: Counters, queries: seq<Query>, readers: seq<Reader>)

  datatype Step = Arrive(program: seq<Field>) | Bump(query: nat) | Open | Load(reader: nat)

  ghost predicate WellFormed(s: State) {
    forall i :: 0 <= i < |s.queries| ==> Program(s.queries[i].program) && s.queries[i].pc <= |s.queries[i].program|
  }

  ghost predicate Enabled(order: seq<Field>, s: State, step: Step) {
    match step
    case Arrive(p) => Program(p)
    case Bump(q) => q < |s.queries| && s.queries[q].pc < |s.queries[q].program|
    case Open => true
    case Load(r) => r < |s.readers| && |s.readers[r].loaded| < |order|
  }

  ghost function Apply(order: seq<Field>, s: State, step: Step): State
    requires WellFormed(s) && Enabled(order, s, step)
  {
    match step
    case Arrive(p) => s.(queries := s.queries + [Query(p, 0)])
    case Bump(q) =>
      var f := s.queries[q].program[s.queries[q].pc];
      s.(counters := s.counters.Inc(f),
         queries := s.queries[q := s.queries[q].(pc := s.queries[q].pc + 1)])
    case Open => s.(readers := s.readers + [Reader([])])
    case Load(r) =>
      var l := s.readers[r].loaded;
      s.(readers := s.readers[r := Reader(l + [s.counters.Get(order[|l|])])])
  }

  const INITIAL := State(Counters(0, 0, 0, 0, 0, 0, 0, 0), [], [])

  /** t is reached from s by the steps. */
  ghost predicate Run(order: seq<Field>, s: State, steps: seq<Step>, t: State)
    decreases |steps|
  {
    if steps == [] then s == t
    else WellFormed(s) && Enabled(order, s, steps[0]) && Run(order, Apply(order, s, steps[0]), steps[1..], t)
  }

  // ---- The counters equal what the queries have executed --------------------

  function Done(q: Query, f: Field): nat {
    if q.pc <= |q.program| && f in q.program[..q.pc] then 1 else 0
  }

  function Executed(qs: seq<Query>, f: Field): nat {
    if qs == [] then 0 else Executed(qs[..|qs| - 1], f) + Done(qs[|qs| - 1], f)
  }

  lemma {:induction false} ExecutedUpdate(qs: seq<Query>, i: nat, q: Query, f: Field)
    requires i < |qs|
    ensures Executed(qs[i := q], f) + Done(qs[i], f) == Executed(qs, f) + Done(q, f)
  {
    var n := |qs| - 1;
    if i < n {
      ExecutedUpdate(qs[..n], i, q, f);
      assert qs[i := q][..n] == qs[..n][i := q];
    } else {
      assert qs[i := q][..n] == qs[..n];
    }
  }

  /** One query: at most one outcome, after total; cnameBlocked after blocked. */
  lemma OneQuery(q: Query)
    requires Program(q.program) && q.pc <= |q.program|
    ensures Done(q, CnameBlocked) <= Done(q, Blocked)
    ensures Done(q, Blocked) + Done(q, LocalPTR) + Done(q, LocalName) + Done(q, CacheHit)
            + Done(q, ForwardFailure) + Done(q, UpstreamError) <= Done(q, Total)
  {
    var done := q.program[..q.pc];
    if q.pc > 0 {
      assert done[0] == Total;
    }
    if q.pc > 1 {
      assert done[1] == q.program[1];
    }
  }

  lemma {:induction false} ManyQueries(qs: seq<Query>)
    requires forall i :: 0 <= i < |qs| ==> Program(qs[i].program) && qs[i].pc <= |qs[i].program|
    ensures Executed(qs, CnameBlocked) <= Executed(qs, Blocked)
    ensures Executed(qs, Blocked) + Executed(qs, LocalPTR) + Executed(qs, LocalName) + Executed(qs, CacheHit)
            + Executed(qs, ForwardFailure) + Executed(qs, UpstreamError) <= Executed(qs, Total)
  {
    if qs != [] {
      var n := |qs| - 1;
      ManyQueries(qs[..n]);
      OneQuery(qs[n]);
    }
  }

  // ---- Which load orders are safe -------------------------------------------

  /** Every field is loaded once. */
  ghost predicate Complete(order: seq<Field>) {
    && (forall f: Field :: f in order)
    && forall i, j :: 0 <= i < j < |order| ==> order[i] != order[j]
  }

  /** Where the order loads f. */
  function Pos(order: seq<Field>, f: Field): (r: nat)
    requires f in order
    ensures r < |order| && order[r] == f
  {
    if order[|order| - 1] == f then |order| - 1 else Pos(order[..|order| - 1], f)
  }

  /** total is loaded after every outcome, and blocked after cnameBlocked. */
  ghost predicate SafeOrder(order: seq<Field>)
    requires Complete(order)
  {
    && Pos(order, CnameBlocked) < Pos(order, Blocked)
    && forall f :: Outcome(f) ==> Pos(order, f) < Pos(order, Total)
  }

  /** The value of f as the reader will finally see it, seen from now: the loaded value, or for
      a field not yet loaded the current one.  For a finished reader it is the value returned. */
  ghost function Seen(order: seq<Field>, c: Counters, loaded: seq<nat>, f: Field): nat
    requires Complete(order)
  {
    if Pos(order, f) < |loaded| then loaded[Pos(order, f)] else c.Get(f)
  }

  ghost function SeenSum(order: seq<Field>, c: Counters, loaded: seq<nat>): nat
    requires Complete(order)
  {
    Seen(order, c, loaded, Blocked) + Seen(order, c, loaded, LocalPTR) + Seen(order, c, loaded, LocalName)
    + Seen(order, c, loaded, CacheHit) + Seen(order, c, loaded, ForwardFailure) + Seen(order, c, loaded, UpstreamError)
  }

  /** What a snapshot must satisfy: no subset larger than its whole. */
  ghost predicate Consistent(order: seq<Field>, c: Counters, loaded: seq<nat>)
    requires Complete(order)
  {
    && Seen(order, c, loaded, CnameBlocked) <= Seen(order, c, loaded, Blocked)
    && SeenSum(order, c, loaded) <= Seen(order, c, loaded, Total)
  }

  /** The invariant of one reader: seen from now, the snapshot is already consistent. */
  ghost predicate ReaderOk(order: seq<Field>, c: Counters, r: Reader)
    requires Complete(order)
  {
    |r.loaded| <= |order| && Consistent(order, c, r.loaded)
  }

  ghost predicate Inv(order: seq<Field>, s: State)
    requires Complete(order)
  {
    && WellFormed(s)
    && (forall f: Field :: s.counters.Get(f) == Executed(s.queries, f))
    && forall i :: 0 <= i < |s.readers| ==>
          ReaderOk(order, s.counters, s.readers[i]) && Behind(order, s.counters, s.readers[i])
  }

  /** A loaded value is at most the current one. */
  ghost predicate Behind(order: seq<Field>, c: Counters, r: Reader)
  {
    |r.loaded| <= |order| && forall i :: 0 <= i < |r.loaded| ==> r.loaded[i] <= c.Get(order[i])
  }

  lemma SeenAfterLoad(order: seq<Field>, c: Counters, loaded: seq<nat>, f: Field)
    requires Complete(order) && |loaded| < |order|
    ensures Seen(order, c, loaded + [c.Get(order[|loaded|])], f) == Seen(order, c, loaded, f)
  {
  }

  /** A bump keeps every loaded value and moves the others upward; once total is loaded no
      outcome can still move, and once blocked is loaded cnameBlocked cannot. */
  lemma BumpKeepsReader(order: seq<Field>, c: Counters, c': Counters, r: Reader)
    requires Complete(order) && SafeOrder(order)
    requires ReaderOk(order, c, r)
    requires Behind(order, c, r)
    requires forall f: Field :: c.Get(f) <= c'.Get(f)
    requires c'.cnameBlocked <= c'.blocked && c'.Outcomes() <= c'.total
    ensures ReaderOk(order, c', r) && Behind(order, c', r)
  {
    assert Outcome(Blocked) && Outcome(LocalPTR) && Outcome(LocalName) && Outcome(CacheHit);
    assert Outcome(ForwardFailure) && Outcome(UpstreamError);
  }

  lemma BumpCounted(qs: seq<Query>, k: nat, f: Field)
    requires k < |qs| && Program(qs[k].program) && qs[k].pc < |qs[k].program|
    ensures
      var q := qs[k];
      Executed(qs[k := q.(pc := q.pc + 1)], f) == Executed(qs, f) + if f == q.program[q.pc] then 1 else 0
  {
    var q := qs[k];
    ExecutedUpdate(qs, k, q.(pc := q.pc + 1), f);
    assert q.program[..q.pc + 1] == q.program[..q.pc] + [q.program[q.pc]];
    assert q.pc > 0 ==> q.program[..q.pc][0] == q.program[0];
    assert q.pc > 1 ==> q.program[..q.pc][1] == q.program[1];
  }

  /** The counters after a step still equal what the queries have executed. */
  lemma CountersFollow(order: seq<Field>, s: State, step: Step)
    requires WellFormed(s) && Enabled(order, s, step)
    requires forall f: Field :: s.counters.Get(f) == Executed(s.queries, f)
    ensures var t := Apply(order, s, step);
            WellFormed(t) && forall f: Field :: t.counters.Get(f) == Executed(t.queries, f)
  {
    var t := Apply(order, s, step);
    match step
    case Arrive(p) =>
      assert t.queries[..|s.queries|] == s.queries;
    case Bump(k) =>
      forall f: Field ensures t.counters.Get(f) == Executed(t.queries, f) {
        BumpCounted(s.queries, k, f);
      }
    case Open =>
    case Load(_) =>
  }

  lemma StepKeepsInv(order: seq<Field>, s: State, step: Step)
    requires Complete(order) && SafeOrder(order) && Inv(order, s) && Enabled(order, s, step)
    ensures Inv(order, Apply(order, s, step))
  {
    var t := Apply(order, s, step);
    CountersFollow(order, s, step);
    CountersOrdered(t.counters, t.queries);
    forall i | 0 <= i < |t.readers|
      ensures ReaderOk(order, t.counters, t.readers[i]) && Behind(order, t.counters, t.readers[i])
    {
      if step.Load? && step.reader == i {
        LoadKeepsReader(order, s.counters, s.readers[i]);
      } else if step.Open? && i == |s.readers| {
        FreshReader(order, t.counters);
      } else {
        BumpKeepsReader(order, s.counters, t.counters, s.readers[i]);
      }
    }
  }

  lemma CountersOrdered(c: Counters, qs: seq<Query>)
    requires forall i :: 0 <= i < |qs| ==> Program(qs[i].program) && qs[i].pc <= |qs[i].program|
    requires forall f: Field :: c.Get(f) == Executed(qs, f)
    ensures c.cnameBlocked <= c.blocked && c.Outcomes() <= c.total
  {
    ManyQueries(qs);
    assert c.Get(Total) == c.total && c.Get(Blocked) == c.blocked && c.Get(CnameBlocked) == c.cnameBlocked;
    assert c.Get(LocalPTR) == c.localPTR && c.Get(LocalName) == c.localName && c.Get(CacheHit) == c.cacheHit;
    assert c.Get(ForwardFailure) == c.forwardFailures && c.Get(UpstreamError) == c.upstreamErrors;
  }

  lemma LoadKeepsReader(order: seq<Field>, c: Counters, r: Reader)
    requires Complete(order) && ReaderOk(order, c, r) && Behind(order, c, r) && |r.loaded| < |order|
    ensures
      var r' := Reader(r.loaded + [c.Get(order[|r.loaded|])]);
      ReaderOk(order, c, r') && Behind(order, c, r')
  {
    forall f: Field { SeenAfterLoad(order, c, r.loaded, f); }
  }

  lemma FreshReader(order: seq<Field>, c: Counters)
    requires Complete(order) && c.cnameBlocked <= c.blocked && c.Outcomes() <= c.total
    ensures ReaderOk(order, c, Reader([])) && Behind(order, c, Reader([]))
  {
  }

  lemma {:induction false} RunKeepsInv(order: seq<Field>, s: State, steps: seq<Step>, t: State)
    requires Complete(order) && SafeOrder(order) && Inv(order, s) && Run(order, s, steps, t)
    ensures Inv(order, t)
    decreases |steps|
  {
    if steps != [] {
      StepKeepsInv(order, s, steps[0]);
      RunKeepsInv(order, Apply(order, s, steps[0]), steps[1..], t);
    }
  }

  /** Every snapshot of every run is consistent, for every safe load order. */
  lemma SafeOrderIsConsistent(order: seq<Field>, steps: seq<Step>, t: State, r: nat)
    requires Complete(order) && SafeOrder(order) && Run(order, INITIAL, steps, t)
    requires r < |t.readers|
    ensures Consistent(order, t.counters, t.readers[r].loaded)
  {
    RunKeepsInv(order, INITIAL, steps, t);
  }

  lemma CodeOrderIsSafe()
    ensures Complete(CODE_ORDER) && SafeOrder(CODE_ORDER)
  {
    var o := CODE_ORDER;
    assert o[0] == CnameBlocked && o[1] == Blocked && o[2] == LocalPTR && o[3] == LocalName;
    assert o[4] == CacheHit && o[5] == ForwardFailure && o[6] == UpstreamError && o[7] == Total;
    forall f: Field ensures f in o {
      match f
      case Total => case Blocked => case CnameBlocked => case LocalPTR =>
      case LocalName => case CacheHit => case ForwardFailure => case UpstreamError =>
    }
  }

  /** What the dashboard computes from a snapshot: no share exceeds 100 %. */
  lemma SnapshotRatios(steps: seq<Step>, t: State, r: nat)
    requires Run(CODE_ORDER, INITIAL, steps, t)
    requires r < |t.readers| && |t.readers[r].loaded| == 8
    ensures
      var v := t.readers[r].loaded;
      var total: int, blocked: int, hits: int := v[7], v[1], v[4];
      var forwardable: int := total - blocked - v[2] - v[3];
      && v[0] <= blocked <= total
      && 0 <= hits <= forwardable
      && (total > 0 ==> blocked as real / total as real * 100.0 <= 100.0)
      && (forwardable > 0 ==> hits as real / forwardable as real * 100.0 <= 100.0)
  {
    CodeOrderIsSafe();
    SafeOrderIsConsistent(CODE_ORDER, steps, t, r);
    var v := t.readers[r].loaded;
    forall i | 0 <= i < 8 ensures Seen(CODE_ORDER, t.counters, v, CODE_ORDER[i]) == v[i] {
    }
    assert Seen(CODE_ORDER, t.counters, v, CODE_ORDER[0]) == v[0]
           && Seen(CODE_ORDER, t.counters, v, CODE_ORDER[1]) == v[1];
    assert Seen(CODE_ORDER, t.counters, v, CODE_ORDER[2]) == v[2]
           && Seen(CODE_ORDER, t.counters, v, CODE_ORDER[3]) == v[3];
    assert Seen(CODE_ORDER, t.counters, v, CODE_ORDER[4]) == v[4]
           && Seen(CODE_ORDER, t.counters, v, CODE_ORDER[5]) == v[5];
    assert Seen(CODE_ORDER, t.counters, v, CODE_ORDER[6]) == v[6]
           && Seen(CODE_ORDER, t.counters, v, CODE_ORDER[7]) == v[7];
    Share(v[1], v[7]);
    Share(v[4], v[7] - v[1] - v[2] - v[3]);
  }

  lemma Share(part: int, whole: int)
    requires 0 <= part <= whole
    ensures whole > 0 ==> part as real / whole as real * 100.0 <= 100.0
  {
    if whole > 0 {
      assert part as real / whole as real <= 1.0;
    }
  }

  // ---- Every other load order fails -----------------------------------------

  lemma {:induction false} RunAppend(order: seq<Field>, s: State, a: seq<Step>, t: State, b: seq<Step>, u: State)
    requires Run(order, s, a, t) && Run(order, t, b, u)
    ensures Run(order, s, a + b, u)
    decreases |a|
  {
    if a == [] {
      assert a + b == b;
    } else {
      RunAppend(order, Apply(order, s, a[0]), a[1..], t, b, u);
      assert (a + b)[1..] == a[1..] + b;
    }
  }

  /** The only reader goes on to m loads, undisturbed. */
  lemma {:induction false} LoadMany(order: seq<Field>, s: State, m: nat) returns (steps: seq<Step>, t: State)
    requires WellFormed(s) && |s.readers| == 1 && |s.readers[0].loaded| <= m <= |order|
    ensures Run(order, s, steps, t) && t.counters == s.counters && t.queries == s.queries
    ensures |t.readers| == 1 && |t.readers[0].loaded| == m && s.readers[0].loaded <= t.readers[0].loaded
    ensures forall i :: |s.readers[0].loaded| <= i < m ==> t.readers[0].loaded[i] == s.counters.Get(order[i])
    decreases m - |s.readers[0].loaded|
  {
    steps, t := [], s;
    if |s.readers[0].loaded| < m {
      var s' := Apply(order, s, Load(0));
      steps, t := LoadMany(order, s', m);
      steps := [Load(0)] + steps;
      assert s'.readers[0].loaded[|s.readers[0].loaded|] == s.counters.Get(order[|s.readers[0].loaded|]);
    }
  }

  /** The only query runs to its end. */
  lemma {:induction false} BumpRest(order: seq<Field>, s: State) returns (steps: seq<Step>, t: State)
    requires WellFormed(s) && |s.queries| == 1
    ensures Run(order, s, steps, t) && WellFormed(t) && t.readers == s.readers
    ensures forall f: Field :: t.counters.Get(f) >= s.counters.Get(f) &&
                               (f in s.queries[0].program[s.queries[0].pc..] ==> t.counters.Get(f) > s.counters.Get(f))
    decreases |s.queries[0].program| - s.queries[0].pc
  {
    steps, t := [], s;
    var q := s.queries[0];
    if q.pc < |q.program| {
      var s' := Apply(order, s, Bump(0));
      steps, t := BumpRest(order, s');
      steps := [Bump(0)] + steps;
      assert q.program[q.pc..] == [q.program[q.pc]] + q.program[q.pc + 1..];
    }
  }

  /** A query that comes and finishes right after the load of g, with f loaded later: the
      snapshot sees it in f and not in g. */
  lemma Interleave(order: seq<Field>, p: seq<Field>, f: Field, g: Field) returns (steps: seq<Step>, t: State)
    requires Complete(order) && Program(p) && f in p && Pos(order, g) < Pos(order, f)
    ensures Run(order, INITIAL, steps, t) && |t.readers| == 1 && |t.readers[0].loaded| == |order|
    ensures t.readers[0].loaded[Pos(order, g)] == 0 < t.readers[0].loaded[Pos(order, f)]
  {
    var s1 := Apply(order, INITIAL, Open);
    assert Run(order, INITIAL, [Open], s1);
    var a, s2 := LoadMany(order, s1, Pos(order, g) + 1);
    var s3 := Apply(order, s2, Arrive(p));
    assert Run(order, s2, [Arrive(p)], s3);
    assert s3.queries[0].program[0..] == p;
    var b, s4 := BumpRest(order, s3);
    var c, s5 := LoadMany(order, s4, |order|);
    steps, t := [Open] + a + [Arrive(p)] + b + c, s5;
    RunAppend(order, INITIAL, [Open], s1, a, s2);
    RunAppend(order, INITIAL, [Open] + a, s2, [Arrive(p)], s3);
    RunAppend(order, INITIAL, [Open] + a + [Arrive(p)], s3, b, s4);
    RunAppend(order, INITIAL, [Open] + a + [Arrive(p)] + b, s4, c, s5);
  }

  /** Any load order that breaks the rule has a run in which a snapshot is inconsistent. */
  lemma UnsafeOrderFails(order: seq<Field>) returns (steps: seq<Step>, t: State)
    requires Complete(order) && !SafeOrder(order)
    ensures Run(order, INITIAL, steps, t) && |t.readers| == 1 && |t.readers[0].loaded| == |order|
    ensures !Consistent(order, t.counters, t.readers[0].loaded)
  {
    if Pos(order, CnameBlocked) >= Pos(order, Blocked) {
      steps, t := Interleave(order, [Total, Blocked, CnameBlocked], CnameBlocked, Blocked);
    } else {
      var f :| Outcome(f) && Pos(order, f) >= Pos(order, Total);
      assert [Total, f][1] == f;
      steps, t := Interleave(order, [Total, f], f, Total);
      CountedOutsideTotal(order, t.counters, t.readers[0].loaded, f);
    }
  }

  lemma CountedOutsideTotal(order: seq<Field>, c: Counters, loaded: seq<nat>, f: Field)
    requires Complete(order) && Outcome(f)
    requires Seen(order, c, loaded, f) > 0 && Seen(order, c, loaded, Total) == 0
    ensures !Consistent(order, c, loaded)
  {
    match f
    case Total => case CnameBlocked =>
    case Blocked => case LocalPTR => case LocalName =>
    case CacheHit => case ForwardFailure => case UpstreamError =>
  }
}
