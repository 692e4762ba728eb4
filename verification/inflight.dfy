/** internal/dnsserver/handler.go with many queries in flight: each query goes through its steps on
    its own, and the steps of all queries, list changes, purges and sweeps interleave freely. */
module InFlight {
  import opened Message
  import opened CacheKey
  import opened QueryRecord
  import opened QueryHandler
  import opened Wrappers
  import Pipeline
  import ResponseCache
  import Snapshots

  /** Where a query is: before the early checks, before the cache, before the forward, before the
      store, before the chain check with the answer it has, bumping counters, before the log,
      before the reply, answered. */
  datatype Stage =
    | Arrived
    | Looking
    | Forwarding
    | Storing
    | Judging(msg: Msg, hit: bool)
    | Counting(v: Verdict, pc: nat)
    | Logging(v: Verdict)
    | Replying(v: Verdict)
    | Done(v: Verdict)

  datatype Flight = Flight(a: Arrival, stage: Stage)

  /** origin says which query stored an entry; gone holds the queries that were past their store
      at the last purge. */
  datatype State = State(
    lists: Lists, cache: ResponseCache.State, counters: Snapshots.Counters, log: seq<Record>, replies: seq<Msg>,
    flights: seq<Flight>, origin: map<string, nat>, gone: set<nat>)

  const START := State(Lists({}, {}), ResponseCache.EMPTY, Pipeline.ZERO, [], [], [], map[], {})

  datatype Step =
    | Arrive(a: Arrival) | Check(q: nat) | Look(q: nat) | Forward(q: nat) | Store(q: nat) | Judge(q: nat)
    | Bump(q: nat) | Log(q: nat) | Reply(q: nat)
    | SetLists(lists: Lists) | Flush | Sweep(now: int)

  /** The steps of one query. */
  predicate OfQuery(step: Step) {
    !step.Arrive? && !step.SetLists? && !step.Flush? && !step.Sweep?
  }

  /** The query is not past its store. */
  predicate BeforeStore(stage: Stage) {
    stage.Arrived? || stage.Looking? || stage.Forwarding? || stage.Storing?
  }

  ghost predicate Enabled(s: State, step: Step) {
    OfQuery(step) ==>
      && step.q < |s.flights|
      && var (f, at) := (s.flights[step.q], s.flights[step.q].stage);
         match step
         case Check(_) => at.Arrived?
         case Look(_) => at.Looking? && |f.a.req.question| == 1
         case Forward(_) => at.Forwarding?
         case Store(_) => at.Storing? && f.a.forward.Replied?
         case Judge(_) => at.Judging? && |f.a.req.question| == 1
         case Bump(_) => at.Counting? && at.pc < |Bumps(at.v)|
         case Log(_) => at.Logging? && Counted(at.v) && |f.a.req.question| == 1
         case Reply(_) => at.Replying? && (Counted(at.v) ==> |f.a.req.question| == 1)
         case _ => true
  }

  /** The stage after pc counter steps of a verdict. */
  function Settled(v: Verdict, pc: nat): Stage {
    if pc < |Bumps(v)| then Counting(v, pc) else if Counted(v) then Logging(v) else Replying(v)
  }

  function RecordFor(c: Config, a: Arrival, v: Verdict): Record
    requires Counted(v) && |a.req.question| == 1
  {
    RecordOf(c, v, a.client, Domain(c, a.req))
  }

  function Move(s: State, q: nat, stage: Stage): State
    requires q < |s.flights|
  {
    s.(flights := s.flights[q := s.flights[q].(stage := stage)])
  }

  ghost function Apply(c: Config, s: State, step: Step): State
    requires Enabled(s, step)
  {
    match step
    case Arrive(a) => s.(flights := s.flights + [Flight(a, Arrived)])
    case Check(q) =>
      var early := Early(c, s.lists, s.flights[q].a);
      Move(s, q, if early.Some? then Settled(early.value, 0) else Looking)
    case Look(q) => LookUp(c, s, q)
    case Forward(q) => Move(s, q, if s.flights[q].a.forward.Replied? then Storing else Settled(Unresolved, 0))
    case Store(q) => Keep(c, s, q)
    case Judge(q) =>
      var (a, at) := (s.flights[q].a, s.flights[q].stage);
      Move(s, q, Settled(Judged(c, s.lists, a, at.msg, at.hit), 0))
    case Bump(q) => CountOne(s, q, s.flights[q].stage.v, s.flights[q].stage.pc)
    case Log(q) => Write(s, q, s.flights[q].stage.v, RecordFor(c, s.flights[q].a, s.flights[q].stage.v))
    case Reply(q) => Answer(s, q, s.flights[q].stage.v, ReplyOf(c, s.flights[q].stage.v, s.flights[q].a.req))
    case SetLists(lists) => s.(lists := lists)
    case Flush =>
      s.(cache := ResponseCache.Next(c.codes, c.maxSize, s.cache, ResponseCache.Flush), origin := map[],
         gone := set q | 0 <= q < |s.flights| && !BeforeStore(s.flights[q].stage))
    case Sweep(now) => s.(cache := ResponseCache.Next(c.codes, c.maxSize, s.cache, ResponseCache.Sweep(now)))
  }

  function CountOne(s: State, q: nat, v: Verdict, pc: nat): State
    requires q < |s.flights| && pc < |Bumps(v)|
  {
    Move(s, q, Settled(v, pc + 1)).(counters := s.counters.Inc(Bumps(v)[pc]))
  }

  function Write(s: State, q: nat, v: Verdict, r: Record): State
    requires q < |s.flights|
  {
    Move(s, q, Replying(v)).(log := s.log + [r])
  }

  function Answer(s: State, q: nat, v: Verdict, reply: Msg): State
    requires q < |s.flights|
  {
    Move(s, q, Done(v)).(replies := s.replies + [reply])
  }

  ghost function Judged(c: Config, lists: Lists, a: Arrival, m: Msg, hit: bool): Verdict
    requires |a.req.question| == 1
  {
    if ChainBlocked(c, lists, Domain(c, a.req), m) then Block(ByCname) else if hit then Hit(m) else Relayed(m)
  }

  function LookUp(c: Config, s: State, q: nat): State
    requires q < |s.flights|
  {
    var a := s.flights[q].a;
    if !c.cacheOn then Move(s, q, Forwarding)
    else
      var m := Cached(c, s.cache.entries, a);
      Move(s, q, if m.Some? then Judging(m.value, true) else Forwarding)
        .(cache := ResponseCache.Next(c.codes, c.maxSize, s.cache, ResponseCache.Get(a.req, a.t1, a.t2)))
  }

  function SetOf(a: Arrival): ResponseCache.Op
    requires a.forward.Replied?
  {
    ResponseCache.Set(a.req, Stripped(a.forward.msg), a.t3, a.order)
  }

  function Keep(c: Config, s: State, q: nat): State
    requires q < |s.flights| && s.flights[q].a.forward.Replied?
  {
    var a := s.flights[q].a;
    if c.cacheOn then KeepIn(c, s, q, ResponseCache.Next(c.codes, c.maxSize, s.cache, SetOf(a)))
    else Move(s, q, Judging(Stripped(a.forward.msg), false))
  }

  /** The state after a store that leaves the given cache. */
  function KeepIn(c: Config, s: State, q: nat, cache: ResponseCache.State): State
    requires q < |s.flights| && s.flights[q].a.forward.Replied?
  {
    Move(s, q, Judging(Stripped(s.flights[q].a.forward.msg), false))
      .(cache := cache, origin := Origin(c, s, q, cache.entries))
  }

  /** The query becomes the origin of its key when its own entry is now there. */
  function Origin(c: Config, s: State, q: nat, entries: map<string, ResponseCache.Entry>): map<string, nat>
    requires q < |s.flights| && s.flights[q].a.forward.Replied?
  {
    var k := KeyOf(c.codes, s.flights[q].a.req);
    if k.Some? && k.value in entries && IsEntryOf(s.flights[q].a, entries[k.value]) then s.origin[k.value := q]
    else s.origin
  }

  /** The entry that the query's answer gives. */
  predicate IsEntryOf(a: Arrival, e: ResponseCache.Entry) {
    a.forward.Replied? && e == ResponseCache.NewEntry(Stripped(a.forward.msg), a.t3)
  }

  ghost predicate Reached(c: Config, steps: seq<Step>, s: State) {
    if steps == [] then s == START
    else
      var n := |steps| - 1;
      exists r :: Reached(c, steps[..n], r) && Enabled(r, steps[n]) && s == Apply(c, r, steps[n])
  }

  // ---- Each query --------------------------------------------------------------------------

  predicate VerdictOk(a: Arrival, v: Verdict) {
    (Counted(v) <==> Pipeline.Accepted(a)) && (v.Hit? ==> v.msg.rcode == NOERROR)
  }

  /** What holds of a query at its stage. */
  predicate FlightOk(f: Flight) {
    match f.stage
    case Arrived => true
    case Looking => Pipeline.Accepted(f.a)
    case Forwarding => Pipeline.Accepted(f.a)
    case Storing => Pipeline.Accepted(f.a) && f.a.forward.Replied?
    case Judging(m, hit) => Pipeline.Accepted(f.a) && (hit ==> m.rcode == NOERROR)
    case Counting(v, pc) => VerdictOk(f.a, v) && pc < |Bumps(v)|
    case Logging(v) => VerdictOk(f.a, v) && Counted(v)
    case Replying(v) => VerdictOk(f.a, v)
    case Done(v) => VerdictOk(f.a, v)
  }

  /** The counter steps of f that a query has taken. */
  function Taken(fl: Flight, f: Snapshots.Field): nat {
    match fl.stage
    case Counting(v, pc) => if pc <= |Bumps(v)| && f in Bumps(v)[..pc] then 1 else 0
    case Logging(v) => if f in Bumps(v) then 1 else 0
    case Replying(v) => if f in Bumps(v) then 1 else 0
    case Done(v) => if f in Bumps(v) then 1 else 0
    case _ => 0
  }

  /** Whether its record is in the log and counts for f. */
  function Written(c: Config, fl: Flight, f: Snapshots.Field): nat {
    if (fl.stage.Replying? || fl.stage.Done?) && Counted(fl.stage.v) && |fl.a.req.question| == 1
       && Pipeline.Fits(f, RecordFor(c, fl.a, fl.stage.v)) then 1 else 0
  }

  function Answered(fl: Flight): nat {
    if fl.stage.Done? then 1 else 0
  }

  function SumTaken(fls: seq<Flight>, f: Snapshots.Field): nat {
    if fls == [] then 0 else SumTaken(fls[..|fls| - 1], f) + Taken(fls[|fls| - 1], f)
  }

  function SumWritten(c: Config, fls: seq<Flight>, f: Snapshots.Field): nat {
    if fls == [] then 0 else SumWritten(c, fls[..|fls| - 1], f) + Written(c, fls[|fls| - 1], f)
  }

  function SumAnswered(fls: seq<Flight>): nat {
    if fls == [] then 0 else SumAnswered(fls[..|fls| - 1]) + Answered(fls[|fls| - 1])
  }

  lemma {:induction false} SumsUpdate(c: Config, fls: seq<Flight>, q: nat, fl: Flight, f: Snapshots.Field)
    requires q < |fls|
    ensures SumTaken(fls[q := fl], f) + Taken(fls[q], f) == SumTaken(fls, f) + Taken(fl, f)
    ensures SumWritten(c, fls[q := fl], f) + Written(c, fls[q], f) == SumWritten(c, fls, f) + Written(c, fl, f)
    ensures SumAnswered(fls[q := fl]) + Answered(fls[q]) == SumAnswered(fls) + Answered(fl)
  {
    var n := |fls| - 1;
    if q < n {
      SumsUpdate(c, fls[..n], q, fl, f);
      assert fls[q := fl][..n] == fls[..n][q := fl];
    } else {
      assert fls[q := fl][..n] == fls[..n];
    }
  }

  lemma SumsSnoc(c: Config, fls: seq<Flight>, fl: Flight, f: Snapshots.Field)
    ensures SumTaken(fls + [fl], f) == SumTaken(fls, f) + Taken(fl, f)
    ensures SumWritten(c, fls + [fl], f) == SumWritten(c, fls, f) + Written(c, fl, f)
    ensures SumAnswered(fls + [fl]) == SumAnswered(fls) + Answered(fl)
  {
    assert (fls + [fl])[..|fls|] == fls;
  }

  // ---- The invariant ------------------------------------------------------------------------

  ghost predicate SumsOk(c: Config, s: State) {
    && (forall f :: s.counters.Get(f) == SumTaken(s.flights, f))
    && (forall f :: Pipeline.CountLog(f, s.log) == SumWritten(c, s.flights, f))
    && |s.replies| == SumAnswered(s.flights)
  }

  ghost predicate Inv(c: Config, s: State) {
    && ResponseCache.Inv(s.cache, c.maxSize)
    && (forall q :: 0 <= q < |s.flights| ==> FlightOk(s.flights[q]))
    && SumsOk(c, s)
  }

  /** A step of query q that moves it to fl and changes the totals by what fl has more. */
  lemma MoveKeepsSums(c: Config, s: State, t: State, q: nat, fl: Flight)
    requires SumsOk(c, s) && q < |s.flights| && t.flights == s.flights[q := fl]
    requires forall f :: t.counters.Get(f) + Taken(s.flights[q], f) == s.counters.Get(f) + Taken(fl, f)
    requires forall f :: Pipeline.CountLog(f, t.log) + Written(c, s.flights[q], f)
                         == Pipeline.CountLog(f, s.log) + Written(c, fl, f)
    requires |t.replies| + Answered(s.flights[q]) == |s.replies| + Answered(fl)
    ensures SumsOk(c, t)
  {
    forall f ensures t.counters.Get(f) == SumTaken(t.flights, f) {
      SumsUpdate(c, s.flights, q, fl, f);
    }
    forall f ensures Pipeline.CountLog(f, t.log) == SumWritten(c, t.flights, f) {
      SumsUpdate(c, s.flights, q, fl, f);
    }
    SumsUpdate(c, s.flights, q, fl, Snapshots.Total);
  }

  /** A step that only changes the stage, between stages that have taken and written the same. */
  lemma QuietKeepsSums(c: Config, s: State, t: State, q: nat, stage: Stage)
    requires SumsOk(c, s) && q < |s.flights| && t.flights == s.flights[q := s.flights[q].(stage := stage)]
    requires t.counters == s.counters && t.log == s.log && t.replies == s.replies
    requires Fresh(s.flights[q].stage) && Fresh(stage)
    ensures SumsOk(c, t)
  {
    MoveKeepsSums(c, s, t, q, s.flights[q].(stage := stage));
  }

  /** No counter step has been taken and nothing has been written. */
  predicate Fresh(stage: Stage) {
    BeforeStore(stage) || stage.Judging? || (stage.Counting? && stage.pc == 0)
    || (stage.Replying? && !Counted(stage.v))
  }

  lemma SettledIsFresh(v: Verdict)
    ensures Fresh(Settled(v, 0))
  {
  }

  // ---- Each step keeps the invariant ---------------------------------------------------------

  lemma EarlyVerdictOk(c: Config, lists: Lists, a: Arrival)
    ensures Early(c, lists, a).Some? ==> VerdictOk(a, Early(c, lists, a).value)
    ensures Early(c, lists, a).None? ==> Pipeline.Accepted(a)
  {
  }

  lemma SettledOk(a: Arrival, v: Verdict)
    requires VerdictOk(a, v)
    ensures FlightOk(Flight(a, Settled(v, 0)))
  {
  }

  lemma QuietKeepsInv(c: Config, s: State, t: State, q: nat, stage: Stage)
    requires Inv(c, s) && q < |s.flights| && t.flights == s.flights[q := s.flights[q].(stage := stage)]
    requires t.counters == s.counters && t.log == s.log && t.replies == s.replies
    requires Fresh(s.flights[q].stage) && Fresh(stage) && FlightOk(Flight(s.flights[q].a, stage))
    requires ResponseCache.Inv(t.cache, c.maxSize)
    ensures Inv(c, t)
  {
    QuietKeepsSums(c, s, t, q, stage);
  }

  lemma CheckKeepsInv(c: Config, s: State, q: nat)
    requires Inv(c, s) && Enabled(s, Check(q))
    ensures Inv(c, Apply(c, s, Check(q)))
  {
    var a := s.flights[q].a;
    var early := Early(c, s.lists, a);
    EarlyVerdictOk(c, s.lists, a);
    if early.Some? {
      SettledOk(a, early.value);
      SettledIsFresh(early.value);
    }
    QuietKeepsInv(c, s, Apply(c, s, Check(q)), q, if early.Some? then Settled(early.value, 0) else Looking);
  }

  lemma LookKeepsInv(c: Config, s: State, q: nat)
    requires Inv(c, s) && Enabled(s, Look(q))
    ensures Inv(c, Apply(c, s, Look(q)))
  {
    var a := s.flights[q].a;
    var m := Cached(c, s.cache.entries, a);
    ResponseCache.NextKeepsInv(c.codes, c.maxSize, s.cache, ResponseCache.Get(a.req, a.t1, a.t2));
    if m.Some? {
      ResponseCache.LookupMeans(c.codes, s.cache.entries, a.req, a.t1, a.t2);
    }
    assert FlightOk(s.flights[q]);
    QuietKeepsInv(c, s, LookUp(c, s, q), q, if m.Some? then Judging(m.value, true) else Forwarding);
  }

  lemma ForwardKeepsInv(c: Config, s: State, q: nat)
    requires Inv(c, s) && Enabled(s, Forward(q))
    ensures Inv(c, Apply(c, s, Forward(q)))
  {
    assert FlightOk(s.flights[q]);
    SettledOk(s.flights[q].a, Unresolved);
    SettledIsFresh(Unresolved);
    var stage := if s.flights[q].a.forward.Replied? then Storing else Settled(Unresolved, 0);
    QuietKeepsInv(c, s, Apply(c, s, Forward(q)), q, stage);
  }

  lemma StoreKeepsInv(c: Config, s: State, q: nat)
    requires Inv(c, s) && Enabled(s, Store(q))
    ensures Inv(c, Apply(c, s, Store(q)))
  {
    assert FlightOk(s.flights[q]);
    var a := s.flights[q].a;
    ResponseCache.NextKeepsInv(c.codes, c.maxSize, s.cache, SetOf(a));
    QuietKeepsInv(c, s, Keep(c, s, q), q, Judging(Stripped(a.forward.msg), false));
  }

  lemma JudgeKeepsInv(c: Config, s: State, q: nat)
    requires Inv(c, s) && Enabled(s, Judge(q))
    ensures Inv(c, Apply(c, s, Judge(q)))
  {
    assert FlightOk(s.flights[q]);
    var (a, at) := (s.flights[q].a, s.flights[q].stage);
    var v := Judged(c, s.lists, a, at.msg, at.hit);
    SettledOk(a, v);
    SettledIsFresh(v);
    QuietKeepsInv(c, s, Apply(c, s, Judge(q)), q, Settled(v, 0));
  }

  /** One more counter step of a verdict. */
  lemma TakenNext(a: Arrival, v: Verdict, pc: nat, f: Snapshots.Field)
    requires pc < |Bumps(v)|
    ensures Taken(Flight(a, Settled(v, pc + 1)), f)
            == Taken(Flight(a, Counting(v, pc)), f) + if f == Bumps(v)[pc] then 1 else 0
  {
    var fs := Bumps(v);
    assert fs[..pc + 1] == fs[..pc] + [fs[pc]];
    assert fs[..|fs|] == fs;
  }

  lemma CountersNext(k: Snapshots.Counters, a: Arrival, v: Verdict, pc: nat)
    requires pc < |Bumps(v)|
    ensures forall f :: k.Inc(Bumps(v)[pc]).Get(f) + Taken(Flight(a, Counting(v, pc)), f)
                        == k.Get(f) + Taken(Flight(a, Settled(v, pc + 1)), f)
  {
    forall f ensures k.Inc(Bumps(v)[pc]).Get(f) + Taken(Flight(a, Counting(v, pc)), f)
                     == k.Get(f) + Taken(Flight(a, Settled(v, pc + 1)), f)
    {
      TakenNext(a, v, pc, f);
    }
  }

  /** A query has moved on and the totals with it. */
  lemma MovedKeepsInv(c: Config, s: State, t: State, q: nat, stage: Stage)
    requires Inv(c, s) && q < |s.flights| && t.flights == s.flights[q := s.flights[q].(stage := stage)]
    requires t.cache == s.cache && SumsOk(c, t) && FlightOk(Flight(s.flights[q].a, stage))
    ensures Inv(c, t)
  {
  }

  lemma CountKeepsSums(c: Config, s: State, q: nat, v: Verdict, pc: nat)
    requires SumsOk(c, s) && q < |s.flights| && s.flights[q].stage == Counting(v, pc) && pc < |Bumps(v)|
    ensures SumsOk(c, CountOne(s, q, v, pc))
  {
    var a := s.flights[q].a;
    CountersNext(s.counters, a, v, pc);
    MoveKeepsSums(c, s, CountOne(s, q, v, pc), q, Flight(a, Settled(v, pc + 1)));
  }

  lemma WriteKeepsSums(c: Config, s: State, q: nat, v: Verdict, r: Record)
    requires SumsOk(c, s) && q < |s.flights| && s.flights[q].stage == Logging(v)
    requires Counted(v) && |s.flights[q].a.req.question| == 1 && r == RecordFor(c, s.flights[q].a, v)
    ensures SumsOk(c, Write(s, q, v, r))
  {
    var (fl, gl) := (s.flights[q], Flight(s.flights[q].a, Replying(v)));
    WrittenNext(c, fl.a, v, s.log, r);
    MoveKeepsSums(c, s, Write(s, q, v, r), q, gl);
  }

  lemma WrittenNext(c: Config, a: Arrival, v: Verdict, log: seq<Record>, r: Record)
    requires Counted(v) && |a.req.question| == 1 && r == RecordFor(c, a, v)
    ensures forall f :: Pipeline.CountLog(f, log + [r]) + Written(c, Flight(a, Logging(v)), f)
                        == Pipeline.CountLog(f, log) + Written(c, Flight(a, Replying(v)), f)
  {
    Pipeline.LogSnoc(log, r);
  }

  lemma AnswerKeepsSums(c: Config, s: State, q: nat, v: Verdict, reply: Msg)
    requires SumsOk(c, s) && q < |s.flights| && s.flights[q].stage == Replying(v)
    ensures SumsOk(c, Answer(s, q, v, reply))
  {
    MoveKeepsSums(c, s, Answer(s, q, v, reply), q, Flight(s.flights[q].a, Done(v)));
  }

  lemma CountKeepsInv(c: Config, s: State, q: nat, v: Verdict, pc: nat)
    requires Inv(c, s) && q < |s.flights| && s.flights[q].stage == Counting(v, pc) && pc < |Bumps(v)|
    ensures Inv(c, CountOne(s, q, v, pc))
  {
    assert FlightOk(s.flights[q]);
    CountKeepsSums(c, s, q, v, pc);
    MovedKeepsInv(c, s, CountOne(s, q, v, pc), q, Settled(v, pc + 1));
  }

  lemma WriteKeepsInv(c: Config, s: State, q: nat, v: Verdict, r: Record)
    requires Inv(c, s) && q < |s.flights| && s.flights[q].stage == Logging(v)
    requires Counted(v) && |s.flights[q].a.req.question| == 1 && r == RecordFor(c, s.flights[q].a, v)
    ensures Inv(c, Write(s, q, v, r))
  {
    assert FlightOk(s.flights[q]);
    WriteKeepsSums(c, s, q, v, r);
    MovedKeepsInv(c, s, Write(s, q, v, r), q, Replying(v));
  }

  lemma AnswerKeepsInv(c: Config, s: State, q: nat, v: Verdict, reply: Msg)
    requires Inv(c, s) && q < |s.flights| && s.flights[q].stage == Replying(v)
    ensures Inv(c, Answer(s, q, v, reply))
  {
    assert FlightOk(s.flights[q]);
    AnswerKeepsSums(c, s, q, v, reply);
    MovedKeepsInv(c, s, Answer(s, q, v, reply), q, Done(v));
  }

  lemma ArriveKeepsInv(c: Config, s: State, a: Arrival)
    requires Inv(c, s)
    ensures Inv(c, Apply(c, s, Arrive(a)))
  {
    forall f {
      SumsSnoc(c, s.flights, Flight(a, Arrived), f);
    }
    SumsSnoc(c, s.flights, Flight(a, Arrived), Snapshots.Total);
  }

  /** Nothing but the lists, the cache and the account of its entries has changed. */
  lemma OnlyCacheChanged(c: Config, s: State, t: State)
    requires Inv(c, s) && ResponseCache.Inv(t.cache, c.maxSize)
    requires t.flights == s.flights && t.counters == s.counters && t.log == s.log && t.replies == s.replies
    ensures Inv(c, t)
  {
  }

  lemma OutsideKeepsInv(c: Config, s: State, step: Step)
    requires Inv(c, s) && (step.SetLists? || step.Flush? || step.Sweep?)
    ensures Inv(c, Apply(c, s, step))
  {
    var t := Apply(c, s, step);
    if step.Flush? {
      ResponseCache.NextKeepsInv(c.codes, c.maxSize, s.cache, ResponseCache.Flush);
    } else if step.Sweep? {
      ResponseCache.NextKeepsInv(c.codes, c.maxSize, s.cache, ResponseCache.Sweep(step.now));
    }
    OnlyCacheChanged(c, s, t);
  }

  lemma StepKeepsInv(c: Config, s: State, step: Step)
    requires Inv(c, s) && Enabled(s, step)
    ensures Inv(c, Apply(c, s, step))
  {
    match step
    case Arrive(a) => ArriveKeepsInv(c, s, a);
    case Check(q) => CheckKeepsInv(c, s, q);
    case Look(q) => LookKeepsInv(c, s, q);
    case Forward(q) => ForwardKeepsInv(c, s, q);
    case Store(q) => StoreKeepsInv(c, s, q);
    case Judge(q) => JudgeKeepsInv(c, s, q);
    case Bump(q) => CountKeepsInv(c, s, q, s.flights[q].stage.v, s.flights[q].stage.pc);
    case Log(q) =>
      var v := s.flights[q].stage.v;
      WriteKeepsInv(c, s, q, v, RecordFor(c, s.flights[q].a, v));
    case Reply(q) =>
      var v := s.flights[q].stage.v;
      AnswerKeepsInv(c, s, q, v, ReplyOf(c, v, s.flights[q].a.req));
    case _ => OutsideKeepsInv(c, s, step);
  }

  lemma {:induction false} ReachedKeepsInv(c: Config, steps: seq<Step>, s: State)
    requires Reached(c, steps, s)
    ensures Inv(c, s)
  {
    if steps != [] {
      var n := |steps| - 1;
      var r :| Reached(c, steps[..n], r) && Enabled(r, steps[n]) && s == Apply(c, r, steps[n]);
      ReachedKeepsInv(c, steps[..n], r);
      StepKeepsInv(c, r, steps[n]);
    }
  }

  /** A query that is not answered can always take its next step. */
  lemma NeverStuck(c: Config, steps: seq<Step>, s: State, q: nat) returns (step: Step)
    requires Reached(c, steps, s) && q < |s.flights| && !s.flights[q].stage.Done?
    ensures OfQuery(step) && step.q == q && Enabled(s, step)
  {
    ReachedKeepsInv(c, steps, s);
    assert FlightOk(s.flights[q]);
    step := match s.flights[q].stage
      case Arrived => Check(q)
      case Looking => Look(q)
      case Forwarding => Forward(q)
      case Storing => Store(q)
      case Judging(_, _) => Judge(q)
      case Counting(_, _) => Bump(q)
      case Logging(_) => Log(q)
      case _ => Reply(q);
  }

  // ---- The accounts -----------------------------------------------------------------------

  /** The counters whose records are told apart in the log. */
  predicate Separate(f: Snapshots.Field) {
    f != Snapshots.LocalPTR && f != Snapshots.LocalName
  }

  /** A verdict bumps a counter exactly when its record counts for it. */
  lemma VerdictBalances(c: Config, a: Arrival, v: Verdict, f: Snapshots.Field)
    requires Counted(v) && |a.req.question| == 1 && (v.Hit? ==> v.msg.rcode == NOERROR)
    ensures Separate(f) ==> (f in Bumps(v) <==> Pipeline.Fits(f, RecordFor(c, a, v)))
    ensures Snapshots.LocalPTR in Bumps(v) || Snapshots.LocalName in Bumps(v)
            <==> Pipeline.Fits(Snapshots.LocalPTR, RecordFor(c, a, v))
    ensures !(Snapshots.LocalPTR in Bumps(v) && Snapshots.LocalName in Bumps(v))
  {
  }

  /** One query: what is written has been counted, and when it is answered both are the same. */
  lemma FlightBalances(c: Config, fl: Flight, f: Snapshots.Field)
    requires FlightOk(fl)
    ensures Separate(f) ==> Written(c, fl, f) <= Taken(fl, f)
    ensures Written(c, fl, Snapshots.LocalPTR) <= Taken(fl, Snapshots.LocalPTR) + Taken(fl, Snapshots.LocalName)
    ensures fl.stage.Done? && Separate(f) ==> Written(c, fl, f) == Taken(fl, f)
    ensures fl.stage.Done? ==>
              Written(c, fl, Snapshots.LocalPTR) == Taken(fl, Snapshots.LocalPTR) + Taken(fl, Snapshots.LocalName)
  {
    if (fl.stage.Replying? || fl.stage.Done?) && Counted(fl.stage.v) {
      VerdictBalances(c, fl.a, fl.stage.v, f);
    }
  }

  lemma {:induction false} SumsBalance(c: Config, fls: seq<Flight>, f: Snapshots.Field)
    requires forall q :: 0 <= q < |fls| ==> FlightOk(fls[q])
    ensures Separate(f) ==> SumWritten(c, fls, f) <= SumTaken(fls, f)
    ensures SumWritten(c, fls, Snapshots.LocalPTR)
            <= SumTaken(fls, Snapshots.LocalPTR) + SumTaken(fls, Snapshots.LocalName)
  {
    if fls != [] {
      SumsBalance(c, fls[..|fls| - 1], f);
      FlightBalances(c, fls[|fls| - 1], f);
    }
  }

  /** The log is never ahead of the counters, at any moment of any run. */
  lemma LogNeverAhead(c: Config, steps: seq<Step>, s: State, f: Snapshots.Field)
    requires Reached(c, steps, s)
    ensures Separate(f) ==> Pipeline.CountLog(f, s.log) <= s.counters.Get(f)
    ensures Pipeline.CountLog(Snapshots.LocalPTR, s.log) <= s.counters.localPTR + s.counters.localName
  {
    ReachedKeepsInv(c, steps, s);
    SumsBalance(c, s.flights, f);
    assert s.counters.Get(Snapshots.LocalPTR) == s.counters.localPTR;
    assert s.counters.Get(Snapshots.LocalName) == s.counters.localName;
  }

  predicate Quiescent(s: State) {
    forall q :: 0 <= q < |s.flights| ==> s.flights[q].stage.Done?
  }

  function AcceptedOf(fls: seq<Flight>): nat {
    if fls == [] then 0 else AcceptedOf(fls[..|fls| - 1]) + if Pipeline.Accepted(fls[|fls| - 1].a) then 1 else 0
  }

  lemma {:induction false} SumsSettle(c: Config, fls: seq<Flight>, f: Snapshots.Field)
    requires forall q :: 0 <= q < |fls| ==> FlightOk(fls[q]) && fls[q].stage.Done?
    ensures Separate(f) ==> SumWritten(c, fls, f) == SumTaken(fls, f)
    ensures SumWritten(c, fls, Snapshots.LocalPTR)
            == SumTaken(fls, Snapshots.LocalPTR) + SumTaken(fls, Snapshots.LocalName)
  {
    if fls != [] {
      SumsSettle(c, fls[..|fls| - 1], f);
      FlightBalances(c, fls[|fls| - 1], f);
    }
  }

  lemma {:induction false} AllAnswered(c: Config, fls: seq<Flight>)
    requires forall q :: 0 <= q < |fls| ==> FlightOk(fls[q]) && fls[q].stage.Done?
    ensures SumAnswered(fls) == |fls| && SumTaken(fls, Snapshots.Total) == AcceptedOf(fls)
  {
    if fls != [] {
      AllAnswered(c, fls[..|fls| - 1]);
    }
  }

  lemma {:induction false} TotalIsLength(log: seq<Record>)
    ensures Pipeline.CountLog(Snapshots.Total, log) == |log|
  {
    if log != [] {
      TotalIsLength(log[..|log| - 1]);
    }
  }

  /** The counters, one by one. */
  lemma AccountsFrom(k: Snapshots.Counters, log: seq<Record>)
    requires forall f :: Separate(f) ==> k.Get(f) == Pipeline.CountLog(f, log)
    requires k.localPTR + k.localName == Pipeline.CountLog(Snapshots.LocalPTR, log)
    ensures Pipeline.Accounts(k, log)
  {
    TotalIsLength(log);
    assert k.Get(Snapshots.Total) == k.total && k.Get(Snapshots.Blocked) == k.blocked;
    assert k.Get(Snapshots.CnameBlocked) == k.cnameBlocked && k.Get(Snapshots.CacheHit) == k.cacheHit;
    assert k.Get(Snapshots.ForwardFailure) == k.forwardFailures && k.Get(Snapshots.UpstreamError) == k.upstreamErrors;
  }

  lemma SettledCounter(c: Config, s: State, f: Snapshots.Field)
    requires Inv(c, s) && Quiescent(s)
    ensures Separate(f) ==> s.counters.Get(f) == Pipeline.CountLog(f, s.log)
    ensures s.counters.localPTR + s.counters.localName == Pipeline.CountLog(Snapshots.LocalPTR, s.log)
  {
    SumsSettle(c, s.flights, f);
    assert s.counters.Get(Snapshots.LocalPTR) == s.counters.localPTR;
    assert s.counters.Get(Snapshots.LocalName) == s.counters.localName;
  }

  /** Under any interleaving, once no query is in flight every query has its one reply, each accepted
      one its record and its total, and every counter equals the records it stands for. */
  lemma QuiescentAccounts(c: Config, steps: seq<Step>, s: State)
    requires Reached(c, steps, s) && Quiescent(s)
    ensures Pipeline.Accounts(s.counters, s.log)
    ensures |s.replies| == |s.flights| && |s.log| == AcceptedOf(s.flights)
  {
    ReachedKeepsInv(c, steps, s);
    SettledAccounts(c, s);
  }

  lemma SettledAccounts(c: Config, s: State)
    requires Inv(c, s) && Quiescent(s)
    ensures Pipeline.Accounts(s.counters, s.log)
    ensures |s.replies| == |s.flights| && |s.log| == AcceptedOf(s.flights)
  {
    forall f ensures Separate(f) ==> s.counters.Get(f) == Pipeline.CountLog(f, s.log) {
      SettledCounter(c, s, f);
    }
    SettledCounter(c, s, Snapshots.Total);
    AccountsFrom(s.counters, s.log);
    AllAnswered(c, s.flights);
    assert s.counters.Get(Snapshots.Total) == SumTaken(s.flights, Snapshots.Total);
  }

  // ---- What the cache holds ---------------------------------------------------------------

  /** Every entry has an origin: a query that has stored it, under the key of its question, and that
      was not past its store at the last purge. */
  ghost predicate OriginsOk(c: Config, s: State) {
    && (forall q :: q in s.gone ==> q < |s.flights| && !BeforeStore(s.flights[q].stage))
    && forall k :: k in s.cache.entries ==> OriginOk(c, s, k)
  }

  ghost predicate OriginOk(c: Config, s: State, k: string)
    requires k in s.cache.entries
  {
    && k in s.origin && s.origin[k] < |s.flights| && s.origin[k] !in s.gone
    && var fl := s.flights[s.origin[k]];
       KeyOf(c.codes, fl.a.req) == Some(k) && IsEntryOf(fl.a, s.cache.entries[k]) && !BeforeStore(fl.stage)
  }

  /** A step that stores nothing keeps the origins. */
  lemma KeepsOrigins(c: Config, s: State, t: State, op: ResponseCache.Op)
    requires OriginsOk(c, s) && !op.Set? && t.origin == s.origin && t.gone == s.gone
    requires t.cache == ResponseCache.Next(c.codes, c.maxSize, s.cache, op) || t.cache == s.cache
    requires |t.flights| >= |s.flights|
    requires forall q :: 0 <= q < |s.flights| ==>
               && t.flights[q].a == s.flights[q].a
               && (BeforeStore(t.flights[q].stage) ==> BeforeStore(s.flights[q].stage))
    ensures OriginsOk(c, t)
  {
    forall k | k in t.cache.entries ensures OriginOk(c, t, k) {
      if t.cache != s.cache {
        ResponseCache.EntryAfterStep(c.codes, c.maxSize, s.cache, op, k);
      }
      assert OriginOk(c, s, k);
    }
  }

  /** One entry after a store: the query's own, or one that was there before. */
  predicate FromStore(c: Config, s: State, a: Arrival, k: string, e: ResponseCache.Entry) {
    || (KeyOf(c.codes, a.req) == Some(k) && IsEntryOf(a, e))
    || (k in s.cache.entries && s.cache.entries[k] == e)
  }

  lemma EntryAfterStore(c: Config, s: State, a: Arrival, k: string)
    requires a.forward.Replied?
    requires k in ResponseCache.Next(c.codes, c.maxSize, s.cache, SetOf(a)).entries
    ensures FromStore(c, s, a, k, ResponseCache.Next(c.codes, c.maxSize, s.cache, SetOf(a)).entries[k])
  {
    ResponseCache.EntryAfterStep(c.codes, c.maxSize, s.cache, SetOf(a), k);
  }

  /** Its origin: the query, if the entry is its own ... */
  lemma OwnOrigin(c: Config, s: State, t: State, q: nat, stage: Stage, k: string)
    requires q < |s.flights| && q !in s.gone && k in t.cache.entries && !BeforeStore(stage)
    requires t.flights == s.flights[q := s.flights[q].(stage := stage)] && t.gone == s.gone
    requires KeyOf(c.codes, s.flights[q].a.req) == Some(k) && IsEntryOf(s.flights[q].a, t.cache.entries[k])
    requires t.origin == Origin(c, s, q, t.cache.entries)
    ensures OriginOk(c, t, k)
  {
    assert t.origin[k] == q;
  }

  /** ... or the one it had. */
  lemma KeptOrigin(c: Config, s: State, t: State, q: nat, stage: Stage, k: string)
    requires q < |s.flights| && k in t.cache.entries && !BeforeStore(stage)
    requires t.flights == s.flights[q := s.flights[q].(stage := stage)] && t.gone == s.gone
    requires k in s.cache.entries && s.cache.entries[k] == t.cache.entries[k] && OriginOk(c, s, k)
    requires k in t.origin && t.origin[k] == s.origin[k]
    ensures OriginOk(c, t, k)
  {
  }

  /** t is the state after the query's store has left t's cache. */
  predicate KeptIn(c: Config, s: State, q: nat, t: State) {
    q < |s.flights| && s.flights[q].a.forward.Replied? && t == KeepIn(c, s, q, t.cache)
  }

  /** One origin after a store. */
  lemma KeptInHasOrigin(c: Config, s: State, t: State, q: nat, k: string)
    requires k in t.cache.entries && KeptIn(c, s, q, t) && q !in s.gone
    requires FromStore(c, s, s.flights[q].a, k, t.cache.entries[k])
    requires k in s.cache.entries ==> OriginOk(c, s, k)
    ensures OriginOk(c, t, k)
  {
    var (a, stage) := (s.flights[q].a, Judging(Stripped(s.flights[q].a.forward.msg), false));
    if KeyOf(c.codes, a.req) == Some(k) && IsEntryOf(a, t.cache.entries[k]) {
      OwnOrigin(c, s, t, q, stage, k);
    } else {
      KeptOrigin(c, s, t, q, stage, k);
    }
  }

  /** The origins after a store. */
  lemma KeptInKeepsOrigins(c: Config, s: State, t: State, q: nat)
    requires OriginsOk(c, s) && KeptIn(c, s, q, t) && BeforeStore(s.flights[q].stage)
    requires forall k :: k in t.cache.entries ==> FromStore(c, s, s.flights[q].a, k, t.cache.entries[k])
    ensures OriginsOk(c, t)
  {
    forall k | k in t.cache.entries ensures OriginOk(c, t, k) {
      KeptInHasOrigin(c, s, t, q, k);
    }
  }

  lemma StoreKeepsOrigins(c: Config, s: State, q: nat)
    requires OriginsOk(c, s) && Enabled(s, Store(q))
    ensures OriginsOk(c, Keep(c, s, q))
  {
    if c.cacheOn {
      var cache := ResponseCache.Next(c.codes, c.maxSize, s.cache, SetOf(s.flights[q].a));
      forall k | k in cache.entries ensures FromStore(c, s, s.flights[q].a, k, cache.entries[k]) {
        EntryAfterStore(c, s, s.flights[q].a, k);
      }
      KeptInKeepsOrigins(c, s, Keep(c, s, q), q);
    } else {
      KeepsOrigins(c, s, Keep(c, s, q), ResponseCache.Flush);
    }
  }

  lemma FlushKeepsOrigins(c: Config, s: State)
    ensures OriginsOk(c, Apply(c, s, Flush))
  {
  }

  /** A move past the store, or before it, of one query. */
  lemma MoveKeepsOrigins(c: Config, s: State, t: State, q: nat, stage: Stage)
    requires OriginsOk(c, s) && q < |s.flights|
    requires t.flights == s.flights[q := s.flights[q].(stage := stage)]
    requires t.cache == s.cache && t.origin == s.origin && t.gone == s.gone
    requires !BeforeStore(s.flights[q].stage) ==> !BeforeStore(stage)
    ensures OriginsOk(c, t)
  {
    KeepsOrigins(c, s, t, ResponseCache.Flush);
  }

  lemma StepKeepsOrigins(c: Config, s: State, step: Step)
    requires OriginsOk(c, s) && Enabled(s, step)
    ensures OriginsOk(c, Apply(c, s, step))
  {
    var t := Apply(c, s, step);
    match step
    case Store(q) => StoreKeepsOrigins(c, s, q);
    case Flush => FlushKeepsOrigins(c, s);
    case Sweep(now) => KeepsOrigins(c, s, t, ResponseCache.Sweep(now));
    case Look(q) =>
      var a := s.flights[q].a;
      KeepsOrigins(c, s, t, ResponseCache.Get(a.req, a.t1, a.t2));
    case Arrive(_) => KeepsOrigins(c, s, t, ResponseCache.Flush);
    case SetLists(_) => KeepsOrigins(c, s, t, ResponseCache.Flush);
    case _ =>
      MovesOnly(c, s, step);
      MoveKeepsOrigins(c, s, t, step.q, t.flights[step.q].stage);
  }

  /** The other steps of a query leave the cache alone and never go back before the store. */
  lemma MovesOnly(c: Config, s: State, step: Step)
    requires Enabled(s, step) && OfQuery(step) && !step.Look? && !step.Store?
    ensures
      var (t, q) := (Apply(c, s, step), step.q);
      && |t.flights| == |s.flights| && t.flights == s.flights[q := s.flights[q].(stage := t.flights[q].stage)]
      && t.cache == s.cache && t.origin == s.origin && t.gone == s.gone
      && (!BeforeStore(s.flights[q].stage) ==> !BeforeStore(t.flights[q].stage))
  {
  }

  lemma {:induction false} ReachedKeepsOrigins(c: Config, steps: seq<Step>, s: State)
    requires Reached(c, steps, s)
    ensures OriginsOk(c, s)
  {
    if steps != [] {
      var n := |steps| - 1;
      var r :| Reached(c, steps[..n], r) && Enabled(r, steps[n]) && s == Apply(c, r, steps[n]);
      ReachedKeepsOrigins(c, steps[..n], r);
      StepKeepsOrigins(c, r, steps[n]);
    }
  }

  /** What gone stands for: a purge sets it to the queries past their store, and nothing else changes it. */
  lemma GoneMeans(c: Config, s: State, step: Step, q: nat)
    requires Enabled(s, step)
    ensures q in Apply(c, s, step).gone <==>
            if step.Flush? then q < |s.flights| && !BeforeStore(s.flights[q].stage) else q in s.gone
  {
  }

  /** After a purge, whatever has happened since, a cached answer is that of a query which came after
      the purge or was in flight at it and had not stored yet. */
  lemma CachedAfterPurge(c: Config, steps: seq<Step>, s: State, k: string) returns (q: nat)
    requires Reached(c, steps, s) && k in s.cache.entries
    ensures q < |s.flights| && q !in s.gone
    ensures KeyOf(c.codes, s.flights[q].a.req) == Some(k) && IsEntryOf(s.flights[q].a, s.cache.entries[k])
  {
    ReachedKeepsOrigins(c, steps, s);
    assert OriginOk(c, s, k);
    q := s.origin[k];
  }

  /** And such a query leaves its answer in the purged cache exactly when the answer can be kept at
      all. */
  lemma InFlightStoresAfterPurge(c: Config, s: State, q: nat)
    requires Enabled(s, Store(q))
    ensures
      var (a, t) := (s.flights[q].a, Keep(c, Apply(c, s, Flush), q));
      && (t.cache.entries != map[] <==>
            c.cacheOn && c.maxSize > 0 && |a.req.question| == 1 && ResponseCache.Storable(Stripped(a.forward.msg)))
      && forall k :: k in t.cache.entries ==> KeyOf(c.codes, a.req) == Some(k) && IsEntryOf(a, t.cache.entries[k])
  {
    var a := s.flights[q].a;
    var u := Apply(c, s, Flush);
    assert u.flights == s.flights && u.cache.entries == map[];
    StoreInEmpty(c, u.cache, a);
  }

  lemma StoreInEmpty(c: Config, s: ResponseCache.State, a: Arrival)
    requires s.entries == map[] && a.forward.Replied?
    ensures
      var t := ResponseCache.Next(c.codes, c.maxSize, s, SetOf(a));
      && (t.entries != map[] <==>
            c.maxSize > 0 && |a.req.question| == 1 && ResponseCache.Storable(Stripped(a.forward.msg)))
      && forall k :: k in t.entries ==> KeyOf(c.codes, a.req) == Some(k) && IsEntryOf(a, t.entries[k])
  {
    var t := ResponseCache.Next(c.codes, c.maxSize, s, SetOf(a));
    var k := KeyOf(c.codes, a.req);
    if c.maxSize > 0 && k.Some? && ResponseCache.Storable(Stripped(a.forward.msg)) {
      assert k.value in t.entries;
    }
  }

  // ---- What the clients get ------------------------------------------------------------------

  /** The message has what the upstream says to the query's question, without its OPT record. */
  ghost predicate Says(up: Pipeline.Upstream, a: Arrival, m: Msg) {
    |a.req.question| == 1 && ContentOf(m) == Pipeline.StripContent(up(AskedOf(a.req)))
  }

  ghost predicate VerdictSays(up: Pipeline.Upstream, a: Arrival, v: Verdict) {
    v.Hit? || v.Relayed? ==> Says(up, a, v.msg)
  }

  ghost predicate FlightSays(up: Pipeline.Upstream, fl: Flight) {
    match fl.stage
    case Judging(m, _) => Says(up, fl.a, m)
    case Counting(v, _) => VerdictSays(up, fl.a, v)
    case Logging(v) => VerdictSays(up, fl.a, v)
    case Replying(v) => VerdictSays(up, fl.a, v)
    case Done(v) => VerdictSays(up, fl.a, v)
    case _ => true
  }

  ghost predicate AllAnswer(up: Pipeline.Upstream, s: State) {
    forall q :: 0 <= q < |s.flights| ==> Pipeline.Answers(up, s.flights[q].a)
  }

  ghost predicate Truthful(c: Config, up: Pipeline.Upstream, s: State) {
    && Pipeline.Faithful(c, up, s.cache.entries)
    && forall q :: 0 <= q < |s.flights| ==> FlightSays(up, s.flights[q])
  }

  lemma SettledSays(up: Pipeline.Upstream, a: Arrival, v: Verdict, pc: nat)
    requires VerdictSays(up, a, v)
    ensures FlightSays(up, Flight(a, Settled(v, pc)))
  {
  }

  /** A step that leaves the cache alone and moves one query to a stage that says the truth. */
  lemma MoveIsTruthful(c: Config, up: Pipeline.Upstream, s: State, t: State, q: nat, stage: Stage)
    requires Truthful(c, up, s) && q < |s.flights| && t.flights == s.flights[q := s.flights[q].(stage := stage)]
    requires Pipeline.Faithful(c, up, t.cache.entries) && FlightSays(up, Flight(s.flights[q].a, stage))
    ensures Truthful(c, up, t)
  {
  }

  lemma LookIsTruthful(c: Config, up: Pipeline.Upstream, s: State, q: nat)
    requires c.codes.Valid() && Truthful(c, up, s) && Enabled(s, Look(q))
    ensures Truthful(c, up, LookUp(c, s, q))
  {
    var (a, t) := (s.flights[q].a, LookUp(c, s, q));
    var m := Cached(c, s.cache.entries, a);
    if m.Some? {
      Pipeline.HitContent(c, up, s.cache.entries, a);
    }
    Pipeline.OpKeepsFaithful(c, up, s.cache, ResponseCache.Get(a.req, a.t1, a.t2));
    MoveIsTruthful(c, up, s, t, q, if m.Some? then Judging(m.value, true) else Forwarding);
  }

  lemma StoreIsTruthful(c: Config, up: Pipeline.Upstream, s: State, q: nat)
    requires Truthful(c, up, s) && Enabled(s, Store(q)) && Pipeline.Answers(up, s.flights[q].a)
    requires |s.flights[q].a.req.question| == 1
    ensures Truthful(c, up, Keep(c, s, q))
  {
    var (a, t) := (s.flights[q].a, Keep(c, s, q));
    Pipeline.StrippedContent(a.forward.msg);
    forall k | KeyOf(c.codes, a.req) == Some(k)
      ensures Pipeline.FaithfulEntry(c, up, k, ResponseCache.NewEntry(Stripped(a.forward.msg), a.t3))
    {
      Pipeline.StoredIsFaithful(c, up, a, k, a.t3);
    }
    Pipeline.OpKeepsFaithful(c, up, s.cache, SetOf(a));
    MoveIsTruthful(c, up, s, t, q, Judging(Stripped(a.forward.msg), false));
  }

  /** The other steps of a query pass on what it has. */
  lemma PassesOn(c: Config, up: Pipeline.Upstream, s: State, step: Step)
    requires Enabled(s, step) && OfQuery(step) && !step.Look? && !step.Store? && FlightSays(up, s.flights[step.q])
    ensures var t := Apply(c, s, step); |t.flights| == |s.flights| && FlightSays(up, t.flights[step.q])
  {
    var fl := s.flights[step.q];
    match step
    case Check(q) =>
      EarlyHasNoMessage(c, s.lists, fl.a);
      var early := Early(c, s.lists, fl.a);
      if early.Some? {
        SettledSays(up, fl.a, early.value, 0);
      }
    case Forward(q) => SettledSays(up, fl.a, Unresolved, 0);
    case Judge(q) => SettledSays(up, fl.a, Judged(c, s.lists, fl.a, fl.stage.msg, fl.stage.hit), 0);
    case Bump(q) => SettledSays(up, fl.a, fl.stage.v, fl.stage.pc + 1);
    case _ =>
  }

  lemma EarlyHasNoMessage(c: Config, lists: Lists, a: Arrival)
    ensures Early(c, lists, a).Some? ==> !Early(c, lists, a).value.Hit? && !Early(c, lists, a).value.Relayed?
  {
  }

  lemma OutsideIsTruthful(c: Config, up: Pipeline.Upstream, s: State, step: Step)
    requires Truthful(c, up, s) && !OfQuery(step)
    ensures Truthful(c, up, Apply(c, s, step))
  {
    if step.Sweep? {
      Pipeline.OpKeepsFaithful(c, up, s.cache, ResponseCache.Sweep(step.now));
    }
  }

  lemma OtherIsTruthful(c: Config, up: Pipeline.Upstream, s: State, step: Step)
    requires Truthful(c, up, s) && Enabled(s, step) && OfQuery(step) && !step.Look? && !step.Store?
    ensures Truthful(c, up, Apply(c, s, step))
  {
    var t := Apply(c, s, step);
    MovesOnly(c, s, step);
    PassesOn(c, up, s, step);
    MoveIsTruthful(c, up, s, t, step.q, t.flights[step.q].stage);
  }

  lemma StepIsTruthful(c: Config, up: Pipeline.Upstream, s: State, step: Step)
    requires c.codes.Valid() && Truthful(c, up, s) && Enabled(s, step) && AllAnswer(up, s)
    requires step.Store? ==> |s.flights[step.q].a.req.question| == 1
    ensures Truthful(c, up, Apply(c, s, step))
  {
    if !OfQuery(step) {
      OutsideIsTruthful(c, up, s, step);
    } else if step.Look? {
      LookIsTruthful(c, up, s, step.q);
    } else if step.Store? {
      StoreIsTruthful(c, up, s, step.q);
    } else {
      OtherIsTruthful(c, up, s, step);
    }
  }

  lemma SameArrivals(c: Config, s: State, step: Step)
    requires Enabled(s, step)
    ensures
      var t := Apply(c, s, step);
      |s.flights| <= |t.flights| && forall q :: 0 <= q < |s.flights| ==> t.flights[q].a == s.flights[q].a
  {
  }

  lemma StoringIsAccepted(c: Config, steps: seq<Step>, s: State)
    requires Reached(c, steps, s)
    ensures forall q :: 0 <= q < |s.flights| && s.flights[q].stage.Storing? ==> |s.flights[q].a.req.question| == 1
  {
    ReachedKeepsInv(c, steps, s);
    forall q | 0 <= q < |s.flights| && s.flights[q].stage.Storing? ensures |s.flights[q].a.req.question| == 1 {
      assert FlightOk(s.flights[q]);
    }
  }

  lemma {:induction false} ReachedIsTruthful(c: Config, up: Pipeline.Upstream, steps: seq<Step>, s: State)
    requires Reached(c, steps, s) && c.codes.Valid() && AllAnswer(up, s)
    ensures Truthful(c, up, s)
  {
    if steps != [] {
      var n := |steps| - 1;
      var r :| Reached(c, steps[..n], r) && Enabled(r, steps[n]) && s == Apply(c, r, steps[n]);
      SameArrivals(c, r, steps[n]);
      assert AllAnswer(up, r) by {
        forall q | 0 <= q < |r.flights| ensures Pipeline.Answers(up, r.flights[q].a) {
          assert s.flights[q].a == r.flights[q].a;
        }
      }
      ReachedIsTruthful(c, up, steps[..n], r);
      StoringIsAccepted(c, steps[..n], r);
      StepIsTruthful(c, up, r, steps[n]);
    }
  }

  /** Under any interleaving, against an upstream whose replies depend on question, CD and DO alone,
      a query that is answered from the cache or from the upstream gets what the upstream says to its
      own question, TTLs aside. */
  lemma AnswerIsUpstreams(c: Config, up: Pipeline.Upstream, steps: seq<Step>, s: State, q: nat)
    requires Reached(c, steps, s) && c.codes.Valid() && AllAnswer(up, s)
    requires q < |s.flights| && s.flights[q].stage.Done?
    ensures VerdictSays(up, s.flights[q].a, s.flights[q].stage.v)
  {
    ReachedIsTruthful(c, up, steps, s);
    assert FlightSays(up, s.flights[q]);
  }
}
