/** internal/dnsserver/handler.go: the two models of the handler agree.  A query that goes through its
    steps of InFlight with no other step in between does what one step of Pipeline says. */
module Sequential {
  import opened InFlight
  import opened Message
  import opened QueryHandler
  import opened Wrappers
  import Pipeline
  import ResponseCache
  import Snapshots

  /** The state without the queries in flight. */
  function View(s: State): Pipeline.State {
    Pipeline.State(s.lists, s.cache, s.counters, s.log, s.replies)
  }

  /** The steps, all of one query, lead from one state to another. */
  ghost predicate Leads(c: Config, s: State, q: nat, steps: seq<Step>, t: State)
    decreases |steps|
  {
    if steps == [] then s == t
    else
      && OfQuery(steps[0]) && steps[0].q == q && Enabled(s, steps[0])
      && Leads(c, Apply(c, s, steps[0]), q, steps[1..], t)
  }

  lemma LeadsFirst(c: Config, s: State, q: nat, step: Step, rest: seq<Step>, t: State)
    requires OfQuery(step) && step.q == q && Enabled(s, step) && Leads(c, Apply(c, s, step), q, rest, t)
    ensures Leads(c, s, q, [step] + rest, t)
  {
    assert ([step] + rest)[1..] == rest;
  }

  /** The query has been answered with the verdict, from a state that looked as s does, and the cache
      has been left as given. */
  ghost predicate Answered(c: Config, s: State, q: nat, cache: ResponseCache.State, v: Verdict, t: State)
    requires q < |s.flights| && (Counted(v) ==> |s.flights[q].a.req.question| == 1)
  {
    && View(t) == Pipeline.Concluded(c, View(s), cache, v, s.flights[q].a)
    && t.flights == s.flights[q := Flight(s.flights[q].a, Done(v))]
  }

  lemma FromReplying(c: Config, s: State, q: nat, v: Verdict) returns (steps: seq<Step>, t: State)
    requires q < |s.flights| && s.flights[q].stage == Replying(v)
    requires Counted(v) ==> |s.flights[q].a.req.question| == 1
    ensures Leads(c, s, q, steps, t) && t.flights == s.flights[q := Flight(s.flights[q].a, Done(v))]
    ensures View(t) == View(s).(replies := s.replies + [ReplyOf(c, v, s.flights[q].a.req)])
  {
    t := Apply(c, s, Reply(q));
    LeadsFirst(c, s, q, Reply(q), [], t);
    steps := [Reply(q)] + [];
  }

  lemma FromLogging(c: Config, s: State, q: nat, v: Verdict) returns (steps: seq<Step>, t: State)
    requires q < |s.flights| && s.flights[q].stage == Logging(v)
    requires Counted(v) && |s.flights[q].a.req.question| == 1
    ensures Leads(c, s, q, steps, t) && t.flights == s.flights[q := Flight(s.flights[q].a, Done(v))]
    ensures
      var a := s.flights[q].a;
      View(t) == View(s).(log := s.log + [RecordFor(c, a, v)], replies := s.replies + [ReplyOf(c, v, a.req)])
  {
    var rest;
    rest, t := FromReplying(c, Apply(c, s, Log(q)), q, v);
    LeadsFirst(c, s, q, Log(q), rest, t);
    steps := [Log(q)] + rest;
  }

  /** The counters from pc on, the record and the reply. */
  lemma {:induction false} FromSettled(c: Config, s: State, q: nat, v: Verdict, pc: nat)
    returns (steps: seq<Step>, t: State)
    requires q < |s.flights| && pc <= |Bumps(v)| && s.flights[q].stage == Settled(v, pc)
    requires Counted(v) ==> |s.flights[q].a.req.question| == 1
    ensures Leads(c, s, q, steps, t) && t.flights == s.flights[q := Flight(s.flights[q].a, Done(v))]
    ensures
      var a := s.flights[q].a;
      View(t) == View(s).(
        counters := Pipeline.Bumped(s.counters, Bumps(v)[pc..]),
        log := if Counted(v) then s.log + [RecordFor(c, a, v)] else s.log,
        replies := s.replies + [ReplyOf(c, v, a.req)])
    decreases |Bumps(v)| - pc
  {
    var fs := Bumps(v);
    if pc < |fs| {
      var rest;
      rest, t := FromSettled(c, Apply(c, s, Bump(q)), q, v, pc + 1);
      LeadsFirst(c, s, q, Bump(q), rest, t);
      steps := [Bump(q)] + rest;
      assert fs[pc..][0] == fs[pc] && fs[pc..][1..] == fs[pc + 1..];
    } else if Counted(v) {
      steps, t := FromLogging(c, s, q, v);
    } else {
      steps, t := FromReplying(c, s, q, v);
    }
  }

  lemma FromVerdict(c: Config, s: State, q: nat, v: Verdict) returns (steps: seq<Step>, t: State)
    requires q < |s.flights| && s.flights[q].stage == Settled(v, 0)
    requires Counted(v) ==> |s.flights[q].a.req.question| == 1
    ensures Leads(c, s, q, steps, t) && Answered(c, s, q, s.cache, v, t)
  {
    steps, t := FromSettled(c, s, q, v, 0);
    assert Bumps(v)[0..] == Bumps(v);
  }

  lemma FromJudging(c: Config, s: State, q: nat) returns (steps: seq<Step>, t: State)
    requires q < |s.flights| && s.flights[q].stage.Judging? && |s.flights[q].a.req.question| == 1
    ensures
      var (a, at) := (s.flights[q].a, s.flights[q].stage);
      Leads(c, s, q, steps, t) && Answered(c, s, q, s.cache, Judged(c, s.lists, a, at.msg, at.hit), t)
  {
    var (a, at) := (s.flights[q].a, s.flights[q].stage);
    var rest;
    rest, t := FromVerdict(c, Apply(c, s, Judge(q)), q, Judged(c, s.lists, a, at.msg, at.hit));
    LeadsFirst(c, s, q, Judge(q), rest, t);
    steps := [Judge(q)] + rest;
  }

  /** The cache after the store of the query's reply. */
  function CacheWith(c: Config, s: State, a: Arrival): ResponseCache.State
    requires a.forward.Replied?
  {
    if c.cacheOn then ResponseCache.Next(c.codes, c.maxSize, s.cache, SetOf(a)) else s.cache
  }

  lemma FromStoring(c: Config, s: State, q: nat) returns (steps: seq<Step>, t: State)
    requires q < |s.flights| && s.flights[q].stage.Storing? && |s.flights[q].a.req.question| == 1
    requires s.flights[q].a.forward.Replied?
    ensures
      var a := s.flights[q].a;
      && Leads(c, s, q, steps, t)
      && Answered(c, s, q, CacheWith(c, s, a), Judged(c, s.lists, a, Stripped(a.forward.msg), false), t)
  {
    var rest;
    rest, t := FromJudging(c, Apply(c, s, Store(q)), q);
    LeadsFirst(c, s, q, Store(q), rest, t);
    steps := [Store(q)] + rest;
  }

  lemma FromForwarding(c: Config, s: State, q: nat) returns (steps: seq<Step>, t: State)
    requires q < |s.flights| && s.flights[q].stage.Forwarding? && |s.flights[q].a.req.question| == 1
    ensures
      var a := s.flights[q].a;
      && Leads(c, s, q, steps, t)
      && if a.forward.Replied? then
           Answered(c, s, q, CacheWith(c, s, a), Judged(c, s.lists, a, Stripped(a.forward.msg), false), t)
         else Answered(c, s, q, s.cache, Unresolved, t)
  {
    var rest;
    if s.flights[q].a.forward.Replied? {
      rest, t := FromStoring(c, Apply(c, s, Forward(q)), q);
    } else {
      rest, t := FromVerdict(c, Apply(c, s, Forward(q)), q, Unresolved);
    }
    LeadsFirst(c, s, q, Forward(q), rest, t);
    steps := [Forward(q)] + rest;
  }

  /** What the look at the cache leaves of it. */
  function Looked(c: Config, s: ResponseCache.State, a: Arrival): ResponseCache.State {
    if c.cacheOn then ResponseCache.Next(c.codes, c.maxSize, s, ResponseCache.Get(a.req, a.t1, a.t2)) else s
  }

  lemma LateOfHit(c: Config, lists: Lists, s: ResponseCache.State, a: Arrival)
    requires |a.req.question| == 1 && Early(c, lists, a) == None && Cached(c, s.entries, a).Some?
    ensures CacheAfter(c, lists, s, a) == Looked(c, s, a)
    ensures Late(c, lists, s.entries, a) == Judged(c, lists, a, Cached(c, s.entries, a).value, true)
  {
  }

  lemma LateOfMiss(c: Config, lists: Lists, s: ResponseCache.State, a: Arrival)
    requires |a.req.question| == 1 && Early(c, lists, a) == None && Cached(c, s.entries, a) == None
    ensures
      var k := Looked(c, s, a);
      if a.forward.Replied? then
        && CacheAfter(c, lists, s, a) ==
             (if c.cacheOn then ResponseCache.Next(c.codes, c.maxSize, k, SetOf(a)) else k)
        && Late(c, lists, s.entries, a) == Judged(c, lists, a, Stripped(a.forward.msg), false)
      else CacheAfter(c, lists, s, a) == k && Late(c, lists, s.entries, a) == Unresolved
  {
  }

  lemma AfterLook(c: Config, s: State, q: nat)
    requires q < |s.flights| && s.flights[q].stage.Looking? && |s.flights[q].a.req.question| == 1
    ensures
      var (a, t) := (s.flights[q].a, Apply(c, s, Look(q)));
      var found := Cached(c, s.cache.entries, a);
      var stage := if found.Some? then Judging(found.value, true) else Forwarding;
      View(t) == View(s).(cache := Looked(c, s.cache, a)) && t.flights == s.flights[q := Flight(a, stage)]
  {
  }

  /** The look itself leaves no more than the cache and the stage. */
  lemma AnsweredSince(c: Config, s: State, u: State, q: nat, cache: ResponseCache.State, v: Verdict, t: State)
    requires q < |s.flights| && (Counted(v) ==> |s.flights[q].a.req.question| == 1)
    requires View(u) == View(s).(cache := u.cache) && |u.flights| == |s.flights|
    requires u.flights == s.flights[q := s.flights[q].(stage := u.flights[q].stage)]
    requires Answered(c, u, q, cache, v, t)
    ensures Answered(c, s, q, cache, v, t)
  {
  }

  lemma FromLooking(c: Config, s: State, q: nat) returns (steps: seq<Step>, t: State)
    requires q < |s.flights| && s.flights[q].stage.Looking? && |s.flights[q].a.req.question| == 1
    requires Early(c, s.lists, s.flights[q].a) == None
    ensures
      var a := s.flights[q].a;
      && Leads(c, s, q, steps, t)
      && Answered(c, s, q, CacheAfter(c, s.lists, s.cache, a), Late(c, s.lists, s.cache.entries, a), t)
  {
    var a := s.flights[q].a;
    var u := Apply(c, s, Look(q));
    var rest;
    AfterLook(c, s, q);
    if Cached(c, s.cache.entries, a).Some? {
      LateOfHit(c, s.lists, s.cache, a);
      rest, t := FromJudging(c, u, q);
    } else {
      LateOfMiss(c, s.lists, s.cache, a);
      rest, t := FromForwarding(c, u, q);
    }
    AnsweredSince(c, s, u, q, CacheAfter(c, s.lists, s.cache, a), Late(c, s.lists, s.cache.entries, a), t);
    LeadsFirst(c, s, q, Look(q), rest, t);
    steps := [Look(q)] + rest;
  }

  lemma FromArrived(c: Config, s: State, q: nat) returns (steps: seq<Step>, t: State)
    requires q < |s.flights| && s.flights[q].stage.Arrived?
    ensures Counted(Decide(c, s.lists, s.cache.entries, s.flights[q].a)) ==> |s.flights[q].a.req.question| == 1
    ensures
      var a := s.flights[q].a;
      && Leads(c, s, q, steps, t)
      && Answered(c, s, q, CacheAfter(c, s.lists, s.cache, a), Decide(c, s.lists, s.cache.entries, a), t)
  {
    var a := s.flights[q].a;
    CountedIsOneQuestion(c, s.lists, s.cache.entries, a);
    var rest;
    if Early(c, s.lists, a).Some? {
      rest, t := FromVerdict(c, Apply(c, s, Check(q)), q, Early(c, s.lists, a).value);
    } else {
      EarlyIsOneQuestion(c, s.lists, a);
      rest, t := FromLooking(c, Apply(c, s, Check(q)), q);
    }
    LeadsFirst(c, s, q, Check(q), rest, t);
    steps := [Check(q)] + rest;
  }

  /** A query that arrives and goes through its steps alone leaves lists, cache, counters, log and
      replies as one step of the run model does, and every other query as it was. */
  lemma AloneIsServe(c: Config, s: State, a: Arrival) returns (steps: seq<Step>, t: State)
    ensures Leads(c, Apply(c, s, Arrive(a)), |s.flights|, steps, t)
    ensures View(t) == Pipeline.Serve(c, View(s), a)
    ensures |t.flights| == |s.flights| + 1 && t.flights[..|s.flights|] == s.flights
  {
    CountedIsOneQuestion(c, s.lists, s.cache.entries, a);
    steps, t := FromArrived(c, Apply(c, s, Arrive(a)), |s.flights|);
  }

  /** List changes, purges and sweeps do the same in both models. */
  lemma ControlIsNext(c: Config, s: State, lists: Lists, now: int)
    ensures View(Apply(c, s, SetLists(lists))) == Pipeline.Next(c, View(s), Pipeline.SetLists(lists))
    ensures View(Apply(c, s, Flush)) == Pipeline.Next(c, View(s), Pipeline.Flush)
    ensures View(Apply(c, s, Sweep(now))) == Pipeline.Next(c, View(s), Pipeline.Sweep(now))
  {
  }
}
