/** Whole runs of the handler: queries, list changes, purges and cache sweeps in any order. */
module Pipeline {
  import opened Message
  import opened CacheKey
  import opened Wrappers
  import opened QueryRecord
  import opened QueryHandler
  import ResponseCache
  import Snapshots

  datatype State = State(
    lists: Lists, cache: ResponseCache.State, counters: Snapshots.Counters, log: seq<Record>, replies: seq<Msg>)

  datatype Step = Query(a: Arrival) | SetLists(lists: Lists) | Flush | Sweep(now: int)

  function Bumped(counters: Snapshots.Counters, fs: seq<Snapshots.Field>): Snapshots.Counters
    decreases |fs|
  {
    if fs == [] then counters else Bumped(counters.Inc(fs[0]), fs[1..])
  }

  /** The state after a query has come to its verdict. */
  function Concluded(c: Config, s: State, cache: ResponseCache.State, v: Verdict, a: Arrival): State
    requires Counted(v) ==> |a.req.question| == 1
  {
    State(s.lists, cache, Bumped(s.counters, Bumps(v)),
          if Counted(v) then s.log + [RecordOf(c, v, a.client, Domain(c, a.req))] else s.log,
          s.replies + [ReplyOf(c, v, a.req)])
  }

  ghost function Serve(c: Config, s: State, a: Arrival): State {
    CountedIsOneQuestion(c, s.lists, s.cache.entries, a);
    Concluded(c, s, CacheAfter(c, s.lists, s.cache, a), Decide(c, s.lists, s.cache.entries, a), a)
  }

  ghost function Next(c: Config, s: State, step: Step): State {
    match step
    case Query(a) => Serve(c, s, a)
    case SetLists(lists) => s.(lists := lists)
    case Flush => s.(cache := ResponseCache.Next(c.codes, c.maxSize, s.cache, ResponseCache.Flush))
    case Sweep(now) => s.(cache := ResponseCache.Next(c.codes, c.maxSize, s.cache, ResponseCache.Sweep(now)))
  }

  const ZERO := Snapshots.Counters(0, 0, 0, 0, 0, 0, 0, 0)

  const START := State(Lists({}, {}), ResponseCache.EMPTY, ZERO, [], [])

  ghost function After(c: Config, steps: seq<Step>): State {
    if steps == [] then START else Next(c, After(c, steps[..|steps| - 1]), steps[|steps| - 1])
  }

  // ---- The cache's invariant holds in the pipeline ------------------------------------------

  lemma ServeKeepsCache(c: Config, lists: Lists, s: ResponseCache.State, a: Arrival)
    requires ResponseCache.Inv(s, c.maxSize)
    ensures ResponseCache.Inv(CacheAfter(c, lists, s, a), c.maxSize)
  {
    var get := ResponseCache.Get(a.req, a.t1, a.t2);
    ResponseCache.NextKeepsInv(c.codes, c.maxSize, s, get);
    if a.forward.Replied? {
      ResponseCache.NextKeepsInv(c.codes, c.maxSize, ResponseCache.Next(c.codes, c.maxSize, s, get),
                                 ResponseCache.Set(a.req, Stripped(a.forward.msg), a.t3, a.order));
    }
  }

  lemma StepKeepsCache(c: Config, s: State, step: Step)
    requires ResponseCache.Inv(s.cache, c.maxSize)
    ensures ResponseCache.Inv(Next(c, s, step).cache, c.maxSize)
  {
    match step
    case Query(a) => ServeKeepsCache(c, s.lists, s.cache, a);
    case SetLists(_) =>
    case Flush => ResponseCache.NextKeepsInv(c.codes, c.maxSize, s.cache, ResponseCache.Flush);
    case Sweep(now) => ResponseCache.NextKeepsInv(c.codes, c.maxSize, s.cache, ResponseCache.Sweep(now));
  }

  lemma {:induction false} RunKeepsCache(c: Config, steps: seq<Step>)
    ensures ResponseCache.Inv(After(c, steps).cache, c.maxSize)
  {
    if steps != [] {
      RunKeepsCache(c, steps[..|steps| - 1]);
      StepKeepsCache(c, After(c, steps[..|steps| - 1]), steps[|steps| - 1]);
    }
  }

  /** A reply from the cache is NOERROR. */
  lemma HitIsNoError(c: Config, lists: Lists, s: ResponseCache.State, a: Arrival)
    requires ResponseCache.Inv(s, c.maxSize)
    ensures Decide(c, lists, s.entries, a).Hit? ==> Decide(c, lists, s.entries, a).msg.rcode == NOERROR
  {
    if Cached(c, s.entries, a).Some? {
      ResponseCache.LookupMeans(c.codes, s.entries, a.req, a.t1, a.t2);
    }
  }

  // ---- Counters, log and replies agree ------------------------------------------------------

  /** The records a counter stands for; the two local counters together stand for the local
      answers. */
  predicate Fits(f: Snapshots.Field, r: Record) {
    match f
    case Total => true
    case Blocked => r.blocked
    case CnameBlocked => r.blocked && r.source == ByCname
    case LocalPTR => !r.blocked && r.synthesized && r.rcode != SERVFAIL
    case LocalName => !r.blocked && r.synthesized && r.rcode != SERVFAIL
    case CacheHit => r.cacheHit
    case ForwardFailure => r.Unresolved()
    case UpstreamError => r.UpstreamError()
  }

  function CountLog(f: Snapshots.Field, log: seq<Record>): nat {
    if log == [] then 0 else CountLog(f, log[..|log| - 1]) + if Fits(f, log[|log| - 1]) then 1 else 0
  }

  ghost predicate Accounts(k: Snapshots.Counters, log: seq<Record>) {
    && k.total == |log|
    && k.blocked == CountLog(Snapshots.Blocked, log)
    && k.cnameBlocked == CountLog(Snapshots.CnameBlocked, log)
    && k.localPTR + k.localName == CountLog(Snapshots.LocalPTR, log)
    && k.cacheHit == CountLog(Snapshots.CacheHit, log)
    && k.forwardFailures == CountLog(Snapshots.ForwardFailure, log)
    && k.upstreamErrors == CountLog(Snapshots.UpstreamError, log)
  }

  lemma CountLogSnoc(f: Snapshots.Field, log: seq<Record>, r: Record)
    ensures CountLog(f, log + [r]) == CountLog(f, log) + if Fits(f, r) then 1 else 0
  {
    assert (log + [r])[..|log|] == log;
  }

  lemma BumpedOne(k: Snapshots.Counters, f: Snapshots.Field)
    ensures Bumped(k, [f]) == k.Inc(f)
  {
    assert [f][1..] == [];
  }

  lemma BumpedMore(k: Snapshots.Counters, f: Snapshots.Field, g: Snapshots.Field, h: Snapshots.Field)
    ensures Bumped(k, [f]) == k.Inc(f)
    ensures Bumped(k, [f, g]) == k.Inc(f).Inc(g)
    ensures Bumped(k, [f, g, h]) == k.Inc(f).Inc(g).Inc(h)
  {
    BumpedOne(k, f);
    BumpedOne(k.Inc(f), g);
    BumpedOne(k.Inc(f).Inc(g), h);
    assert [f, g][1..] == [g] && [f, g, h][1..] == [g, h] && [g, h][1..] == [h];
    assert Bumped(k.Inc(f), [g, h]) == Bumped(k.Inc(f).Inc(g), [h]);
  }

  /** One counted query moves each counter exactly as its record says. */
  lemma VerdictAccounts(c: Config, v: Verdict, client: string, domain: string, k: Snapshots.Counters, log: seq<Record>)
    requires Counted(v) && (v.Hit? ==> v.msg.rcode == NOERROR) && Accounts(k, log)
    ensures Accounts(Bumped(k, Bumps(v)), log + [RecordOf(c, v, client, domain)])
    ensures RecordOk(RecordOf(c, v, client, domain))
  {
    var r := RecordOf(c, v, client, domain);
    LogSnoc(log, r);
    var fs := Bumps(v);
    BumpedMore(k, Snapshots.Total, if |fs| > 1 then fs[1] else Snapshots.Total, Snapshots.CnameBlocked);
  }

  lemma LogSnoc(log: seq<Record>, r: Record)
    ensures forall f :: CountLog(f, log + [r]) == CountLog(f, log) + if Fits(f, r) then 1 else 0
  {
    forall f ensures CountLog(f, log + [r]) == CountLog(f, log) + if Fits(f, r) then 1 else 0 {
      CountLogSnoc(f, log, r);
    }
  }

  /** Whether the handler counts the query at all. */
  predicate Accepted(a: Arrival) {
    a.onLan && |a.req.question| == 1 && a.req.opcode == 0 && a.req.rd
  }

  function Queries(steps: seq<Step>): nat {
    if steps == [] then 0 else Queries(steps[..|steps| - 1]) + if steps[|steps| - 1].Query? then 1 else 0
  }

  function AcceptedQueries(steps: seq<Step>): nat {
    if steps == [] then 0
    else
      var last := steps[|steps| - 1];
      AcceptedQueries(steps[..|steps| - 1]) + if last.Query? && Accepted(last.a) then 1 else 0
  }

  lemma ServeAccounts(c: Config, s: State, a: Arrival)
    requires ResponseCache.Inv(s.cache, c.maxSize) && Accounts(s.counters, s.log)
    requires forall i :: 0 <= i < |s.log| ==> RecordOk(s.log[i])
    ensures
      var t := Serve(c, s, a);
      && Accounts(t.counters, t.log) && |t.replies| == |s.replies| + 1
      && |t.log| == |s.log| + (if Accepted(a) then 1 else 0)
      && forall i :: 0 <= i < |t.log| ==> RecordOk(t.log[i])
  {
    var v := Decide(c, s.lists, s.cache.entries, a);
    CountedIsOneQuestion(c, s.lists, s.cache.entries, a);
    if Counted(v) {
      HitIsNoError(c, s.lists, s.cache, a);
      VerdictAccounts(c, v, a.client, Domain(c, a.req), s.counters, s.log);
    }
  }

  /** Over every run: one reply for each query; one record and one total for each accepted one;
      and each counter equals the number of records it stands for. */
  lemma {:induction false} RunAccounts(c: Config, steps: seq<Step>)
    ensures
      var s := After(c, steps);
      && |s.replies| == Queries(steps) && |s.log| == AcceptedQueries(steps) && Accounts(s.counters, s.log)
      && forall i :: 0 <= i < |s.log| ==> RecordOk(s.log[i])
  {
    if steps != [] {
      var before := steps[..|steps| - 1];
      RunAccounts(c, before);
      RunKeepsCache(c, before);
      var last := steps[|steps| - 1];
      if last.Query? {
        ServeAccounts(c, After(c, before), last.a);
      }
    }
  }

  /** A refused or malformed query leaves no trace but its reply. */
  lemma RejectedLeavesNoTrace(c: Config, s: State, a: Arrival)
    requires !Accepted(a)
    ensures Serve(c, s, a) == s.(replies := Serve(c, s, a).replies)
    ensures |Serve(c, s, a).replies| == |s.replies| + 1
  {
    CountedIsOneQuestion(c, s.lists, s.cache.entries, a);
  }

  // ---- The cached handler agrees with a cacheless one ----------------------------------------

  /** An upstream whose rcode, question echo and records depend on the question, CD and DO alone. */
  type Upstream = Asked -> Content

  function StripContent(x: Content): Content {
    x.(extra := WithoutOpt(x.extra))
  }

  /** The upstream always answers, with any ID and any TTLs. */
  ghost predicate Answers(up: Upstream, a: Arrival) {
    |a.req.question| == 1 ==> a.forward.Replied? && ContentOf(a.forward.msg) == up(AskedOf(a.req))
  }

  lemma StrippedContent(m: Msg)
    ensures ContentOf(Stripped(m)) == StripContent(ContentOf(m))
  {
    StripTimeless(m.extra);
  }

  /** Every entry holds what the upstream says to the question its key stands for. */
  ghost predicate Faithful(c: Config, up: Upstream, entries: map<string, ResponseCache.Entry>) {
    forall k :: k in entries ==> FaithfulEntry(c, up, k, entries[k])
  }

  ghost predicate FaithfulEntry(c: Config, up: Upstream, k: string, e: ResponseCache.Entry) {
    exists q: Asked ::
      k == Key(c.codes, q.question, q.cd, q.dnssec) && ContentOf(e.msg) == StripContent(up(q))
  }

  lemma StoredIsFaithful(c: Config, up: Upstream, a: Arrival, k: string, now: int)
    requires KeyOf(c.codes, a.req) == Some(k) && Answers(up, a)
    ensures FaithfulEntry(c, up, k, ResponseCache.NewEntry(Stripped(a.forward.msg), now))
  {
    var q := AskedOf(a.req);
    StrippedContent(a.forward.msg);
    ResponseCache.CacheKeepsContent(Stripped(a.forward.msg), 0);
    assert k == Key(c.codes, q.question, q.cd, q.dnssec);
  }

  /** A call to the cache keeps it faithful, provided that a Set stores what the upstream said. */
  lemma OpKeepsFaithful(c: Config, up: Upstream, s: ResponseCache.State, op: ResponseCache.Op)
    requires Faithful(c, up, s.entries)
    requires op.Set? ==> forall k :: KeyOf(c.codes, op.req) == Some(k) ==>
              FaithfulEntry(c, up, k, ResponseCache.NewEntry(op.msg, op.now))
    ensures Faithful(c, up, ResponseCache.Next(c.codes, c.maxSize, s, op).entries)
  {
    var t := ResponseCache.Next(c.codes, c.maxSize, s, op);
    forall k | k in t.entries ensures FaithfulEntry(c, up, k, t.entries[k]) {
      ResponseCache.EntryAfterStep(c.codes, c.maxSize, s, op, k);
    }
  }

  lemma ServeKeepsFaithful(c: Config, up: Upstream, lists: Lists, s: ResponseCache.State, a: Arrival)
    requires Faithful(c, up, s.entries) && Answers(up, a)
    ensures Faithful(c, up, CacheAfter(c, lists, s, a).entries)
  {
    var get := ResponseCache.Get(a.req, a.t1, a.t2);
    OpKeepsFaithful(c, up, s, get);
    if Early(c, lists, a) == None {
      EarlyIsOneQuestion(c, lists, a);
      var set_ := ResponseCache.Set(a.req, Stripped(a.forward.msg), a.t3, a.order);
      forall k | KeyOf(c.codes, a.req) == Some(k)
        ensures FaithfulEntry(c, up, k, ResponseCache.NewEntry(Stripped(a.forward.msg), a.t3))
      {
        StoredIsFaithful(c, up, a, k, a.t3);
      }
      OpKeepsFaithful(c, up, ResponseCache.Next(c.codes, c.maxSize, s, get), set_);
    }
  }

  ghost predicate AllAnswer(up: Upstream, steps: seq<Step>) {
    forall i :: 0 <= i < |steps| && steps[i].Query? ==> Answers(up, steps[i].a)
  }

  lemma {:induction false} RunKeepsFaithful(c: Config, up: Upstream, steps: seq<Step>)
    requires AllAnswer(up, steps)
    ensures Faithful(c, up, After(c, steps).cache.entries)
  {
    if steps != [] {
      var before := steps[..|steps| - 1];
      RunKeepsFaithful(c, up, before);
      StepKeepsFaithful(c, up, After(c, before), steps[|steps| - 1]);
    }
  }

  lemma StepKeepsFaithful(c: Config, up: Upstream, s: State, step: Step)
    requires Faithful(c, up, s.cache.entries) && (step.Query? ==> Answers(up, step.a))
    ensures Faithful(c, up, Next(c, s, step).cache.entries)
  {
    match step
    case Query(a) => ServeKeepsFaithful(c, up, s.lists, s.cache, a);
    case SetLists(_) =>
    case Flush =>
    case Sweep(now) => OpKeepsFaithful(c, up, s.cache, ResponseCache.Sweep(now));
  }

  /** The key decides the question, so the entry is the answer to this one. */
  lemma EntryContent(c: Config, up: Upstream, req: Msg, k: string, e: ResponseCache.Entry)
    requires c.codes.Valid() && |req.question| == 1 && KeyOf(c.codes, req) == Some(k) && FaithfulEntry(c, up, k, e)
    ensures ContentOf(e.msg) == StripContent(up(AskedOf(req)))
  {
    var q: Asked :| k == Key(c.codes, q.question, q.cd, q.dnssec) && ContentOf(e.msg) == StripContent(up(q));
    var p := AskedOf(req);
    KeyInjective(c.codes, q.question, q.cd, q.dnssec, p.question, p.cd, p.dnssec);
  }

  lemma HitEntry(c: Config, entries: map<string, ResponseCache.Entry>, a: Arrival) returns (k: string, elapsed: U32)
    requires Cached(c, entries, a).Some?
    ensures KeyOf(c.codes, a.req) == Some(k) && k in entries
    ensures Cached(c, entries, a) == Some(ResponseCache.AgeMsg(entries[k].msg, elapsed))
  {
    ResponseCache.LookupMeans(c.codes, entries, a.req, a.t1, a.t2);
    k := KeyOf(c.codes, a.req).value;
    elapsed := ResponseCache.WholeSeconds(a.t2 - entries[k].cached);
  }

  /** A hit has the content the upstream would give, stripped. */
  lemma HitContent(c: Config, up: Upstream, entries: map<string, ResponseCache.Entry>, a: Arrival)
    requires c.codes.Valid() && Faithful(c, up, entries) && |a.req.question| == 1 && Cached(c, entries, a).Some?
    ensures ContentOf(Cached(c, entries, a).value) == StripContent(up(AskedOf(a.req)))
  {
    var k, elapsed := HitEntry(c, entries, a);
    EntryContent(c, up, a.req, k, entries[k]);
    AgeKeepsContent(entries[k].msg, elapsed);
  }

  lemma AgeKeepsContent(m: Msg, elapsed: U32)
    ensures ContentOf(ResponseCache.AgeMsg(m, elapsed)) == ContentOf(m)
  {
    ResponseCache.SectionKeepsContent(m.answer, elapsed);
    ResponseCache.SectionKeepsContent(m.ns, elapsed);
    ResponseCache.SectionKeepsContent(m.extra, elapsed);
  }

  /** The block decision looks at no TTL. */
  lemma ChainLooksAtContent(c: Config, lists: Lists, domain: string, m: Msg, n: Msg)
    requires ContentOf(m) == ContentOf(n)
    ensures ChainBlocked(c, lists, domain, m) <==> ChainBlocked(c, lists, domain, n)
  {
    SameTargets(c, lists, m.answer, n.answer);
    SameTargets(c, lists, n.answer, m.answer);
  }

  lemma SameTargets(c: Config, lists: Lists, a: seq<RR>, b: seq<RR>)
    requires TimelessAll(a) == TimelessAll(b)
    ensures (exists i :: 0 <= i < |a| && BadTarget(c, lists, a[i])) ==>
              exists i :: 0 <= i < |b| && BadTarget(c, lists, b[i])
  {
    if i :| 0 <= i < |a| && BadTarget(c, lists, a[i]) {
      assert TimelessAll(a)[i] == TimelessAll(b)[i];
      assert BadTarget(c, lists, b[i]);
    }
  }

  // ---- Replies have the same content ---------------------------------------------------------

  /** What send does to a reply's content. */
  function FinishOn(opt: Option<RR>, x: Content): Content {
    if opt.Some? then if OptIndex(x.extra) < 0 then x.(extra := x.extra + [Timeless(opt.value)]) else x
    else if x.rcode > 0xF then x.(rcode := SERVFAIL)
    else x
  }

  lemma SameOpt(rrs: seq<RR>)
    ensures OptIndex(TimelessAll(rrs)) < 0 <==> OptIndex(rrs) < 0
  {
    var t := TimelessAll(rrs);
    if OptIndex(t) >= 0 {
      assert rrs[OptIndex(t)].rrtype == OPT;
    }
    if OptIndex(rrs) >= 0 {
      assert t[OptIndex(rrs)].rrtype == OPT;
    }
  }

  lemma TimelessSnoc(rrs: seq<RR>, rr: RR)
    ensures TimelessAll(rrs + [rr]) == TimelessAll(rrs) + [Timeless(rr)]
  {
    assert (rrs + [rr])[..|rrs|] == rrs;
  }

  lemma ExtraContent(m: Msg, opt: RR)
    ensures ContentOf(m.(extra := m.extra + [opt])) == ContentOf(m).(extra := TimelessAll(m.extra) + [Timeless(opt)])
  {
    TimelessSnoc(m.extra, opt);
  }

  lemma FinishContent(opt: Option<RR>, id: nat, m: Msg)
    ensures ContentOf(Finish(opt, id, m)) == FinishOn(opt, ContentOf(m))
  {
    SameOpt(m.extra);
    if opt.Some? {
      ExtraContent(m.(id := id), opt.value);
    }
  }

  // ---- One query ---------------------------------------------------------------------------

  /** The same query, whatever the two upstream exchanges and the clock add to it. */
  predicate SameQuery(a: Arrival, b: Arrival) {
    a.onLan == b.onLan && a.client == b.client && a.req == b.req && a.ownPtr == b.ownPtr && a.lan == b.lan
  }

  function Cacheless(c: Config): Config {
    c.(cacheOn := false)
  }

  lemma SameEarly(c: Config, lists: Lists, a: Arrival, b: Arrival)
    requires SameQuery(a, b)
    ensures Early(c, lists, a) == Early(Cacheless(c), lists, b)
    ensures Early(c, lists, a).Some? ==> !Early(c, lists, a).value.Hit?
  {
  }

  /** The verdicts agree but for where a relayed answer came from. */
  predicate SameVerdict(v: Verdict, w: Verdict) {
    (v == w && !w.Hit?) || ((v.Hit? || v.Relayed?) && w.Relayed? && ContentOf(v.msg) == ContentOf(w.msg))
  }

  lemma LateContent(c: Config, up: Upstream, lists: Lists, entries: map<string, ResponseCache.Entry>, a: Arrival,
                    m: Msg)
    requires c.codes.Valid() && Faithful(c, up, entries) && |a.req.question| == 1 && Answers(up, a)
    requires m == if Cached(c, entries, a).Some? then Cached(c, entries, a).value else Stripped(a.forward.msg)
    ensures ContentOf(m) == StripContent(up(AskedOf(a.req)))
  {
    if Cached(c, entries, a).Some? {
      HitContent(c, up, entries, a);
    } else {
      StrippedContent(a.forward.msg);
    }
  }

  lemma SameLate(c: Config, up: Upstream, lists: Lists, entries: map<string, ResponseCache.Entry>,
                 entries': map<string, ResponseCache.Entry>, a: Arrival, b: Arrival)
    requires c.codes.Valid() && Faithful(c, up, entries) && |a.req.question| == 1
    requires SameQuery(a, b) && Answers(up, a) && Answers(up, b)
    ensures SameVerdict(Late(c, lists, entries, a), Late(Cacheless(c), lists, entries', b))
  {
    var m := if Cached(c, entries, a).Some? then Cached(c, entries, a).value else Stripped(a.forward.msg);
    var n := Stripped(b.forward.msg);
    LateContent(c, up, lists, entries, a, m);
    StrippedContent(b.forward.msg);
    ChainLooksAtContent(c, lists, Domain(c, a.req), m, n);
    SameChain(c, lists, Domain(c, a.req), n);
  }

  lemma SameChain(c: Config, lists: Lists, domain: string, m: Msg)
    ensures ChainBlocked(c, lists, domain, m) <==> ChainBlocked(Cacheless(c), lists, domain, m)
  {
    forall i | 0 <= i < |m.answer|
      ensures BadTarget(c, lists, m.answer[i]) <==> BadTarget(Cacheless(c), lists, m.answer[i])
    {
    }
  }

  lemma SameDecision(c: Config, up: Upstream, lists: Lists, entries: map<string, ResponseCache.Entry>,
                     entries': map<string, ResponseCache.Entry>, a: Arrival, b: Arrival)
    requires c.codes.Valid() && Faithful(c, up, entries) && SameQuery(a, b) && Answers(up, a) && Answers(up, b)
    ensures SameVerdict(Decide(c, lists, entries, a), Decide(Cacheless(c), lists, entries', b))
  {
    SameEarly(c, lists, a, b);
    if Early(c, lists, a) == None {
      EarlyIsOneQuestion(c, lists, a);
      SameLate(c, up, lists, entries, entries', a, b);
    }
  }

  /** What is made here does not depend on the cache. */
  lemma SameDraft(c: Config, v: Verdict, req: Msg)
    requires Counted(v) ==> |req.question| == 1
    ensures Draft(c, v, req) == Draft(Cacheless(c), v, req)
  {
    if v.Block? {
      assert Sinkhole(c, req, req.question[0]) == Sinkhole(Cacheless(c), req, req.question[0]);
    }
  }

  lemma SameFinish(req: Msg, d: Msg, e: Msg)
    requires ContentOf(d) == ContentOf(e)
    ensures ContentOf(Send(req, d)) == ContentOf(Send(req, e))
  {
    FinishContent(ClientOpt(req), req.id, d);
    FinishContent(ClientOpt(req), req.id, e);
  }

  lemma SameReplyHere(c: Config, v: Verdict, req: Msg)
    requires Counted(v) ==> |req.question| == 1
    ensures ReplyOf(c, v, req) == ReplyOf(Cacheless(c), v, req)
  {
    SameDraft(c, v, req);
  }

  lemma RelayedReply(c: Config, v: Verdict, req: Msg)
    requires (v.Hit? || v.Relayed?) && |req.question| == 1
    ensures ReplyOf(c, v, req) == Send(req, v.msg)
  {
  }

  lemma SameReply(c: Config, v: Verdict, w: Verdict, req: Msg)
    requires SameVerdict(v, w) && (Counted(v) ==> |req.question| == 1)
    ensures Counted(w) ==> |req.question| == 1
    ensures ContentOf(ReplyOf(c, v, req)) == ContentOf(ReplyOf(Cacheless(c), w, req))
  {
    if v == w {
      SameReplyHere(c, v, req);
    } else {
      RelayedReply(c, v, req);
      RelayedReply(Cacheless(c), w, req);
      SameFinish(req, v.msg, w.msg);
    }
  }

  lemma SameRecord(c: Config, v: Verdict, w: Verdict, client: string, domain: string)
    requires SameVerdict(v, w) && Counted(v)
    ensures Counted(w)
    ensures RecordOf(c, v, client, domain).(cacheHit := false) == RecordOf(Cacheless(c), w, client, domain)
  {
  }

  // ---- Every run ----------------------------------------------------------------------------

  predicate SameSteps(steps: seq<Step>, steps': seq<Step>) {
    && |steps| == |steps'|
    && forall i :: 0 <= i < |steps| ==>
         if steps[i].Query? then steps'[i].Query? && SameQuery(steps[i].a, steps'[i].a) else steps[i] == steps'[i]
  }

  ghost predicate SameReplies(xs: seq<Msg>, ys: seq<Msg>) {
    |xs| == |ys| && forall i :: 0 <= i < |xs| ==> ContentOf(xs[i]) == ContentOf(ys[i])
  }

  predicate SameLog(xs: seq<Record>, ys: seq<Record>) {
    |xs| == |ys| && forall i :: 0 <= i < |xs| ==> xs[i].(cacheHit := false) == ys[i]
  }

  /** Two states that a client and an operator cannot tell apart, TTLs and the cache-hit flag
      aside. */
  ghost predicate Agree(s: State, t: State) {
    s.lists == t.lists && SameReplies(s.replies, t.replies) && SameLog(s.log, t.log)
  }

  lemma SameRepliesSnoc(xs: seq<Msg>, ys: seq<Msg>, x: Msg, y: Msg)
    requires SameReplies(xs, ys) && ContentOf(x) == ContentOf(y)
    ensures SameReplies(xs + [x], ys + [y])
  {
  }

  lemma ConcludedAgrees(c: Config, s: State, t: State, k: ResponseCache.State, k': ResponseCache.State,
                        v: Verdict, w: Verdict, a: Arrival, b: Arrival)
    requires Agree(s, t) && SameVerdict(v, w) && SameQuery(a, b) && (Counted(v) ==> |a.req.question| == 1)
    ensures Agree(Concluded(c, s, k, v, a), Concluded(Cacheless(c), t, k', w, b))
  {
    SameReply(c, v, w, a.req);
    SameRepliesSnoc(s.replies, t.replies, ReplyOf(c, v, a.req), ReplyOf(Cacheless(c), w, a.req));
    if Counted(v) {
      SameRecord(c, v, w, a.client, Domain(c, a.req));
      SameLogSnoc(s.log, t.log, RecordOf(c, v, a.client, Domain(c, a.req)),
                  RecordOf(Cacheless(c), w, a.client, Domain(c, a.req)));
    }
  }

  lemma SameLogSnoc(xs: seq<Record>, ys: seq<Record>, x: Record, y: Record)
    requires SameLog(xs, ys) && x.(cacheHit := false) == y
    ensures SameLog(xs + [x], ys + [y])
  {
  }

  lemma ServeAgrees(c: Config, up: Upstream, s: State, t: State, a: Arrival, b: Arrival)
    requires c.codes.Valid() && Faithful(c, up, s.cache.entries) && Agree(s, t)
    requires SameQuery(a, b) && Answers(up, a) && Answers(up, b)
    ensures Agree(Serve(c, s, a), Serve(Cacheless(c), t, b))
  {
    var v := Decide(c, s.lists, s.cache.entries, a);
    var w := Decide(Cacheless(c), t.lists, t.cache.entries, b);
    SameDecision(c, up, s.lists, s.cache.entries, t.cache.entries, a, b);
    CountedIsOneQuestion(c, s.lists, s.cache.entries, a);
    ConcludedAgrees(c, s, t, CacheAfter(c, s.lists, s.cache, a), CacheAfter(Cacheless(c), t.lists, t.cache, b),
                    v, w, a, b);
  }

  /** For every run of queries, list changes, purges and sweeps, against an upstream that always
      answers and whose replies depend on question, CD and DO alone, the handler with a cache and
      the one without echo the same question and send the same records, TTLs aside, and write the
      same log but for the cache-hit flag; in particular they block the same queries for the same reason. */
  lemma {:induction false} CachedAgreesWithCacheless(c: Config, up: Upstream, steps: seq<Step>, steps': seq<Step>)
    requires c.codes.Valid() && SameSteps(steps, steps') && AllAnswer(up, steps) && AllAnswer(up, steps')
    ensures Agree(After(c, steps), After(Cacheless(c), steps'))
  {
    if steps != [] {
      var n := |steps| - 1;
      CachedAgreesWithCacheless(c, up, steps[..n], steps'[..n]);
      RunKeepsFaithful(c, up, steps[..n]);
      var (s, t) := (After(c, steps[..n]), After(Cacheless(c), steps'[..n]));
      assert SameSteps([steps[n]], [steps'[n]]);
      if steps[n].Query? {
        ServeAgrees(c, up, s, t, steps[n].a, steps'[n].a);
      }
    }
  }
}
