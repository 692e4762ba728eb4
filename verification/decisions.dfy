/** internal/dnsserver/handler.go: when exactly a query ends in each way, and what it then gets. */
module Decisions {
  import opened CacheKey
  import opened Message
  import opened Pipeline
  import opened Privacy
  import opened QueryHandler
  import opened QueryRecord
  import opened Text
  import opened Wrappers
  import Blocklist
  import CacheLife
  import LocalNames
  import Replies
  import ResponseCache
  import ReverseNames
  import Snapshots

  // ---- Before the cache ----------------------------------------------------------------

  /** What is wrong with a query that is not resolved, by its rcode. */
  predicate Flawed(req: Msg, rcode: nat) {
    if |req.question| != 1 then rcode == SERVFAIL
    else if req.opcode != 0 then rcode == NOTIMP
    else !req.rd && rcode == REFUSED
  }

  /** A reverse lookup that is answered here. */
  ghost predicate OwnLookup(c: Config, a: Arrival)
    requires |a.req.question| == 1
  {
    c.localPTR && (ReverseNames.PrivatePtr(c.fold, c.zones, a.req.question[0].qtype, Domain(c, a.req)) || a.ownPtr)
  }

  function ClassOf(c: Config, a: Arrival): LocalNames.Class
    requires |a.req.question| == 1
  {
    LocalNames.Classify(a.req.question[0].qtype, Domain(c, a.req), c.localDomains)
  }

  /** Someone may be asked for the name: it is public, or it is local and an upstream is on the LAN. */
  ghost predicate MayAsk(c: Config, a: Arrival)
    requires |a.req.question| == 1
  {
    ClassOf(c, a).Public? || (ClassOf(c, a).LanOnly? && exists u :: u in c.upstreams && u in a.lan)
  }

  /** Some label suffix of the name is blocked and none is allowlisted. */
  ghost predicate Listed(c: Config, lists: Lists, name: string) {
    && (exists s :: s in lists.blocked && LabelSuffix(s, Blocklist.Normalize(c.fold, name)))
    && forall s :: s in lists.allow ==> !LabelSuffix(s, Blocklist.Normalize(c.fold, name))
  }

  lemma SuffixInMeans(name: string, entries: set<string>)
    ensures SuffixIn(name, entries) <==> exists s :: s in entries && LabelSuffix(s, name)
  {
    if p :| Start(name, p) && name[p..] in entries {
      assert LabelSuffix(name[p..], name);
    }
  }

  lemma ListedIsBlocked(c: Config, lists: Lists, name: string)
    ensures Listed(c, lists, name) <==> NameBlocked(c, lists, name)
  {
    SuffixInMeans(Blocklist.Normalize(c.fold, name), lists.blocked);
    SuffixInMeans(Blocklist.Normalize(c.fold, name), lists.allow);
  }

  /** lanUpstreams takes the list apart entry by entry, and keeps those on the LAN in place. */
  lemma {:induction false} LanUpstreamsSplit(a: seq<string>, b: seq<string>, lan: set<string>)
    ensures LanUpstreams(a + b, lan) == LanUpstreams(a, lan) + LanUpstreams(b, lan)
  {
    if b == [] {
      assert a + b == a;
    } else {
      var n := |b| - 1;
      LanUpstreamsSplit(a, b[..n], lan);
      LanUpstreamsSnoc(a + b[..n], b[n], lan);
      assert a + b == a + b[..n] + [b[n]];
      LanUpstreamsSnoc(b[..n], b[n], lan);
      assert b == b[..n] + [b[n]];
    }
  }

  lemma LanUpstreamsSnoc(list: seq<string>, u: string, lan: set<string>)
    ensures LanUpstreams(list + [u], lan) == LanUpstreams(list, lan) + if u in lan then [u] else []
  {
    assert (list + [u])[..|list|] == list;
  }

  lemma LanUpstreamsOne(u: string, lan: set<string>)
    ensures LanUpstreams([u], lan) == if u in lan then [u] else []
  {
    assert [u][..0] == [];
  }

  lemma {:induction false} LanUpstreamsHas(list: seq<string>, lan: set<string>, u: string)
    ensures u in LanUpstreams(list, lan) <==> u in list && u in lan
  {
    if list != [] {
      var n := |list| - 1;
      LanUpstreamsHas(list[..n], lan, u);
      assert list == list[..n] + [list[n]];
    }
  }

  lemma NoLanUpstream(list: seq<string>, lan: set<string>)
    ensures LanUpstreams(list, lan) == [] <==> forall u :: !(u in list && u in lan)
  {
    if LanUpstreams(list, lan) != [] {
      LanUpstreamsHas(list, lan, LanUpstreams(list, lan)[0]);
    }
    forall u | u in list && u in lan ensures LanUpstreams(list, lan) != [] {
      LanUpstreamsHas(list, lan, u);
    }
  }

  /** The query is refused, or rejected with the rcode, exactly when it is at fault. */
  lemma RejectedExactly(c: Config, lists: Lists, entries: map<string, ResponseCache.Entry>, a: Arrival, rcode: nat)
    ensures
      var v := Decide(c, lists, entries, a);
      && (v == Refused <==> !a.onLan)
      && (v == Rejected(rcode) <==> a.onLan && Flawed(a.req, rcode))
      && (!v.Refused? && !v.Rejected? <==> Accepted(a))
  {
  }

  /** An accepted query is answered here without its name being looked up, blocked by its name, or
      taken to the cache and the upstreams: exactly when what each line says holds. */
  lemma AcceptedEndsExactly(c: Config, lists: Lists, entries: map<string, ResponseCache.Entry>, a: Arrival)
    requires Accepted(a)
    ensures
      var v := Decide(c, lists, entries, a);
      var class_ := ClassOf(c, a);
      && (v == LocalPtr <==> OwnLookup(c, a))
      && (v == LocalHost <==> !OwnLookup(c, a) && class_.Localhost?)
      && (v == LocalNx <==> !OwnLookup(c, a) && !class_.Localhost? && !MayAsk(c, a))
      && (v == Block(ByName) <==> !OwnLookup(c, a) && MayAsk(c, a) && Listed(c, lists, Domain(c, a.req)))
      && (WentOn(v) <==> !OwnLookup(c, a) && MayAsk(c, a) && !Listed(c, lists, Domain(c, a.req)))
  {
    NoLanUpstream(c.upstreams, a.lan);
    ListedIsBlocked(c, lists, Domain(c, a.req));
  }

  /** A public name that is not listed, and whose lookup is not answered here, is looked up; with
      empty lists that is every one. */
  lemma PublicNameGoesOn(c: Config, lists: Lists, entries: map<string, ResponseCache.Entry>, a: Arrival)
    requires Accepted(a) && ClassOf(c, a).Public? && !OwnLookup(c, a)
    ensures WentOn(Decide(c, lists, entries, a)) <==> !Listed(c, lists, Domain(c, a.req))
    ensures lists.blocked == {} ==> WentOn(Decide(c, lists, entries, a))
  {
    AcceptedEndsExactly(c, lists, entries, a);
  }

  // ---- From the cache on -----------------------------------------------------------------

  /** The answer that a query gets to see: the cached one, or else the upstream's without its OPT
      records. */
  function Obtained(c: Config, entries: map<string, ResponseCache.Entry>, a: Arrival): Option<Msg> {
    match Cached(c, entries, a)
    case Some(m) => Some(m)
    case None => if a.forward.Replied? then Some(Stripped(a.forward.msg)) else None
  }

  /** A CNAME record of the answer leads to a listed name. */
  ghost predicate LeadsToListed(c: Config, lists: Lists, m: Msg) {
    exists i, t :: 0 <= i < |m.answer| && m.answer[i].data == Cname(t) && Listed(c, lists, t)
  }

  lemma LeadsToBad(c: Config, lists: Lists, m: Msg)
    ensures LeadsToListed(c, lists, m) <==> exists i :: 0 <= i < |m.answer| && BadTarget(c, lists, m.answer[i])
  {
    if i, t :| 0 <= i < |m.answer| && m.answer[i].data == Cname(t) && Listed(c, lists, t) {
      ListedIsBlocked(c, lists, t);
      assert BadTarget(c, lists, m.answer[i]);
    }
    if i :| 0 <= i < |m.answer| && BadTarget(c, lists, m.answer[i]) {
      ListedIsBlocked(c, lists, m.answer[i].data.target);
      assert m.answer[i].data == Cname(m.answer[i].data.target);
    }
  }

  /** How a query that is looked up ends: unresolved without an answer; blocked when inspection is on,
      the answer is NOERROR, a CNAME record of it leads to a listed name and no label suffix of the
      name asked for is allowlisted; and otherwise with that answer, from the cache if it is there. */
  ghost predicate EndsWith(c: Config, lists: Lists, a: Arrival, answer: Option<Msg>, cached: bool, v: Verdict)
    requires |a.req.question| == 1
  {
    match answer
    case None => v == Unresolved
    case Some(m) =>
      if && c.cnameInspection && m.rcode == NOERROR && LeadsToListed(c, lists, m)
         && forall s :: s in lists.allow ==> !LabelSuffix(s, Blocklist.Normalize(c.fold, Domain(c, a.req)))
      then v == Block(ByCname)
      else v == if cached then Hit(m) else Relayed(m)
  }

  lemma LateEnds(c: Config, lists: Lists, entries: map<string, ResponseCache.Entry>, a: Arrival)
    requires |a.req.question| == 1
    ensures EndsWith(c, lists, a, Obtained(c, entries, a), Cached(c, entries, a).Some?, Late(c, lists, entries, a))
  {
    SuffixInMeans(Blocklist.Normalize(c.fold, Domain(c, a.req)), lists.allow);
    if Obtained(c, entries, a).Some? {
      LeadsToBad(c, lists, Obtained(c, entries, a).value);
    }
  }

  lemma LookedUpEndsExactly(c: Config, lists: Lists, entries: map<string, ResponseCache.Entry>, a: Arrival)
    requires WentOn(Decide(c, lists, entries, a)) && |a.req.question| == 1
    ensures EndsWith(c, lists, a, Obtained(c, entries, a), Cached(c, entries, a).Some?, Decide(c, lists, entries, a))
  {
    LateEnds(c, lists, entries, a);
  }

  /** An allowlisted name is never blocked, by itself or by where its chain leads. */
  lemma AllowlistedIsNeverBlocked(c: Config, lists: Lists, entries: map<string, ResponseCache.Entry>, a: Arrival,
                                  s: string)
    requires |a.req.question| == 1
    requires s in lists.allow && LabelSuffix(s, Blocklist.Normalize(c.fold, Domain(c, a.req)))
    ensures !Decide(c, lists, entries, a).Block?
  {
    SuffixInMeans(Blocklist.Normalize(c.fold, Domain(c, a.req)), lists.allow);
  }

  // ---- The counters of a run ---------------------------------------------------------------

  /** How the queries of the run have ended. */
  ghost function Verdicts(c: Config, steps: seq<Step>): seq<Verdict> {
    if steps == [] then []
    else
      var n := |steps| - 1;
      var s := After(c, steps[..n]);
      Verdicts(c, steps[..n]) +
      if steps[n].Query? then [Decide(c, s.lists, s.cache.entries, steps[n].a)] else []
  }

  /** The verdicts that a counter counts. */
  predicate CountedBy(f: Snapshots.Field, v: Verdict) {
    match f
    case Total => !v.Refused? && !v.Rejected?
    case Blocked => v == Block(ByName) || v == Block(ByCname)
    case CnameBlocked => v == Block(ByCname)
    case LocalPTR => v == LocalPtr
    case LocalName => v == LocalHost || v == LocalNx
    case CacheHit => v.Hit?
    case ForwardFailure => v == Unresolved
    case UpstreamError => v.Relayed? && (v.msg.rcode == SERVFAIL || v.msg.rcode == REFUSED)
  }

  function CountOf(f: Snapshots.Field, vs: seq<Verdict>): nat {
    if vs == [] then 0 else CountOf(f, vs[..|vs| - 1]) + if CountedBy(f, vs[|vs| - 1]) then 1 else 0
  }

  lemma {:induction false} BumpedOnce(k: Snapshots.Counters, fs: seq<Snapshots.Field>, f: Snapshots.Field)
    requires forall i, j :: 0 <= i < j < |fs| ==> fs[i] != fs[j]
    ensures Bumped(k, fs).Get(f) == k.Get(f) + if f in fs then 1 else 0
    decreases |fs|
  {
    if fs != [] {
      BumpedOnce(k.Inc(fs[0]), fs[1..], f);
      assert fs == [fs[0]] + fs[1..];
    }
  }

  lemma BumpsAreThese(v: Verdict, f: Snapshots.Field)
    ensures f in Bumps(v) <==> CountedBy(f, v)
    ensures forall i, j :: 0 <= i < j < |Bumps(v)| ==> Bumps(v)[i] != Bumps(v)[j]
  {
  }

  lemma VerdictCounts(k: Snapshots.Counters, v: Verdict, f: Snapshots.Field)
    ensures Bumped(k, Bumps(v)).Get(f) == k.Get(f) + if CountedBy(f, v) then 1 else 0
  {
    BumpsAreThese(v, f);
    BumpedOnce(k, Bumps(v), f);
  }

  lemma StepCounts(c: Config, s: State, step: Step, f: Snapshots.Field)
    ensures Next(c, s, step).counters.Get(f) ==
            s.counters.Get(f)
            + if step.Query? && CountedBy(f, Decide(c, s.lists, s.cache.entries, step.a)) then 1 else 0
  {
    if step.Query? {
      VerdictCounts(s.counters, Decide(c, s.lists, s.cache.entries, step.a), f);
    }
  }

  lemma CountOfSnoc(f: Snapshots.Field, vs: seq<Verdict>, v: Verdict)
    ensures CountOf(f, vs + [v]) == CountOf(f, vs) + if CountedBy(f, v) then 1 else 0
  {
    assert (vs + [v])[..|vs|] == vs;
  }

  /** Over every run each counter is the number of queries that ended in its way. */
  lemma {:induction false} RunCounts(c: Config, steps: seq<Step>, f: Snapshots.Field)
    ensures After(c, steps).counters.Get(f) == CountOf(f, Verdicts(c, steps))
  {
    if steps != [] {
      var n := |steps| - 1;
      var s := After(c, steps[..n]);
      RunCounts(c, steps[..n], f);
      StepCounts(c, s, steps[n], f);
      if steps[n].Query? {
        CountOfSnoc(f, Verdicts(c, steps[..n]), Decide(c, s.lists, s.cache.entries, steps[n].a));
      } else {
        assert Verdicts(c, steps[..n]) + [] == Verdicts(c, steps[..n]);
      }
    }
  }

  // ---- What the client gets ------------------------------------------------------------------

  /** The rcode of a reply that is made here. */
  function LocalRcode(c: Config, v: Verdict): nat
    requires !v.Hit? && !v.Relayed?
  {
    match v
    case Refused => REFUSED
    case Rejected(rcode) => rcode
    case LocalPtr => NXDOMAIN
    case LocalHost => NOERROR
    case LocalNx => NXDOMAIN
    case Block(_) => if c.nxdomain then NXDOMAIN else NOERROR
    case Unresolved => SERVFAIL
  }

  /** The records of a reply that is made here: the unspecified address for a blocked name, the
      loopback address for localhost, each only of the type asked for. */
  predicate LocalRecords(c: Config, v: Verdict, q: Question, answer: seq<RR>) {
    if v.Block? then Replies.EmptyAnswer(c, q, answer)
    else if v.LocalHost? && q.qtype == TYPE_A then
      answer == [RR(q.name, TYPE_A, CLASS_IN, 3600, Raw([127, 0, 0, 1]))]
    else if v.LocalHost? && q.qtype == TYPE_AAAA then
      answer == [RR(q.name, TYPE_AAAA, CLASS_IN, 3600, Raw([0, 0, 0, 0, 0, 0, 0, 0, 0, 0, 0, 0, 0, 0, 0, 1]))]
    else answer == []
  }

  /** A reply that is made here answers the client's message and is nothing but header, question and
      these records. */
  lemma LocalDraftMeans(c: Config, v: Verdict, req: Msg)
    requires !v.Hit? && !v.Relayed? && |req.question| == 1
    ensures
      var m := Draft(c, v, req);
      && m.response && m.opcode == req.opcode && !m.truncated && !m.ad
      && m.rd == (req.opcode == 0 && req.rd) && m.cd == (req.opcode == 0 && req.cd)
      && m.question == req.question && m.ns == [] && m.extra == [] && LocalRecords(c, v, req.question[0], m.answer)
      && m.rcode == LocalRcode(c, v)
      && (m.authoritative <==> v.LocalPtr? || v.LocalHost? || v.LocalNx? || v.Block?)
  {
    if v.Block? {
      Replies.SinkholeIsEmpty(c, req, req.question[0]);
    } else if v.LocalHost? {
      assert Zeroes(15) + [1] == [0, 0, 0, 0, 0, 0, 0, 0, 0, 0, 0, 0, 0, 0, 0, 1];
    }
  }

  lemma LocalReplyMeans(c: Config, v: Verdict, req: Msg)
    requires !v.Hit? && !v.Relayed? && |req.question| == 1 && (v.Rejected? ==> v.rcode <= 0xF)
    ensures
      var m := ReplyOf(c, v, req);
      && m.id == req.id && m.response && m.opcode == req.opcode && !m.truncated && !m.ad
      && m.rd == (req.opcode == 0 && req.rd) && m.cd == (req.opcode == 0 && req.cd)
      && m.question == req.question && m.ns == [] && LocalRecords(c, v, req.question[0], m.answer)
      && m.rcode == LocalRcode(c, v)
      && (m.authoritative <==> v.LocalPtr? || v.LocalHost? || v.LocalNx? || v.Block?)
      && (if v.Refused? then m.extra == [] else Replies.OptIsOwn(req, m))
  {
    LocalDraftMeans(c, v, req);
    Replies.SendIsOwn(req, Draft(c, v, req));
  }

  /** An answer that is relayed comes as it was obtained: only the ID and the OPT record are the
      client's own, and the rcode if the client cannot take it. */
  lemma RelayedReplyMeans(c: Config, v: Verdict, req: Msg)
    requires (v.Hit? || v.Relayed?) && |req.question| == 1 && Replies.NoOpt(v.msg.extra)
    ensures
      var m := ReplyOf(c, v, req);
      && m == v.msg.(id := req.id, rcode := m.rcode, extra := m.extra) && v.msg.extra <= m.extra
      && m.rcode == (if v.msg.rcode > 0xF && !Replies.SentOpt(req) then SERVFAIL else v.msg.rcode)
      && Replies.OptIsOwn(req, m)
  {
    Replies.SendIsOwn(req, v.msg);
  }

  // ---- What a query leaves behind --------------------------------------------------------------

  /** The record of an accepted query: the client, the name in lower case, and how it ended. */
  lemma NextRecordMeans(c: Config, s: State, a: Arrival)
    requires Accepted(a)
    ensures
      var v := Decide(c, s.lists, s.cache.entries, a);
      var log := Serve(c, s, a).log;
      && Counted(v) && |log| == |s.log| + 1 && s.log <= log
      && var r := log[|s.log|];
         && r.clientIP == a.client && r.domain == ToLower(c.fold, a.req.question[0].name)
         && (r.blocked <==> v.Block?) && (v.Block? ==> r.source == v.source) && (r.cacheHit <==> v.Hit?)
         && (r.synthesized <==> !v.Hit? && !v.Relayed?)
         && r.rcode == if v.Hit? || v.Relayed? then v.msg.rcode else LocalRcode(c, v)
  {
    CountedIsOneQuestion(c, s.lists, s.cache.entries, a);
    RecordMeans(c, Decide(c, s.lists, s.cache.entries, a), a.client, Domain(c, a.req));
  }

  lemma RecordMeans(c: Config, v: Verdict, client: string, domain: string)
    requires Counted(v)
    ensures
      var r := RecordOf(c, v, client, domain);
      && r.clientIP == client && r.domain == domain
      && (r.blocked <==> v.Block?) && (v.Block? ==> r.source == v.source) && (r.cacheHit <==> v.Hit?)
      && (r.synthesized <==> !v.Hit? && !v.Relayed?)
      && r.rcode == if v.Hit? || v.Relayed? then v.msg.rcode else LocalRcode(c, v)
  {
  }

  /** A query that is answered here does not touch the cache; one that is looked up counts one hit or
      one miss and, short of an upstream's reply, changes nothing else. */
  lemma CacheUse(c: Config, s: State, a: Arrival)
    requires |a.req.question| == 1
    ensures
      var v := Decide(c, s.lists, s.cache.entries, a);
      var (k, found) := (Serve(c, s, a).cache, Cached(c, s.cache.entries, a).Some?);
      if !c.cacheOn || !WentOn(v) then k == s.cache
      else
        && k.hits == s.cache.hits + (if found then 1 else 0) && k.misses == s.cache.misses + (if found then 0 else 1)
        && (found || !a.forward.Replied? ==> k.entries == s.cache.entries && k.dropped == s.cache.dropped)
  {
  }

  /** The query asks the upstream, whose reply may be kept, and the cache does not drop it. */
  ghost predicate Keeps(c: Config, lists: Lists, s: ResponseCache.State, a: Arrival) {
    && |a.req.question| == 1 && c.cacheOn && WentOn(Decide(c, lists, s.entries, a))
    && Cached(c, s.entries, a) == None && a.forward.Replied?
    && ResponseCache.Storable(Stripped(a.forward.msg)) && CacheAfter(c, lists, s, a).dropped == s.dropped
  }

  function SetOf(a: Arrival): ResponseCache.Op
    requires a.forward.Replied?
  {
    ResponseCache.Set(a.req, Stripped(a.forward.msg), a.t3, a.order)
  }

  lemma WentOnIsNotEarly(c: Config, lists: Lists, entries: map<string, ResponseCache.Entry>, a: Arrival)
    ensures WentOn(Decide(c, lists, entries, a)) <==> Early(c, lists, a) == None
  {
  }

  lemma CacheAfterMiss(c: Config, lists: Lists, s: ResponseCache.State, a: Arrival)
    requires c.cacheOn && Early(c, lists, a) == None && Cached(c, s.entries, a) == None && a.forward.Replied?
    ensures
      CacheAfter(c, lists, s, a) == ResponseCache.Next(c.codes, c.maxSize, s.(misses := s.misses + 1), SetOf(a))
  {
  }

  lemma KeptIsPresent(codes: Codes, maxSize: nat, s: ResponseCache.State, op: ResponseCache.Op)
    requires op.Set? && ResponseCache.Storable(op.msg) && |op.req.question| == 1 && ResponseCache.Inv(s, maxSize)
    requires ResponseCache.Next(codes, maxSize, s, op).dropped == s.dropped
    ensures
      var t := ResponseCache.Next(codes, maxSize, s, op);
      CacheLife.Present(codes, t.entries, op) && ResponseCache.Inv(t, maxSize)
  {
    ResponseCache.NextKeepsInv(codes, maxSize, s, op);
    CacheLife.SetStores(codes, maxSize, s, op.req, op.msg, op.now, op.order);
  }

  /** Then the reply is in the cache, without its OPT records, under the key of its question and with
      the time at which it was stored. */
  lemma ReplyIsPresent(c: Config, lists: Lists, s: ResponseCache.State, a: Arrival)
    requires Keeps(c, lists, s, a) && ResponseCache.Inv(s, c.maxSize)
    ensures
      var t := CacheAfter(c, lists, s, a);
      CacheLife.Present(c.codes, t.entries, SetOf(a)) && ResponseCache.Inv(t, c.maxSize)
  {
    WentOnIsNotEarly(c, lists, s.entries, a);
    CacheAfterMiss(c, lists, s, a);
    KeptIsPresent(c.codes, c.maxSize, s.(misses := s.misses + 1), SetOf(a));
  }

  /** And what is in the cache is found by anyone who asks the same question while its TTLs last. */
  lemma PresentIsFound(c: Config, s: ResponseCache.State, op: ResponseCache.Op, b: Arrival)
    requires c.cacheOn && ResponseCache.Inv(s, c.maxSize)
    requires op.Set? && |op.req.question| == 1 && CacheLife.Present(c.codes, s.entries, op)
    requires |b.req.question| == 1 && AskedOf(b.req) == AskedOf(op.req)
    requires CacheLife.TimeLeft(ResponseCache.CappedAll(op.msg.answer), op.now, b.t1)
    ensures
      Cached(c, s.entries, b) ==
        Some(ResponseCache.AgeMsg(ResponseCache.CapMsg(op.msg), ResponseCache.WholeSeconds(b.t2 - op.now)))
  {
    CacheLife.PresentIsServed(c.codes, s.entries, op, b.req, b.t1, b.t2);
  }

  /** A change of the lists applies to the very next query. */
  lemma ListChangeApplies(c: Config, steps: seq<Step>, lists: Lists, a: Arrival)
    ensures
      var s := After(c, steps + [SetLists(lists)]);
      Decide(c, s.lists, s.cache.entries, a) == Decide(c, lists, After(c, steps).cache.entries, a)
  {
    assert (steps + [SetLists(lists)])[..|steps|] == steps;
  }

  /** And after a purge the next query finds nothing in the cache. */
  lemma PurgedIsNotFound(c: Config, steps: seq<Step>, a: Arrival)
    ensures
      var s := After(c, steps + [Flush]);
      Cached(c, s.cache.entries, a) == None && s.lists == After(c, steps).lists
  {
    assert (steps + [Flush])[..|steps|] == steps;
  }

  /** A sweep leaves in the cache exactly the answers with time left. */
  lemma SweptHaveTimeLeft(c: Config, steps: seq<Step>, now: int, k: string)
    ensures
      var before := After(c, steps).cache.entries;
      k in After(c, steps + [Sweep(now)]).cache.entries <==>
        k in before && CacheLife.TimeLeft(before[k].msg.answer, before[k].cached, now)
  {
    assert (steps + [Sweep(now)])[..|steps|] == steps;
    RunKeepsCache(c, steps);
    var before := After(c, steps).cache.entries;
    if k in before {
      CacheLife.ExpiredMeans(before[k], now);
    }
  }
}
