/** internal/dnsserver/edns.go: what a client gets back, over every run: its own ID, the rcode
    that the query log records, and an OPT record of its own exactly when it sent one. */
module Replies {
  import opened Message
  import opened CacheKey
  import opened Wrappers
  import opened QueryRecord
  import opened QueryHandler
  import opened Pipeline
  import ResponseCache

  predicate NoOpt(rrs: seq<RR>) {
    forall k :: 0 <= k < |rrs| ==> rrs[k].rrtype != OPT
  }

  /** No entry of the cache holds an OPT record, so none holds an option of some client. */
  ghost predicate Clean(entries: map<string, ResponseCache.Entry>) {
    forall k :: k in entries ==> NoOpt(entries[k].msg.extra)
  }

  lemma OpKeepsClean(codes: Codes, maxSize: nat, s: ResponseCache.State, op: ResponseCache.Op)
    requires Clean(s.entries) && (op.Set? ==> NoOpt(op.msg.extra))
    ensures Clean(ResponseCache.Next(codes, maxSize, s, op).entries)
  {
    var t := ResponseCache.Next(codes, maxSize, s, op);
    forall k | k in t.entries ensures NoOpt(t.entries[k].msg.extra) {
      ResponseCache.EntryAfterStep(codes, maxSize, s, op, k);
    }
  }

  lemma ServeKeepsClean(c: Config, lists: Lists, s: ResponseCache.State, a: Arrival)
    requires Clean(s.entries)
    ensures Clean(CacheAfter(c, lists, s, a).entries)
  {
    var get := ResponseCache.Get(a.req, a.t1, a.t2);
    OpKeepsClean(c.codes, c.maxSize, s, get);
    if a.forward.Replied? {
      OpKeepsClean(c.codes, c.maxSize, ResponseCache.Next(c.codes, c.maxSize, s, get),
                   ResponseCache.Set(a.req, Stripped(a.forward.msg), a.t3, a.order));
    }
  }

  lemma {:induction false} RunKeepsClean(c: Config, steps: seq<Step>)
    ensures Clean(After(c, steps).cache.entries)
  {
    if steps != [] {
      var s := After(c, steps[..|steps| - 1]);
      RunKeepsClean(c, steps[..|steps| - 1]);
      match steps[|steps| - 1]
      case Query(a) => ServeKeepsClean(c, s.lists, s.cache, a);
      case SetLists(_) =>
      case Flush =>
      case Sweep(now) => OpKeepsClean(c.codes, c.maxSize, s.cache, ResponseCache.Sweep(now));
    }
  }

  /** The query has an OPT record. */
  ghost predicate SentOpt(req: Msg) {
    exists k :: 0 <= k < |req.extra| && req.extra[k].rrtype == OPT
  }

  /** own answers sent: the same UDP size and DO bit, no other flag and no option. */
  ghost predicate Mirrors(own: RR, sent: RR) {
    && own.name == "" && own.rrtype == OPT && own.rrclass == sent.rrclass && own.data == Raw([])
    && own.ttl == if HasBit15(sent.ttl) then 0x8000 else 0
  }

  /** The OPT records of a reply: one at the end that mirrors the query's last one, or none. */
  ghost predicate OptIsOwn(req: Msg, reply: Msg) {
    if SentOpt(req) then
      && reply.extra != [] && NoOpt(reply.extra[..|reply.extra| - 1])
      && exists k: nat :: LastOpt(req.extra, k) && Mirrors(reply.extra[|reply.extra| - 1], req.extra[k])
    else NoOpt(reply.extra)
  }

  lemma ClientOptMeans(req: Msg)
    ensures ClientOpt(req).Some? <==> SentOpt(req)
    ensures ClientOpt(req).Some? ==>
              exists k: nat :: LastOpt(req.extra, k) && Mirrors(ClientOpt(req).value, req.extra[k])
  {
    var i := OptIndex(req.extra);
    if i >= 0 {
      DnssecOkIsBit15(req.extra[i]);
      assert LastOpt(req.extra, i) && Mirrors(ClientOpt(req).value, req.extra[i]);
    }
  }

  /** send: an OPT record exactly when the query has one, an extended rcode only with it, and the
      rest of the reply as it was. */
  lemma SendIsOwn(req: Msg, m: Msg)
    requires NoOpt(m.extra)
    ensures
      var r := Send(req, m);
      && OptIsOwn(req, r) && r == m.(id := req.id, rcode := r.rcode, extra := r.extra) && m.extra <= r.extra
      && |r.extra| == |m.extra| + (if SentOpt(req) then 1 else 0)
      && r.rcode == if m.rcode > 0xF && !SentOpt(req) then SERVFAIL else m.rcode
  {
    ClientOptMeans(req);
    var opt := ClientOpt(req);
    if opt.Some? {
      assert (m.extra + [opt.value])[..|m.extra|] == m.extra;
    }
  }

  /** A relayed answer is clean, from the cache or from the upstream. */
  lemma RelayedIsClean(c: Config, lists: Lists, entries: map<string, ResponseCache.Entry>, a: Arrival)
    requires Clean(entries)
    ensures
      var v := Decide(c, lists, entries, a);
      v.Hit? || v.Relayed? ==> NoOpt(v.msg.extra)
  {
    if Cached(c, entries, a).Some? {
      ResponseCache.LookupMeans(c.codes, entries, a.req, a.t1, a.t2);
    }
  }

  lemma DraftIsClean(c: Config, v: Verdict, req: Msg, client: string, domain: string)
    requires Counted(v) && |req.question| == 1 && (v.Hit? || v.Relayed? ==> NoOpt(v.msg.extra))
    ensures NoOpt(Draft(c, v, req).extra) && Draft(c, v, req).rcode == RecordOf(c, v, client, domain).rcode
  {
    match v
    case Block(_) => SinkholeIsEmpty(c, req, req.question[0]);
    case LocalHost => LoopbackIsBare(req, req.question[0]);
    case LocalPtr =>
    case LocalNx =>
    case Hit(_) =>
    case Relayed(_) =>
    case Unresolved =>
  }

  lemma LoopbackIsBare(req: Msg, q: Question)
    ensures Loopback(req, q).extra == [] && Loopback(req, q).rcode == NOERROR
  {
  }

  lemma ReplyOfIsOwn(c: Config, v: Verdict, req: Msg, client: string, domain: string)
    requires Counted(v) && |req.question| == 1 && (v.Hit? || v.Relayed? ==> NoOpt(v.msg.extra))
    ensures
      var reply := ReplyOf(c, v, req);
      var rcode := RecordOf(c, v, client, domain).rcode;
      && reply.id == req.id && OptIsOwn(req, reply)
      && reply.rcode == if rcode > 0xF && !SentOpt(req) then SERVFAIL else rcode
  {
    DraftIsClean(c, v, req, client, domain);
    SendIsOwn(req, Draft(c, v, req));
  }

  /** After any run, the reply to the next accepted query carries the client's ID, the rcode that
      its log record has (SERVFAIL for an extended one the client cannot take), and no OPT record
      but the client's own: nothing of an earlier client's options comes back. */
  lemma NextReplyIsOwn(c: Config, steps: seq<Step>, a: Arrival)
    requires Accepted(a)
    ensures
      var s := After(c, steps);
      var t := Serve(c, s, a);
      && |t.replies| == |s.replies| + 1 && |t.log| == |s.log| + 1
      && var reply, rcode := t.replies[|s.replies|], t.log[|s.log|].rcode;
         && reply.id == a.req.id && OptIsOwn(a.req, reply)
         && reply.rcode == if rcode > 0xF && !SentOpt(a.req) then SERVFAIL else rcode
  {
    var s := After(c, steps);
    RunKeepsClean(c, steps);
    CountedIsOneQuestion(c, s.lists, s.cache.entries, a);
    RelayedIsClean(c, s.lists, s.cache.entries, a);
    ReplyOfIsOwn(c, Decide(c, s.lists, s.cache.entries, a), a.req, a.client, Domain(c, a.req));
  }

  /** n zero bytes. */
  predicate Unspecified(data: Data, n: nat) {
    data.Raw? && |data.bytes| == n && forall i :: 0 <= i < n ==> data.bytes[i] == 0
  }

  /** At most one record, the unspecified address of the type asked for. */
  predicate EmptyAnswer(c: Config, q: Question, answer: seq<RR>) {
    if c.nxdomain || (q.qtype != 1 && q.qtype != 28) then answer == []
    else
      && |answer| == 1 && answer[0] == RR(q.name, q.qtype, CLASS_IN, c.blockTTL, answer[0].data)
      && Unspecified(answer[0].data, if q.qtype == 1 then 4 else 16)
  }

  lemma SinkholeIsEmpty(c: Config, req: Msg, q: Question)
    ensures
      var m := Sinkhole(c, req, q);
      && m.authoritative && m.ns == [] && m.extra == [] && EmptyAnswer(c, q, m.answer)
      && m.rcode == if c.nxdomain then NXDOMAIN else NOERROR
  {
  }

  /** A blocked query gets nothing of the upstream's answer. */
  lemma BlockedReplyIsEmpty(c: Config, source: BlockSource, req: Msg)
    requires |req.question| == 1
    ensures
      var m := ReplyOf(c, Block(source), req);
      && m.authoritative && m.ns == [] && EmptyAnswer(c, req.question[0], m.answer)
      && OptIsOwn(req, m) && |m.extra| == if SentOpt(req) then 1 else 0
  {
    SinkholeIsEmpty(c, req, req.question[0]);
    SendIsOwn(req, Sinkhole(c, req, req.question[0]));
  }

  /** upstreamQuery: a fresh query with s-hole's own ID and OPT record. */
  function UpstreamQuery(req: Msg, id: nat): Msg
    requires |req.question| > 0
  {
    Msg(id, false, 0, false, false, req.rd, req.cd, req.ad, NOERROR, [req.question[0]], [], [],
        [EdnsRecord(1232, WantsDnssec(req))])
  }

  /** What the upstream gets: a plain query for the client's question, with its RD, CD and AD bits and,
      in an OPT record of s-hole's own size and without options, its DO bit.  Nothing else depends on
      the client, so an upstream cannot tell two clients apart by what they send. */
  lemma UpstreamQueryMeans(req: Msg, id: nat)
    requires |req.question| == 1
    ensures
      var q := UpstreamQuery(req, id);
      && q.id == id && !q.response && q.opcode == 0 && !q.authoritative && !q.truncated && q.rcode == 0
      && q.rd == req.rd && q.cd == req.cd && q.ad == req.ad
      && q.question == req.question && q.answer == [] && q.ns == [] && |q.extra| == 1
      && Mirrors(q.extra[0], q.extra[0]) && q.extra[0].rrclass == 1232
      && (HasBit15(q.extra[0].ttl) <==> exists k: nat :: LastOpt(req.extra, k) && HasBit15(req.extra[k].ttl))
  {
    WantsDnssecMeans(req);
    DnssecOkIsBit15(UpstreamQuery(req, id).extra[0]);
  }

  lemma UpstreamSeesOnlyTheQuestion(a: Msg, b: Msg, id: nat)
    requires |a.question| == 1 == |b.question| && AskedOf(a) == AskedOf(b) && a.rd == b.rd && a.ad == b.ad
    ensures UpstreamQuery(a, id) == UpstreamQuery(b, id)
  {
  }
}
