/** internal/dnsserver/upstream.go, checkReply, over whole runs: a client never gets records that
    an upstream gave for another question, not even through the cache. */
module Answers {
  import opened Message
  import opened CacheKey
  import opened QueryHandler
  import opened Pipeline
  import opened Wrappers
  import Replies
  import ResponseCache
  import Upstreams

  /** The case-insensitive comparison of two names. */
  type SameName = (string, string) -> bool

  /** The message is for this question, the case of the name aside. */
  predicate IsFor(same: SameName, m: Msg, q: Question) {
    && |m.question| == 1 && m.question[0].qtype == q.qtype && m.question[0].qclass == q.qclass
    && same(m.question[0].name, q.name)
  }

  /** checkReply takes exactly the responses to a plain query that are for the question. */
  lemma MatchesMeans(same: SameName, req: Msg, resp: Msg)
    requires |req.question| == 1
    ensures Upstreams.Matches(same, req, resp) <==>
            resp.response && resp.opcode == 0 && IsFor(same, resp, req.question[0])
  {
  }

  // ---- What failover with checked exchanges gives ---------------------------------------

  /** What the transports deliver for the k-th exchange of a call. */
  datatype Wire = Wire(doh: nat -> Upstreams.Outcome, udp: nat -> Upstreams.Outcome, tcp: nat -> Upstreams.Outcome)

  /** The forward of the query is a call of forwardWith over its targets, with the fresh query that
      s-hole sends, and every exchange of it goes through exchange. */
  ghost predicate ByFailover(same: SameName, c: Config, a: Arrival, env: Upstreams.Env, wire: Wire,
                             last: Upstreams.Failures, now: int, id: nat, run: Upstreams.Run)
    requires |a.req.question| == 1
  {
    && Upstreams.Forwards(env, Targets(c, a), last, now, run)
    && (forall k: nat :: k < |run.contacted| ==>
          env.net(k) == Upstreams.Exchange(same, Replies.UpstreamQuery(a.req, id), run.contacted[k],
                                           wire.doh(k), wire.udp(k), wire.tcp(k)))
    && a.forward == match run.result case Answered(m) => Replied(m) case _ => NoAnswer
  }

  /** A reply to the query is for its question. */
  predicate Checked(same: SameName, a: Arrival) {
    |a.req.question| == 1 && a.forward.Replied? ==> IsFor(same, a.forward.msg, a.req.question[0])
  }

  lemma FailoverIsChecked(same: SameName, c: Config, a: Arrival, env: Upstreams.Env, wire: Wire,
                          last: Upstreams.Failures, now: int, id: nat, run: Upstreams.Run)
    requires |a.req.question| == 1 && ByFailover(same, c, a, env, wire, last, now, id, run)
    ensures Checked(same, a)
  {
    if a.forward.Replied? {
      var n := |run.contacted| - 1;
      Upstreams.ExchangeIsSound(same, Replies.UpstreamQuery(a.req, id), run.contacted[n],
                                wire.doh(n), wire.udp(n), wire.tcp(n));
    }
  }

  // ---- The cache ---------------------------------------------------------------------------

  /** The entry is for the question its key stands for. */
  ghost predicate EntryIsFor(c: Config, same: SameName, k: string, e: ResponseCache.Entry) {
    exists q: Asked :: k == Key(c.codes, q.question, q.cd, q.dnssec) && IsFor(same, e.msg, q.question)
  }

  ghost predicate AllFor(c: Config, same: SameName, entries: map<string, ResponseCache.Entry>) {
    forall k :: k in entries ==> EntryIsFor(c, same, k, entries[k])
  }

  lemma OpKeepsFor(c: Config, same: SameName, s: ResponseCache.State, op: ResponseCache.Op)
    requires AllFor(c, same, s.entries)
    requires op.Set? && |op.req.question| == 1 ==> IsFor(same, op.msg, op.req.question[0])
    ensures AllFor(c, same, ResponseCache.Next(c.codes, c.maxSize, s, op).entries)
  {
    var t := ResponseCache.Next(c.codes, c.maxSize, s, op);
    forall k | k in t.entries ensures EntryIsFor(c, same, k, t.entries[k]) {
      ResponseCache.EntryAfterStep(c.codes, c.maxSize, s, op, k);
      if ResponseCache.Stores(c.codes, op, k, t.entries[k]) {
        StoredIsFor(c, same, op, k);
      }
    }
  }

  lemma StoredIsFor(c: Config, same: SameName, op: ResponseCache.Op, k: string)
    requires op.Set? && KeyOf(c.codes, op.req) == Some(k) && |op.req.question| == 1
    requires IsFor(same, op.msg, op.req.question[0])
    ensures EntryIsFor(c, same, k, ResponseCache.NewEntry(op.msg, op.now))
  {
    var q := AskedOf(op.req);
    assert k == Key(c.codes, q.question, q.cd, q.dnssec) && IsFor(same, ResponseCache.CapMsg(op.msg), q.question);
  }

  lemma ServeKeepsFor(c: Config, same: SameName, lists: Lists, s: ResponseCache.State, a: Arrival)
    requires AllFor(c, same, s.entries) && Checked(same, a)
    ensures AllFor(c, same, CacheAfter(c, lists, s, a).entries)
  {
    var get := ResponseCache.Get(a.req, a.t1, a.t2);
    OpKeepsFor(c, same, s, get);
    if a.forward.Replied? {
      OpKeepsFor(c, same, ResponseCache.Next(c.codes, c.maxSize, s, get),
                 ResponseCache.Set(a.req, Stripped(a.forward.msg), a.t3, a.order));
    }
  }

  ghost predicate AllChecked(same: SameName, steps: seq<Step>) {
    forall i :: 0 <= i < |steps| && steps[i].Query? ==> Checked(same, steps[i].a)
  }

  /** In every reachable state each cache entry is for the question of its key. */
  lemma {:induction false} RunKeepsFor(c: Config, same: SameName, steps: seq<Step>)
    requires AllChecked(same, steps)
    ensures AllFor(c, same, After(c, steps).cache.entries)
  {
    if steps != [] {
      var s := After(c, steps[..|steps| - 1]);
      RunKeepsFor(c, same, steps[..|steps| - 1]);
      match steps[|steps| - 1]
      case Query(a) => ServeKeepsFor(c, same, s.lists, s.cache, a);
      case SetLists(_) =>
      case Flush =>
      case Sweep(now) => OpKeepsFor(c, same, s.cache, ResponseCache.Sweep(now));
    }
  }

  lemma HitIsFor(c: Config, same: SameName, entries: map<string, ResponseCache.Entry>, a: Arrival)
    requires c.codes.Valid() && AllFor(c, same, entries) && |a.req.question| == 1 && Cached(c, entries, a).Some?
    ensures IsFor(same, Cached(c, entries, a).value, a.req.question[0])
  {
    var k, elapsed := HitEntry(c, entries, a);
    EntryForRequest(c, same, a.req, k, entries[k]);
  }

  lemma EntryForRequest(c: Config, same: SameName, req: Msg, k: string, e: ResponseCache.Entry)
    requires c.codes.Valid() && |req.question| == 1 && KeyOf(c.codes, req) == Some(k) && EntryIsFor(c, same, k, e)
    ensures IsFor(same, e.msg, req.question[0])
  {
    var q: Asked :| k == Key(c.codes, q.question, q.cd, q.dnssec) && IsFor(same, e.msg, q.question);
    var p := AskedOf(req);
    KeyInjective(c.codes, q.question, q.cd, q.dnssec, p.question, p.cd, p.dnssec);
  }

  /** After any run of checked forwards, an answer that is relayed, from the cache or from an
      upstream, is for the question asked. */
  lemma NextAnswerIsFor(c: Config, same: SameName, steps: seq<Step>, a: Arrival)
    requires c.codes.Valid() && AllChecked(same, steps) && Checked(same, a)
    ensures
      var s := After(c, steps);
      var v := Decide(c, s.lists, s.cache.entries, a);
      v.Hit? || v.Relayed? ==> |a.req.question| == 1 && IsFor(same, v.msg, a.req.question[0])
  {
    var s := After(c, steps);
    var v := Decide(c, s.lists, s.cache.entries, a);
    RunKeepsFor(c, same, steps);
    CountedIsOneQuestion(c, s.lists, s.cache.entries, a);
    if v.Hit? {
      HitIsFor(c, same, s.cache.entries, a);
    }
  }
}
