/** internal/cache/cache.go: how long an answer stays, in terms of its records' TTLs alone. */
module CacheLife {
  import opened Message
  import opened CacheKey
  import opened Durations
  import opened QueryRecord
  import opened ResponseCache
  import opened Wrappers

  /** Every record has some of its TTL left. */
  predicate TimeLeft(rrs: seq<RR>, since: int, time: int) {
    forall k :: 0 <= k < |rrs| ==> time - since < rrs[k].ttl * SECOND
  }

  lemma ExpiredMeans(e: Entry, time: int)
    requires EntryOk(e)
    ensures Expired(e, time) <==> !TimeLeft(e.msg.answer, e.cached, time)
  {
    var rrs := e.msg.answer;
    var j := SmallestReached(rrs);
    if !Expired(e, time) {
      forall k | 0 <= k < |rrs| ensures time - e.cached < rrs[k].ttl * SECOND {
        SmallestBelow(rrs, k);
      }
    }
  }

  /** After any run a query is answered from the cache exactly when its key has an entry all of whose
      answers have time left. */
  lemma HitExactly(codes: Codes, maxSize: nat, ops: seq<Op>, req: Msg, t1: int, t2: int)
    ensures
      var entries := After(codes, maxSize, ops).entries;
      Lookup(codes, entries, req, t1, t2).Some? <==>
        && KeyOf(codes, req).Some? && KeyOf(codes, req).value in entries
        && var e := entries[KeyOf(codes, req).value]; TimeLeft(e.msg.answer, e.cached, t1)
  {
    var entries := After(codes, maxSize, ops).entries;
    RunKeepsInv(codes, maxSize, ops);
    if KeyOf(codes, req).Some? && KeyOf(codes, req).value in entries {
      ExpiredMeans(entries[KeyOf(codes, req).value], t1);
    }
  }

  /** What may be kept: a complete NOERROR answer with no zero TTL and some TTL below all ones. */
  lemma StorableMeans(m: Msg)
    ensures Storable(m) <==>
            && m.rcode == 0 && !m.truncated
            && (forall k :: 0 <= k < |m.answer| ==> m.answer[k].ttl > 0)
            && exists k :: 0 <= k < |m.answer| && m.answer[k].ttl < ALL_ONES
  {
    var rrs := m.answer;
    forall k | 0 <= k < |rrs| ensures Smallest(rrs) <= rrs[k].ttl {
      SmallestBelow(rrs, k);
    }
    if Smallest(rrs) != ALL_ONES {
      var k := SmallestReached(rrs);
      assert rrs[k].ttl < ALL_ONES;
    }
  }

  /** The call neither flushes the cache nor stores under the key, and when it may remove expired
      entries, the answers stored at the given time have some left. */
  predicate Spares(codes: Codes, op: Op, k: string, rrs: seq<RR>, since: int) {
    && !op.Flush? && (op.Set? ==> KeyOf(codes, op.req) != Some(k))
    && (RemovesAt(op).Some? ==> TimeLeft(rrs, since, RemovesAt(op).value))
  }

  /** No sweep and no reclaim takes an entry whose answers have time left. */
  lemma StaysWhileTimeLeft(codes: Codes, maxSize: nat, s: State, op: Op, k: string)
    requires k in s.entries && EntryOk(s.entries[k])
    requires Spares(codes, op, k, s.entries[k].msg.answer, s.entries[k].cached)
    ensures k in Next(codes, maxSize, s, op).entries && Next(codes, maxSize, s, op).entries[k] == s.entries[k]
  {
    if RemovesAt(op).Some? {
      ExpiredMeans(s.entries[k], RemovesAt(op).value);
    }
    LiveEntriesStay(codes, maxSize, s, op, k);
  }

  /** A sweep keeps exactly the entries all of whose answers have time left. */
  lemma SweepExactly(codes: Codes, maxSize: nat, ops: seq<Op>, now: int, k: string)
    ensures
      var s := After(codes, maxSize, ops);
      var t := Next(codes, maxSize, s, Sweep(now));
      && t == s.(entries := t.entries)
      && (k in t.entries <==> k in s.entries && TimeLeft(s.entries[k].msg.answer, s.entries[k].cached, now))
      && (k in t.entries ==> t.entries[k] == s.entries[k])
  {
    var s := After(codes, maxSize, ops);
    RunKeepsInv(codes, maxSize, ops);
    if k in s.entries {
      ExpiredMeans(s.entries[k], now);
    }
  }

  /** A Set of a message that may be kept stores it, unless the call is counted as dropped. */
  lemma SetStores(codes: Codes, maxSize: nat, s: State, req: Msg, m: Msg, now: int, order: seq<string>)
    requires Storable(m) && |req.question| == 1
    requires Stored(codes, maxSize, s, req, m, now, order).dropped == s.dropped
    ensures
      var t := Stored(codes, maxSize, s, req, m, now, order);
      && KeyOf(codes, req).Some? && KeyOf(codes, req).value in t.entries
      && t.entries[KeyOf(codes, req).value].msg == CapMsg(m) && t.entries[KeyOf(codes, req).value].cached == now
  {
  }

  /** After the calls before it, the Set has a message to store and is not counted as dropped. */
  ghost predicate StoresAfter(codes: Codes, maxSize: nat, before: seq<Op>, op: Op) {
    && op.Set? && |op.req.question| == 1 && Storable(op.msg)
    && var s := After(codes, maxSize, before); Next(codes, maxSize, s, op).dropped == s.dropped
  }

  /** All these calls spare what the Set has stored. */
  ghost predicate AllSpare(codes: Codes, op: Op, later: seq<Op>)
    requires op.Set? && |op.req.question| == 1
  {
    forall x :: x in later ==> Spares(codes, x, KeyOf(codes, op.req).value, CappedAll(op.msg.answer), op.now)
  }

  /** The entry that the i-th call stored is there. */
  ghost predicate Present(codes: Codes, entries: map<string, Entry>, op: Op)
    requires op.Set? && |op.req.question| == 1
  {
    var k := KeyOf(codes, op.req).value;
    k in entries && entries[k].msg == CapMsg(op.msg) && entries[k].cached == op.now
  }

  lemma PresentStays(codes: Codes, maxSize: nat, s: State, set_: Op, op: Op)
    requires set_.Set? && |set_.req.question| == 1 && Present(codes, s.entries, set_) && Inv(s, maxSize)
    requires Spares(codes, op, KeyOf(codes, set_.req).value, CappedAll(set_.msg.answer), set_.now)
    ensures Present(codes, Next(codes, maxSize, s, op).entries, set_)
  {
    StaysWhileTimeLeft(codes, maxSize, s, op, KeyOf(codes, set_.req).value);
  }

  lemma NowPresent(codes: Codes, maxSize: nat, before: seq<Op>, op: Op)
    requires StoresAfter(codes, maxSize, before, op)
    ensures Present(codes, After(codes, maxSize, before + [op]).entries, op)
  {
    assert (before + [op])[..|before|] == before;
    SetStores(codes, maxSize, After(codes, maxSize, before), op.req, op.msg, op.now, op.order);
  }

  lemma StillPresent(codes: Codes, maxSize: nat, ops: seq<Op>, op: Op, next: Op)
    requires op.Set? && |op.req.question| == 1 && Present(codes, After(codes, maxSize, ops).entries, op)
    requires Spares(codes, next, KeyOf(codes, op.req).value, CappedAll(op.msg.answer), op.now)
    ensures Present(codes, After(codes, maxSize, ops + [next]).entries, op)
  {
    assert (ops + [next])[..|ops|] == ops;
    RunKeepsInv(codes, maxSize, ops);
    PresentStays(codes, maxSize, After(codes, maxSize, ops), op, next);
  }

  lemma {:induction false} StoredIsPresent(codes: Codes, maxSize: nat, before: seq<Op>, op: Op, later: seq<Op>)
    requires StoresAfter(codes, maxSize, before, op) && AllSpare(codes, op, later)
    ensures Present(codes, After(codes, maxSize, before + [op] + later).entries, op)
  {
    if later == [] {
      NowPresent(codes, maxSize, before, op);
      assert before + [op] + later == before + [op];
    } else {
      var m := |later| - 1;
      assert later[m] in later && forall x :: x in later[..m] ==> x in later;
      StoredIsPresent(codes, maxSize, before, op, later[..m]);
      StillPresent(codes, maxSize, before + [op] + later[..m], op, later[m]);
      assert before + [op] + later == before + [op] + later[..m] + [later[m]];
    }
  }

  lemma PresentIsServed(codes: Codes, entries: map<string, Entry>, op: Op, req: Msg, t1: int, t2: int)
    requires op.Set? && |op.req.question| == 1 == |req.question| && AskedOf(req) == AskedOf(op.req)
    requires Present(codes, entries, op) && forall k :: k in entries ==> EntryOk(entries[k])
    requires TimeLeft(CappedAll(op.msg.answer), op.now, t1)
    ensures Lookup(codes, entries, req, t1, t2) == Some(AgeMsg(CapMsg(op.msg), WholeSeconds(t2 - op.now)))
  {
    assert KeyOf(codes, req) == KeyOf(codes, op.req);
    ExpiredMeans(entries[KeyOf(codes, req).value], t1);
  }

  /** An answer that was stored is served for as long as each of its TTLs, capped to a day, has some
      time left: whatever was asked, swept and stored since, short of a flush and of another answer
      to the same question. */
  lemma AnswerIsServed(codes: Codes, maxSize: nat, before: seq<Op>, op: Op, later: seq<Op>,
                       req: Msg, t1: int, t2: int)
    requires StoresAfter(codes, maxSize, before, op) && AllSpare(codes, op, later)
    requires |req.question| == 1 && AskedOf(req) == AskedOf(op.req)
    requires TimeLeft(CappedAll(op.msg.answer), op.now, t1)
    ensures Lookup(codes, After(codes, maxSize, before + [op] + later).entries, req, t1, t2)
            == Some(AgeMsg(CapMsg(op.msg), WholeSeconds(t2 - op.now)))
  {
    StoredIsPresent(codes, maxSize, before, op, later);
    RunKeepsInv(codes, maxSize, before + [op] + later);
    PresentIsServed(codes, After(codes, maxSize, before + [op] + later).entries, op, req, t1, t2);
  }

  // ---- What a client sees of a stored message ---------------------------------------

  /** A record after some whole seconds in the cache: its TTL, at most a day, less the seconds, at
      least zero; an OPT record as it was. */
  function Seen(rr: RR, seconds: nat): RR {
    if rr.rrtype == OPT then rr
    else
      var left := (if rr.ttl < 86400 then rr.ttl else 86400) - seconds;
      rr.(ttl := if left > 0 then left else 0)
  }

  predicate SeenAll(rrs: seq<RR>, seconds: nat, out: seq<RR>) {
    |out| == |rrs| && forall k :: 0 <= k < |rrs| ==> out[k] == Seen(rrs[k], seconds)
  }

  /** Every record of the answer, authority and extra sections is capped and aged, and nothing else
      of the message changes. */
  lemma AllSectionsAge(m: Msg, d: int)
    requires 0 <= d < 0x1_0000_0000 * SECOND
    ensures
      var r := AgeMsg(CapMsg(m), WholeSeconds(d));
      && r == m.(answer := r.answer, ns := r.ns, extra := r.extra)
      && SeenAll(m.answer, d / SECOND, r.answer) && SeenAll(m.ns, d / SECOND, r.ns)
      && SeenAll(m.extra, d / SECOND, r.extra)
  {
    SectionAges(m.answer, d);
    SectionAges(m.ns, d);
    SectionAges(m.extra, d);
  }

  lemma SectionAges(rrs: seq<RR>, d: int)
    requires 0 <= d < 0x1_0000_0000 * SECOND
    ensures SeenAll(rrs, d / SECOND, AgedAll(CappedAll(rrs), WholeSeconds(d)))
  {
    forall k | 0 <= k < |rrs| ensures Aged(Capped(rrs[k]), WholeSeconds(d)) == Seen(rrs[k], d / SECOND) {
      AgedTTL(rrs[k], d);
    }
  }
}
