/** internal/cache/cache.go: the size-bounded response cache. */
module ResponseCache {
  import opened Message
  import opened CacheKey
  import opened Durations
  import opened QueryRecord
  import opened Wrappers

  /** One day, in seconds: no answer stays longer. */
  const MAX_TTL: U32 := 86400

  const SCAN_LIMIT: nat := 8

  // ---- TTLs -------------------------------------------------------------------

  function Capped(rr: RR): RR {
    if rr.rrtype != OPT && rr.ttl > MAX_TTL then rr.(ttl := MAX_TTL) else rr
  }

  function Aged(rr: RR, elapsed: U32): RR {
    if rr.rrtype == OPT then rr
    else rr.(ttl := if rr.ttl > elapsed then rr.ttl - elapsed else 0)
  }

  function CappedAll(rrs: seq<RR>): (r: seq<RR>)
    ensures |r| == |rrs| && forall k :: 0 <= k < |rrs| ==> r[k] == Capped(rrs[k])
  {
    if rrs == [] then [] else CappedAll(rrs[..|rrs| - 1]) + [Capped(rrs[|rrs| - 1])]
  }

  function AgedAll(rrs: seq<RR>, elapsed: U32): (r: seq<RR>)
    ensures |r| == |rrs| && forall k :: 0 <= k < |rrs| ==> r[k] == Aged(rrs[k], elapsed)
  {
    if rrs == [] then [] else AgedAll(rrs[..|rrs| - 1], elapsed) + [Aged(rrs[|rrs| - 1], elapsed)]
  }

  function CapMsg(m: Msg): Msg {
    m.(answer := CappedAll(m.answer), ns := CappedAll(m.ns), extra := CappedAll(m.extra))
  }

  function AgeMsg(m: Msg, elapsed: U32): Msg {
    m.(answer := AgedAll(m.answer, elapsed), ns := AgedAll(m.ns, elapsed), extra := AgedAll(m.extra, elapsed))
  }

  /** capTTLs and decrementTTLs, one section. */
  method CapSection(section: seq<RR>) returns (r: seq<RR>)
    ensures r == CappedAll(section)
  {
    r := section;
    for i := 0 to |r|
      invariant |r| == |section|
      invariant forall k :: 0 <= k < i ==> r[k] == Capped(section[k])
      invariant forall k :: i <= k < |section| ==> r[k] == section[k]
    {
      if r[i].rrtype != OPT && r[i].ttl > MAX_TTL {
        r := r[i := r[i].(ttl := MAX_TTL)];
      }
    }
  }

  method AgeSection(section: seq<RR>, elapsed: U32) returns (r: seq<RR>)
    ensures r == AgedAll(section, elapsed)
  {
    r := section;
    for i := 0 to |r|
      invariant |r| == |section|
      invariant forall k :: 0 <= k < i ==> r[k] == Aged(section[k], elapsed)
      invariant forall k :: i <= k < |section| ==> r[k] == section[k]
    {
      if r[i].rrtype == OPT {
        continue;
      }
      if r[i].ttl > elapsed {
        r := r[i := r[i].(ttl := r[i].ttl - elapsed)];
      } else {
        r := r[i := r[i].(ttl := 0)];
      }
    }
  }

  /** The smallest TTL of the records, or all ones when there is no smaller one. */
  function Smallest(rrs: seq<RR>): U32 {
    if rrs == [] then ALL_ONES
    else
      var rest := Smallest(rrs[..|rrs| - 1]);
      if rrs[|rrs| - 1].ttl < rest then rrs[|rrs| - 1].ttl else rest
  }

  lemma {:induction false} SmallestBelow(rrs: seq<RR>, k: nat)
    requires k < |rrs|
    ensures Smallest(rrs) <= rrs[k].ttl
  {
    if k < |rrs| - 1 {
      SmallestBelow(rrs[..|rrs| - 1], k);
    }
  }

  lemma {:induction false} SmallestReached(rrs: seq<RR>) returns (k: nat)
    requires Smallest(rrs) != ALL_ONES
    ensures k < |rrs| && Smallest(rrs) == rrs[k].ttl
  {
    if rrs[|rrs| - 1].ttl == Smallest(rrs) {
      k := |rrs| - 1;
    } else {
      k := SmallestReached(rrs[..|rrs| - 1]);
    }
  }

  /** minAnswerTTL: all ones stands for "no answer" and reads as 0. */
  function MinTTL(rrs: seq<RR>): U32 {
    if Smallest(rrs) == ALL_ONES then 0 else Smallest(rrs)
  }

  method MinAnswerTTL(m: Msg) returns (r: U32)
    ensures r == MinTTL(m.answer)
  {
    var smallest: U32 := ALL_ONES;
    for i := 0 to |m.answer|
      invariant smallest == Smallest(m.answer[..i])
    {
      assert m.answer[..i + 1][..i] == m.answer[..i];
      if m.answer[i].ttl < smallest {
        smallest := m.answer[i].ttl;
      }
    }
    assert m.answer[..|m.answer|] == m.answer;
    r := if smallest == ALL_ONES then 0 else smallest;
  }

  /** An answer that may be stored stays storable when its TTLs are capped. */
  lemma CapKeepsPositive(rrs: seq<RR>)
    requires MinTTL(rrs) > 0
    ensures MinTTL(CappedAll(rrs)) > 0
  {
    var capped := CappedAll(rrs);
    var k := SmallestReached(rrs);
    SmallestBelow(capped, k);
    var j := SmallestReached(capped);
    SmallestBelow(rrs, j);
  }

  /** A record whose TTL counts as at most a day once it is capped. */
  predicate Ordinary(rr: RR) {
    rr.rrtype != OPT || rr.ttl <= MAX_TTL
  }

  ghost predicate HasOrdinary(rrs: seq<RR>) {
    exists k :: 0 <= k < |rrs| && Ordinary(rrs[k])
  }

  lemma CapKeepsOrdinary(rrs: seq<RR>)
    ensures HasOrdinary(CappedAll(rrs)) <==> HasOrdinary(rrs)
  {
    var capped := CappedAll(rrs);
    if k :| 0 <= k < |rrs| && Ordinary(rrs[k]) {
      assert Ordinary(capped[k]);
    }
    if k :| 0 <= k < |rrs| && Ordinary(capped[k]) {
      assert Ordinary(rrs[k]);
    }
  }

  /** The stored lifetime is at most a day exactly when some answer is not an OPT record or has a
      TTL of at most a day: capTTLs skips an OPT record and minAnswerTTL does not. */
  lemma LifetimeCapped(rrs: seq<RR>)
    requires MinTTL(rrs) > 0
    ensures MinTTL(CappedAll(rrs)) <= MAX_TTL <==> HasOrdinary(rrs)
  {
    CapKeepsPositive(rrs);
    var capped := CappedAll(rrs);
    if k :| 0 <= k < |rrs| && Ordinary(rrs[k]) {
      SmallestBelow(capped, k);
    }
    if MinTTL(capped) <= MAX_TTL {
      var k := SmallestReached(capped);
      assert capped[k] == Capped(rrs[k]) && Ordinary(rrs[k]);
    }
  }

  /** Such an answer: one OPT record whose flags read as more than a day. */
  lemma LifetimeOverADay()
    ensures
      var rrs := [EdnsRecord(1232, true).(ttl := 0x0100_0000)];
      MinTTL(rrs) > 0 && MinTTL(CappedAll(rrs)) == 0x0100_0000 > MAX_TTL
  {
    var rrs := [EdnsRecord(1232, true).(ttl := 0x0100_0000)];
    assert rrs[..0] == [] && Smallest(rrs) == 0x0100_0000;
    assert CappedAll(rrs) == rrs;
  }

  // ---- The cache as a value -----------------------------------------------------

  datatype Entry = Entry(msg: Msg, cached: int, minTTL: U32)

  predicate Expired(e: Entry, now: int) {
    now - e.cached >= e.minTTL * SECOND
  }

  datatype State = State(entries: map<string, Entry>, hits: nat, misses: nat, dropped: nat)

  const EMPTY := State(map[], 0, 0, 0)

  /** uint32(d.Seconds()). */
  function WholeSeconds(d: int): U32 {
    d / SECOND % 0x1_0000_0000
  }

  /** What Get returns: it reads the clock for the expiry (t1) and again for the age (t2). */
  function Lookup(codes: Codes, entries: map<string, Entry>, req: Msg, t1: int, t2: int): Option<Msg> {
    var k := KeyOf(codes, req);
    if k == None || k.value !in entries || Expired(entries[k.value], t1) then None
    else Some(AgeMsg(entries[k.value].msg, WholeSeconds(t2 - entries[k.value].cached)))
  }

  predicate Storable(m: Msg) {
    m.rcode == NOERROR && !m.truncated && m.answer != [] && MinTTL(m.answer) > 0
  }

  function NewEntry(m: Msg, now: int): Entry {
    var stored := CapMsg(m);
    Entry(stored, now, MinTTL(stored.answer))
  }

  /** Entry k of the iteration order has expired. */
  predicate ExpiredAt(entries: map<string, Entry>, order: seq<string>, now: int, k: nat)
    requires k < |order|
  {
    order[k] in entries && Expired(entries[order[k]], now)
  }

  /** None of the entries [from, to) that a scan looks at has expired. */
  predicate NoneExpired(entries: map<string, Entry>, order: seq<string>, now: int, from: nat, to: nat) {
    forall k :: from <= k < to && k < |order| ==> !ExpiredAt(entries, order, now, k)
  }

  /** Entry r is the first expired one, and among the first eight. */
  predicate FirstExpired(entries: map<string, Entry>, order: seq<string>, now: int, r: nat) {
    r < |order| && r < SCAN_LIMIT && ExpiredAt(entries, order, now, r) && NoneExpired(entries, order, now, 0, r)
  }

  /** The first expired entry of the order from a place on, among the first eight, or -1. */
  function Victim(entries: map<string, Entry>, order: seq<string>, now: int, from: nat): (r: int)
    ensures r >= 0 ==> from <= r < |order| && r < SCAN_LIMIT && ExpiredAt(entries, order, now, r)
    ensures NoneExpired(entries, order, now, from, if r >= 0 then r else SCAN_LIMIT)
    decreases |order| - from
  {
    if from >= |order| || from >= SCAN_LIMIT then -1
    else if ExpiredAt(entries, order, now, from) then from
    else Victim(entries, order, now, from + 1)
  }

  lemma FirstIsVictim(entries: map<string, Entry>, order: seq<string>, now: int, r: nat)
    requires FirstExpired(entries, order, now, r)
    ensures Victim(entries, order, now, 0) == r
  {
    var v := Victim(entries, order, now, 0);
    assert ExpiredAt(entries, order, now, r) && (v >= 0 ==> ExpiredAt(entries, order, now, v));
  }

  function Reclaimed(entries: map<string, Entry>, order: seq<string>, now: int): map<string, Entry> {
    var v := Victim(entries, order, now, 0);
    if v < 0 then entries else entries - {order[v]}
  }

  function Stored(codes: Codes, maxSize: nat, s: State, req: Msg, m: Msg, now: int, order: seq<string>): State {
    var k := KeyOf(codes, req);
    if !Storable(m) || k == None then s
    else
      var room := if |s.entries| >= maxSize then Reclaimed(s.entries, order, now) else s.entries;
      if |room| < maxSize then s.(entries := room[k.value := NewEntry(m, now)])
      else s.(entries := room, dropped := s.dropped + 1)
  }

  function Live(entries: map<string, Entry>, now: int): map<string, Entry> {
    map k | k in entries && !Expired(entries[k], now) :: entries[k]
  }

  // ---- Every run ----------------------------------------------------------------

  /** One call; a Set carries the iteration order of the map at that moment. */
  datatype Op =
    | Get(req: Msg, t1: int, t2: int)
    | Set(req: Msg, msg: Msg, now: int, order: seq<string>)
    | Flush
    | Sweep(now: int)

  function Next(codes: Codes, maxSize: nat, s: State, op: Op): State {
    match op
    case Get(req, t1, t2) =>
      if Lookup(codes, s.entries, req, t1, t2).Some? then s.(hits := s.hits + 1) else s.(misses := s.misses + 1)
    case Set(req, m, now, order) => Stored(codes, maxSize, s, req, m, now, order)
    case Flush => s.(entries := map[])
    case Sweep(now) => s.(entries := Live(s.entries, now))
  }

  function After(codes: Codes, maxSize: nat, ops: seq<Op>): State {
    if ops == [] then EMPTY else Next(codes, maxSize, After(codes, maxSize, ops[..|ops| - 1]), ops[|ops| - 1])
  }

  ghost predicate EntryOk(e: Entry) {
    && e.msg.rcode == NOERROR && !e.msg.truncated && e.msg.answer != []
    && e.minTTL == MinTTL(e.msg.answer) && e.minTTL > 0
    && (e.minTTL <= MAX_TTL <==> HasOrdinary(e.msg.answer))
  }

  ghost predicate Inv(s: State, maxSize: nat) {
    |s.entries| <= maxSize && forall k :: k in s.entries ==> EntryOk(s.entries[k])
  }

  lemma NewEntryOk(m: Msg, now: int)
    requires Storable(m)
    ensures EntryOk(NewEntry(m, now))
  {
    CapKeepsPositive(m.answer);
    LifetimeCapped(m.answer);
    CapKeepsOrdinary(m.answer);
  }

  lemma LiveIsSmaller(entries: map<string, Entry>, now: int)
    ensures |Live(entries, now)| <= |entries|
  {
    SubMap(Live(entries, now).Keys, entries.Keys);
    assert |Live(entries, now)| == |Live(entries, now).Keys| && |entries| == |entries.Keys|;
  }

  lemma {:induction false} SubMap(a: set<string>, b: set<string>)
    requires a <= b
    ensures |a| <= |b|
  {
    if x :| x in a {
      SubMap(a - {x}, b - {x});
    }
  }

  lemma ReclaimedIsSmaller(entries: map<string, Entry>, order: seq<string>, now: int)
    ensures |Reclaimed(entries, order, now)| <= |entries|
  {
    var r := Reclaimed(entries, order, now);
    SubMap(r.Keys, entries.Keys);
    assert |r| == |r.Keys| && |entries| == |entries.Keys|;
  }

  lemma StoreKeepsInv(codes: Codes, maxSize: nat, s: State, req: Msg, m: Msg, now: int, order: seq<string>)
    requires Inv(s, maxSize)
    ensures Inv(Stored(codes, maxSize, s, req, m, now, order), maxSize)
  {
    if Storable(m) {
      NewEntryOk(m, now);
      ReclaimedIsSmaller(s.entries, order, now);
    }
  }

  lemma NextKeepsInv(codes: Codes, maxSize: nat, s: State, op: Op)
    requires Inv(s, maxSize)
    ensures Inv(Next(codes, maxSize, s, op), maxSize)
  {
    match op
    case Get(_, _, _) =>
    case Set(req, m, now, order) => StoreKeepsInv(codes, maxSize, s, req, m, now, order);
    case Flush =>
    case Sweep(now) => LiveIsSmaller(s.entries, now);
  }

  /** In every reachable state the size is bounded and every entry is a complete NOERROR answer
      with a positive lifetime, which is at most a day exactly when some answer of it is not an
      OPT record or has a TTL of at most a day. */
  lemma {:induction false} RunKeepsInv(codes: Codes, maxSize: nat, ops: seq<Op>)
    ensures Inv(After(codes, maxSize, ops), maxSize)
  {
    if ops != [] {
      RunKeepsInv(codes, maxSize, ops[..|ops| - 1]);
      NextKeepsInv(codes, maxSize, After(codes, maxSize, ops[..|ops| - 1]), ops[|ops| - 1]);
    }
  }

  /** The call stores e under k. */
  ghost predicate Stores(codes: Codes, op: Op, k: string, e: Entry) {
    op.Set? && KeyOf(codes, op.req) == Some(k) && Storable(op.msg) && e == NewEntry(op.msg, op.now)
  }

  /** An entry after a call was there before, or the call stored it. */
  lemma EntryAfterStep(codes: Codes, maxSize: nat, s: State, op: Op, k: string)
    requires k in Next(codes, maxSize, s, op).entries
    ensures
      var e := Next(codes, maxSize, s, op).entries[k];
      Stores(codes, op, k, e) || (!op.Flush? && k in s.entries && s.entries[k] == e)
  {
  }

  /** The i-th call stored the entry, and nothing has been flushed since. */
  ghost predicate StoredBy(codes: Codes, ops: seq<Op>, i: nat, k: string, e: Entry) {
    i < |ops| && Stores(codes, ops[i], k, e) && forall j :: i <= j < |ops| ==> !ops[j].Flush?
  }

  lemma StoredEarlier(codes: Codes, ops: seq<Op>, n: nat, i: nat, k: string, e: Entry)
    requires |ops| == n + 1 && !ops[n].Flush? && StoredBy(codes, ops[..n], i, k, e)
    ensures StoredBy(codes, ops, i, k, e)
  {
    assert forall j :: i <= j < n ==> ops[j] == ops[..n][j];
  }

  /** Every entry was put there by one Set of the run, under the key of its query. */
  lemma {:induction false} EntriesComeFromSets(codes: Codes, maxSize: nat, ops: seq<Op>, k: string) returns (i: nat)
    requires k in After(codes, maxSize, ops).entries
    ensures StoredBy(codes, ops, i, k, After(codes, maxSize, ops).entries[k])
  {
    var n := |ops| - 1;
    var before := After(codes, maxSize, ops[..n]);
    var e := After(codes, maxSize, ops).entries[k];
    EntryAfterStep(codes, maxSize, before, ops[n], k);
    if Stores(codes, ops[n], k, e) {
      i := n;
    } else {
      i := EntriesComeFromSets(codes, maxSize, ops[..n], k);
      StoredEarlier(codes, ops, n, i, k, e);
    }
  }

  /** What a hit says about the entry it read. */
  lemma LookupMeans(codes: Codes, entries: map<string, Entry>, req: Msg, t1: int, t2: int)
    requires Lookup(codes, entries, req, t1, t2).Some?
    ensures KeyOf(codes, req).Some? && KeyOf(codes, req).value in entries
    ensures
      var e := entries[KeyOf(codes, req).value];
      && !Expired(e, t1)
      && Lookup(codes, entries, req, t1, t2) == Some(AgeMsg(e.msg, WholeSeconds(t2 - e.cached)))
  {
  }

  /** A hit is the answer of an earlier Set for the same name, type, class, CD and DO, not yet
      expired, its TTLs capped to a day and lowered by the whole seconds since. */
  lemma HitComesFromSet(codes: Codes, maxSize: nat, ops: seq<Op>, req: Msg, t1: int, t2: int) returns (i: nat)
    requires codes.Valid() && Lookup(codes, After(codes, maxSize, ops).entries, req, t1, t2).Some?
    ensures i < |ops| && ops[i].Set? && Storable(ops[i].msg)
    ensures |ops[i].req.question| == 1 == |req.question| && AskedOf(ops[i].req) == AskedOf(req)
    ensures forall j :: i <= j < |ops| ==> !ops[j].Flush?
    ensures t1 - ops[i].now < NewEntry(ops[i].msg, ops[i].now).minTTL * SECOND
    ensures Lookup(codes, After(codes, maxSize, ops).entries, req, t1, t2)
            == Some(AgeMsg(CapMsg(ops[i].msg), WholeSeconds(t2 - ops[i].now)))
  {
    LookupMeans(codes, After(codes, maxSize, ops).entries, req, t1, t2);
    i := EntriesComeFromSets(codes, maxSize, ops, KeyOf(codes, req).value);
    HitOfStored(codes, ops, i, After(codes, maxSize, ops).entries, req, t1, t2);
  }

  /** A hit with an answer other than an OPT record is less than a day old. */
  lemma HitIsUnderADay(codes: Codes, maxSize: nat, ops: seq<Op>, req: Msg, t1: int, t2: int, m: Msg, k: nat)
    requires Lookup(codes, After(codes, maxSize, ops).entries, req, t1, t2) == Some(m)
    requires k < |m.answer| && m.answer[k].rrtype != OPT
    ensures
      var entries := After(codes, maxSize, ops).entries;
      && KeyOf(codes, req).Some? && KeyOf(codes, req).value in entries
      && t1 - entries[KeyOf(codes, req).value].cached < MAX_TTL * SECOND
  {
    var entries := After(codes, maxSize, ops).entries;
    LookupMeans(codes, entries, req, t1, t2);
    RunKeepsInv(codes, maxSize, ops);
    var e := entries[KeyOf(codes, req).value];
    assert EntryOk(e);
    assert Ordinary(e.msg.answer[k]);
  }

  lemma HitOfStored(codes: Codes, ops: seq<Op>, i: nat, entries: map<string, Entry>, req: Msg, t1: int, t2: int)
    requires codes.Valid() && Lookup(codes, entries, req, t1, t2).Some?
    requires KeyOf(codes, req).Some? && KeyOf(codes, req).value in entries
    requires StoredBy(codes, ops, i, KeyOf(codes, req).value, entries[KeyOf(codes, req).value])
    ensures |ops[i].req.question| == 1 == |req.question| && AskedOf(ops[i].req) == AskedOf(req)
    ensures t1 - ops[i].now < NewEntry(ops[i].msg, ops[i].now).minTTL * SECOND
    ensures Lookup(codes, entries, req, t1, t2) == Some(AgeMsg(CapMsg(ops[i].msg), WholeSeconds(t2 - ops[i].now)))
  {
    LookupMeans(codes, entries, req, t1, t2);
    SameKeySameQuestion(codes, ops[i].req, req);
  }

  /** What a client sees of one record: the original TTL, at most a day, less the time that has
      passed, at least zero; an OPT record as it was. */
  lemma AgedTTL(rr: RR, d: int)
    requires 0 <= d < 0x1_0000_0000 * SECOND
    ensures Aged(Capped(rr), WholeSeconds(d)) ==
            if rr.rrtype == OPT then rr
            else
              var cap := if rr.ttl < MAX_TTL then rr.ttl else MAX_TTL;
              var left := cap - d / SECOND;
              rr.(ttl := if left > 0 then left else 0)
  {
    assert WholeSeconds(d) == d / SECOND;
  }

  /** Capping and ageing change nothing but TTLs. */
  lemma CacheKeepsContent(m: Msg, elapsed: U32)
    ensures ContentOf(AgeMsg(CapMsg(m), elapsed)) == ContentOf(m) == ContentOf(CapMsg(m))
  {
    SectionKeepsContent(m.answer, elapsed);
    SectionKeepsContent(m.ns, elapsed);
    SectionKeepsContent(m.extra, elapsed);
  }

  lemma SectionKeepsContent(rrs: seq<RR>, elapsed: U32)
    ensures TimelessAll(AgedAll(CappedAll(rrs), elapsed)) == TimelessAll(rrs) == TimelessAll(CappedAll(rrs))
    ensures TimelessAll(AgedAll(rrs, elapsed)) == TimelessAll(rrs)
  {
    TimelessEqual(AgedAll(CappedAll(rrs), elapsed), rrs);
    TimelessEqual(CappedAll(rrs), rrs);
    TimelessEqual(AgedAll(rrs, elapsed), rrs);
  }

  /** The moment an operation may remove expired entries at. */
  function RemovesAt(op: Op): Option<int> {
    match op
    case Set(_, _, now, _) => Some(now)
    case Sweep(now) => Some(now)
    case _ => None
  }

  /** Apart from a flush, an entry is lost only when it has expired or its own key is stored
      again. */
  lemma LiveEntriesStay(codes: Codes, maxSize: nat, s: State, op: Op, k: string)
    requires k in s.entries && !op.Flush?
    requires RemovesAt(op).Some? ==> !Expired(s.entries[k], RemovesAt(op).value)
    requires op.Set? ==> KeyOf(codes, op.req) != Some(k)
    ensures var t := Next(codes, maxSize, s, op); k in t.entries && t.entries[k] == s.entries[k]
  {
    if op.Set? {
      var v := Victim(s.entries, op.order, op.now, 0);
    }
  }

  /** A Set is counted as dropped exactly when its message could be stored, the cache is full and
      none of the first eight entries of the scan has expired. */
  lemma DropsOnlyWhenFull(codes: Codes, maxSize: nat, s: State, req: Msg, m: Msg, now: int, order: seq<string>)
    requires Inv(s, maxSize)
    ensures Stored(codes, maxSize, s, req, m, now, order).dropped > s.dropped
            <==> Storable(m) && |req.question| == 1 && |s.entries| == maxSize
                 && NoneExpired(s.entries, order, now, 0, SCAN_LIMIT)
  {
    var v := Victim(s.entries, order, now, 0);
    if v >= 0 {
      assert ExpiredAt(s.entries, order, now, v);
      RemoveOne(s.entries, order[v]);
    }
  }

  function Gets(ops: seq<Op>): nat {
    if ops == [] then 0 else Gets(ops[..|ops| - 1]) + if ops[|ops| - 1].Get? then 1 else 0
  }

  /** Every Get is one hit or one miss. */
  lemma {:induction false} GetsAccountedFor(codes: Codes, maxSize: nat, ops: seq<Op>)
    ensures After(codes, maxSize, ops).hits + After(codes, maxSize, ops).misses == Gets(ops)
  {
    if ops != [] {
      GetsAccountedFor(codes, maxSize, ops[..|ops| - 1]);
    }
  }

  // ---- The object -----------------------------------------------------------------

  class Cache {
    const codes: Codes
    const maxSize: nat
    var entries: map<string, Entry>
    var hits: nat
    var misses: nat
    var dropped: nat

    ghost function Abs(): State
      reads this
    {
      State(entries, hits, misses, dropped)
    }

    constructor (codes: Codes, maxSize: nat)
      ensures Abs() == EMPTY && this.codes == codes && this.maxSize == maxSize
    {
      this.codes, this.maxSize := codes, maxSize;
      entries, hits, misses, dropped := map[], 0, 0, 0;
    }

    method Get(req: Msg, t1: int, t2: int) returns (r: Option<Msg>)
      modifies this
      ensures r == Lookup(codes, old(entries), req, t1, t2)
      ensures Abs() == Next(codes, maxSize, old(Abs()), Op.Get(req, t1, t2))
    {
      var k := KeyOf(codes, req);
      if k == None {
        misses := misses + 1;
        return None;
      }
      if k.value !in entries || Expired(entries[k.value], t1) {
        misses := misses + 1;
        return None;
      }
      var e := entries[k.value];
      var msg := DecrementTTLs(e.msg, WholeSeconds(t2 - e.cached));
      hits := hits + 1;
      r := Some(msg);
    }

    method Set(req: Msg, msg: Msg, now: int, order: seq<string>)
      requires forall i :: 0 <= i < |order| ==> order[i] in entries
      modifies this
      ensures Abs() == Next(codes, maxSize, old(Abs()), Op.Set(req, msg, now, order))
    {
      if msg.rcode != NOERROR || msg.truncated || msg.answer == [] {
        return;
      }
      var min := MinAnswerTTL(msg);
      if min == 0 {
        return;
      }
      var k := KeyOf(codes, req);
      if k == None {
        return;
      }
      var stored := CapTTLs(msg);
      var minTTL := MinAnswerTTL(stored);
      var e := Entry(stored, now, minTTL);
      if |entries| >= maxSize {
        ReclaimOneExpired(now, order);
      }
      if |entries| < maxSize {
        entries := entries[k.value := e];
      } else {
        dropped := dropped + 1;
      }
    }

    method ReclaimOneExpired(now: int, order: seq<string>)
      requires forall i :: 0 <= i < |order| ==> order[i] in entries
      modifies this`entries
      ensures entries == Reclaimed(old(entries), order, now)
      ensures NoneExpired(old(entries), order, now, 0, SCAN_LIMIT) ==> entries == old(entries)
      ensures forall r: nat :: FirstExpired(old(entries), order, now, r) ==> entries == old(entries) - {order[r]}
    {
      forall r: nat | FirstExpired(entries, order, now, r) ensures Victim(entries, order, now, 0) == r {
        FirstIsVictim(entries, order, now, r);
      }
      var scanned := 0;
      while scanned < |order|
        invariant scanned <= |order| && (scanned == |order| || scanned < SCAN_LIMIT)
        invariant entries == old(entries)
        invariant Victim(entries, order, now, 0) == Victim(entries, order, now, scanned)
      {
        var k := order[scanned];
        if Expired(entries[k], now) {
          entries := entries - {k};
          return;
        }
        scanned := scanned + 1;
        if scanned >= SCAN_LIMIT {
          return;
        }
      }
    }

    method Flush()
      modifies this
      ensures Abs() == Next(codes, maxSize, old(Abs()), Op.Flush)
    {
      entries := map[];
    }

    /** cleanupExpired, with the number of entries removed. */
    method CleanupExpired(now: int) returns (removed: nat)
      modifies this
      ensures Abs() == Next(codes, maxSize, old(Abs()), Op.Sweep(now))
      ensures removed == |old(entries)| - |entries|
    {
      removed := 0;
      var todo := entries.Keys;
      while todo != {}
        invariant todo <= entries.Keys <= old(entries.Keys)
        invariant forall k :: k in entries ==> entries[k] == old(entries[k])
        invariant forall k :: k in old(entries) && k !in todo ==> (k in entries <==> !Expired(old(entries[k]), now))
        invariant removed == |old(entries)| - |entries|
        invariant hits == old(hits) && misses == old(misses) && dropped == old(dropped)
        decreases |todo|
      {
        var k :| k in todo;
        if Expired(entries[k], now) {
          RemoveOne(entries, k);
          entries := entries - {k};
          removed := removed + 1;
        }
        todo := todo - {k};
      }
      assert entries == Live(old(entries), now);
    }
  }

  lemma RemoveOne(entries: map<string, Entry>, k: string)
    requires k in entries
    ensures |entries - {k}| == |entries| - 1
  {
    assert (entries - {k}).Keys == entries.Keys - {k};
    assert |entries - {k}| == |(entries - {k}).Keys| && |entries| == |entries.Keys|;
  }

  method DecrementTTLs(m: Msg, elapsed: U32) returns (r: Msg)
    ensures r == AgeMsg(m, elapsed)
  {
    var answer := AgeSection(m.answer, elapsed);
    var ns := AgeSection(m.ns, elapsed);
    var extra := AgeSection(m.extra, elapsed);
    r := m.(answer := answer, ns := ns, extra := extra);
  }

  method CapTTLs(m: Msg) returns (r: Msg)
    ensures r == CapMsg(m)
  {
    var answer := CapSection(m.answer);
    var ns := CapSection(m.ns);
    var extra := CapSection(m.extra);
    r := m.(answer := answer, ns := ns, extra := extra);
  }
}
