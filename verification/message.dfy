/** A DNS message as the program handles it: header bits and sections of records, no wire form. */
module Message {

  type U32 = x: nat | x < 0x1_0000_0000

  const ALL_ONES: U32 := 0xFFFF_FFFF

  /** A CNAME record's target, or record data the program never looks into. */
  datatype Data = Cname(target: string) | Raw(bytes: seq<nat>)

  datatype RR = RR(name: string, rrtype: nat, rrclass: nat, ttl: U32, data: Data)

  datatype Question = Question(name: string, qtype: nat, qclass: nat)

  datatype Msg = Msg(
    id: nat, response: bool, opcode: nat, authoritative: bool, truncated: bool, rd: bool, cd: bool, ad: bool,
    rcode: nat, question: seq<Question>, answer: seq<RR>, ns: seq<RR>, extra: seq<RR>)

  const OPT: nat := 41

  /** The last OPT record of the Extra section (IsEdns0), as an index, or -1. */
  function OptIndex(extra: seq<RR>): (r: int)
    ensures -1 <= r < |extra|
    ensures r >= 0 ==> extra[r].rrtype == OPT
    ensures forall k :: r < k < |extra| ==> extra[k].rrtype != OPT
  {
    if extra == [] then -1
    else if extra[|extra| - 1].rrtype == OPT then |extra| - 1
    else OptIndex(extra[..|extra| - 1])
  }

  /** The DO bit, bit 15 of the OPT record's TTL field. */
  predicate DnssecOk(opt: RR) {
    opt.ttl / 0x8000 % 2 == 1
  }

  /** Whether a query asks for DNSSEC records. */
  predicate WantsDnssec(req: Msg) {
    var i := OptIndex(req.extra);
    i >= 0 && DnssecOk(req.extra[i])
  }

  /** Record k is the last OPT record. */
  predicate LastOpt(extra: seq<RR>, k: nat) {
    k < |extra| && extra[k].rrtype == OPT && forall j :: k < j < |extra| ==> extra[j].rrtype != OPT
  }

  /** The number with this upper half, bit 15 set, and these lower bits. */
  predicate Splits(n: nat, upper: nat, lower: nat) {
    n == upper * 0x10000 + 0x8000 + lower && lower < 0x8000
  }

  ghost predicate HasBit15(n: nat) {
    exists upper: nat, lower: nat :: Splits(n, upper, lower)
  }

  lemma DnssecOkIsBit15(opt: RR)
    ensures DnssecOk(opt) <==> HasBit15(opt.ttl)
  {
    var (n, q) := (opt.ttl, opt.ttl / 0x8000);
    assert n == q * 0x8000 + n % 0x8000;
    if DnssecOk(opt) {
      assert q == q / 2 * 2 + 1;
      assert Splits(n, q / 2, n % 0x8000);
    }
    if upper: nat, lower: nat :| Splits(n, upper, lower) {
      assert q == 2 * upper + 1;
    }
  }

  /** A query asks for DNSSEC records exactly when bit 15 is set in its last OPT record. */
  lemma WantsDnssecMeans(req: Msg)
    ensures WantsDnssec(req) <==> exists k: nat :: LastOpt(req.extra, k) && HasBit15(req.extra[k].ttl)
  {
    var i := OptIndex(req.extra);
    if i >= 0 {
      DnssecOkIsBit15(req.extra[i]);
      assert LastOpt(req.extra, i);
    }
    assert forall k: nat :: LastOpt(req.extra, k) ==> k == i;
  }

  /** SetEdns0: one OPT record with a payload size and the DO bit, and no options. */
  function EdnsRecord(size: nat, dnssec: bool): RR {
    RR("", OPT, size, if dnssec then 0x8000 else 0, Raw([]))
  }

  // ---- The part of a reply that does not depend on when it was sent ----------

  /** A record without its TTL. An OPT record has none: the field holds flags. */
  function Timeless(rr: RR): RR {
    if rr.rrtype == OPT then rr else rr.(ttl := 0)
  }

  function TimelessAll(rrs: seq<RR>): (r: seq<RR>)
    ensures |r| == |rrs| && forall k :: 0 <= k < |rrs| ==> r[k] == Timeless(rrs[k])
  {
    if rrs == [] then [] else TimelessAll(rrs[..|rrs| - 1]) + [Timeless(rrs[|rrs| - 1])]
  }

  /** Rcode, truncation, the question as echoed and record data, TTLs aside. */
  datatype Content = Content(
    rcode: nat, truncated: bool, question: seq<Question>, answer: seq<RR>, ns: seq<RR>, extra: seq<RR>)

  function ContentOf(m: Msg): Content {
    Content(m.rcode, m.truncated, m.question, TimelessAll(m.answer), TimelessAll(m.ns), TimelessAll(m.extra))
  }

  lemma TimelessEqual(a: seq<RR>, b: seq<RR>)
    requires |a| == |b| && forall k :: 0 <= k < |a| ==> Timeless(a[k]) == Timeless(b[k])
    ensures TimelessAll(a) == TimelessAll(b)
  {
  }

  // ---- stripOPT ---------------------------------------------------------------

  function WithoutOpt(rrs: seq<RR>): (r: seq<RR>)
    ensures forall k :: 0 <= k < |r| ==> r[k].rrtype != OPT
  {
    if rrs == [] then []
    else
      var rest := WithoutOpt(rrs[..|rrs| - 1]);
      var last := rrs[|rrs| - 1];
      if last.rrtype == OPT then rest else rest + [last]
  }

  /** The number of records other than OPT. */
  function Others(rrs: seq<RR>): nat {
    if rrs == [] then 0 else Others(rrs[..|rrs| - 1]) + if rrs[|rrs| - 1].rrtype == OPT then 0 else 1
  }

  /** Every other record is kept, behind those in front of it, and nothing else is. */
  lemma {:induction false} OthersAreKept(rrs: seq<RR>)
    ensures |WithoutOpt(rrs)| == Others(rrs)
    ensures forall i :: 0 <= i < |rrs| && rrs[i].rrtype != OPT ==>
              Others(rrs[..i]) < Others(rrs) && WithoutOpt(rrs)[Others(rrs[..i])] == rrs[i]
  {
    if rrs != [] {
      var n := |rrs| - 1;
      OthersAreKept(rrs[..n]);
      forall i | 0 <= i < |rrs| && rrs[i].rrtype != OPT
        ensures Others(rrs[..i]) < Others(rrs) && WithoutOpt(rrs)[Others(rrs[..i])] == rrs[i]
      {
        if i < n {
          assert rrs[..n][..i] == rrs[..i] && rrs[..n][i] == rrs[i];
        }
      }
    }
  }

  /** stripOPT: the kept records keep their order. */
  method StripOpt(m: Msg) returns (r: Msg)
    ensures r == m.(extra := WithoutOpt(m.extra))
    ensures OptIndex(r.extra) == -1
  {
    var extra := [];
    for i := 0 to |m.extra|
      invariant extra == WithoutOpt(m.extra[..i])
    {
      assert m.extra[..i + 1][..i] == m.extra[..i];
      if m.extra[i].rrtype != OPT {
        extra := extra + [m.extra[i]];
      }
    }
    assert m.extra[..|m.extra|] == m.extra;
    r := m.(extra := extra);
  }

  /** Stripping looks at no TTL. */
  lemma {:induction false} StripTimeless(rrs: seq<RR>)
    ensures WithoutOpt(TimelessAll(rrs)) == TimelessAll(WithoutOpt(rrs))
  {
    if rrs != [] {
      var n := |rrs| - 1;
      StripTimeless(rrs[..n]);
      assert TimelessAll(rrs)[..n] == TimelessAll(rrs[..n]);
      var rest := WithoutOpt(rrs[..n]);
      if rrs[n].rrtype != OPT {
        assert (rest + [rrs[n]])[..|rest|] == rest;
      }
    }
  }
}
