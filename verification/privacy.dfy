/** What never leaves the local network, over all the checks of the handler together. */
module Privacy {
  import opened Message
  import opened CacheKey
  import opened Wrappers
  import opened QueryRecord
  import opened QueryHandler
  import Address
  import Blocklist
  import LanAccess
  import LocalNames
  import ReverseNames
  import ResponseCache
  import Upstreams

  /** The verdicts of a query that asked the cache or an upstream. */
  predicate WentOn(v: Verdict) {
    v.Hit? || v.Relayed? || v.Unresolved? || v == Block(ByCname)
  }

  /** Only a public name, or a LAN name while an upstream is on the LAN, gets as far as the cache
      and the upstreams, and only when neither it nor its reverse zone is answered here. */
  lemma OnlyPublicNamesGoOn(c: Config, lists: Lists, entries: map<string, ResponseCache.Entry>, a: Arrival)
    requires WentOn(Decide(c, lists, entries, a))
    ensures a.onLan && |a.req.question| == 1 && a.req.opcode == 0 && a.req.rd
    ensures
      var q := a.req.question[0];
      var domain := Domain(c, a.req);
      var kind := LocalNames.Classify(q.qtype, domain, c.localDomains);
      && (kind.Public? || (kind.LanOnly? && Targets(c, a) != []))
      && (c.localPTR ==> !ReverseNames.PrivatePtr(c.fold, c.zones, q.qtype, domain) && !a.ownPtr)
      && !Blocklist.Blocks(lists.blocked, lists.allow, Blocklist.Normalize(c.fold, domain))
  {
  }

  /** With no upstream on the LAN, no name under a local suffix is ever asked elsewhere. */
  lemma LocalSuffixStays(c: Config, lists: Lists, entries: map<string, ResponseCache.Entry>, a: Arrival, i: nat)
    requires i < |LocalNames.LAN_ONLY| && LanUpstreams(c.upstreams, a.lan) == [] && |a.req.question| == 1
    requires LocalNames.Under(Domain(c, a.req), LocalNames.LAN_ONLY[i])
    ensures !WentOn(Decide(c, lists, entries, a))
  {
    var domain := Domain(c, a.req);
    assert LocalNames.UnderAny(domain, LocalNames.LAN_ONLY);
    if WentOn(Decide(c, lists, entries, a)) {
      OnlyPublicNamesGoOn(c, lists, entries, a);
      assert false;
    }
  }

  /** A name that only the LAN can answer is asked of upstreams on the LAN alone, in both sweeps
      and whatever fails. */
  lemma LanNamesAskTheLan(c: Config, a: Arrival, env: Upstreams.Env, last: Upstreams.Failures, now: int,
                          run: Upstreams.Run, k: nat)
    requires |a.req.question| == 1
    requires LocalNames.Classify(a.req.question[0].qtype, Domain(c, a.req), c.localDomains).LanOnly?
    requires Upstreams.Forwards(env, Targets(c, a), last, now, run) && k < |run.contacted|
    ensures run.contacted[k] in a.lan && run.contacted[k] in c.upstreams
  {
    var targets := LanUpstreams(c.upstreams, a.lan);
    Upstreams.VisitedIsPlanned(targets, last, now, run.looks);
    assert run.contacted[k] == Upstreams.Plan(targets, last, now)[k];
    Upstreams.PlanCovers(targets, last, now, run.contacted[k]);
  }

  /** A public name may be asked of every configured upstream, and of no other. */
  lemma PublicNamesAskAll(c: Config, a: Arrival, last: Upstreams.Failures, now: int, u: string)
    requires |a.req.question| == 1
    requires LocalNames.Classify(a.req.question[0].qtype, Domain(c, a.req), c.localDomains).Public?
    ensures u in Upstreams.Plan(Targets(c, a), last, now) <==> u in c.upstreams
  {
    Upstreams.PlanCovers(Targets(c, a), last, now, u);
  }

  /** With the LAN upstreams that the access list finds, each of them has an address on the LAN. */
  lemma LanNamesAskLanAddresses(c: Config, a: Arrival, env: Upstreams.Env, last: Upstreams.Failures, now: int,
                                run: Upstreams.Run, k: nat, s: LanAccess.State,
                                ips: seq<Option<Address.Addr>>, calls: seq<LanAccess.Call>)
    requires |c.upstreams| == |ips| == |calls| && |a.req.question| == 1
    ensures
      && LocalNames.Classify(a.req.question[0].qtype, Domain(c, a.req), c.localDomains).LanOnly?
      && a.lan == LanAccess.LanSet(s, c.upstreams, ips, calls)
      && Upstreams.Forwards(env, Targets(c, a), last, now, run) && k < |run.contacted|
      ==> LanAccess.Found(s, c.upstreams, ips, calls, run.contacted[k])
  {
    if && LocalNames.Classify(a.req.question[0].qtype, Domain(c, a.req), c.localDomains).LanOnly?
       && a.lan == LanAccess.LanSet(s, c.upstreams, ips, calls)
       && Upstreams.Forwards(env, Targets(c, a), last, now, run) && k < |run.contacted|
    {
      LanNamesAskTheLan(c, a, env, last, now, run, k);
      LanAccess.LanSetIsFound(s, c.upstreams, ips, calls, run.contacted[k]);
    }
  }

  /** A PTR query for the address w.x.y.z. */
  ghost predicate AsksFor(c: Config, a: Arrival, w: nat, x: nat, y: nat, z: nat)
    requires w < 256 && x < 256 && y < 256 && z < 256
  {
    && |a.req.question| == 1 && a.onLan && a.req.opcode == 0 && a.req.rd
    && a.req.question[0].qtype == ReverseNames.PTR
    && Domain(c, a.req) == ReverseNames.ReverseName(ReverseNames.InAddr, [w, x, y, z])
  }

  /** The reverse lookup of an IPv4 address that is on the LAN, under any history of interface
      reads, gets its answer here. */
  lemma LanReverseLookupStays(c: Config, calls: seq<LanAccess.Call>, w: nat, x: nat, y: nat, z: nat)
    requires c.localPTR && ReverseNames.ZoneSet(c.zones) && w < 256 && x < 256 && y < 256 && z < 256
    ensures LanAccess.InLan(LanAccess.After(calls), Address.V4(w, x, y, z)) ==>
              forall lists: Lists, entries: map<string, ResponseCache.Entry>, a: Arrival ::
                AsksFor(c, a, w, x, y, z) ==> Decide(c, lists, entries, a) == LocalPtr
  {
    if LanAccess.InLan(LanAccess.After(calls), Address.V4(w, x, y, z)) {
      LanAccess.LanPtrStaysLocalV4(calls, c.fold, c.zones, w, x, y, z);
    }
  }

  /** A PTR query for the IPv6 address with the given nibbles. */
  ghost predicate AsksFor6(c: Config, a: Arrival, ns: seq<nat>)
    requires Address.Nibbles(ns)
  {
    && |a.req.question| == 1 && a.onLan && a.req.opcode == 0 && a.req.rd
    && a.req.question[0].qtype == ReverseNames.PTR
    && Domain(c, a.req) == ReverseNames.ReverseName(ReverseNames.Ip6, ns)
  }

  /** The address is in a global IPv6 subnet of one of the host's interfaces. */
  ghost predicate InOwnSubnet(s: LanAccess.State, ip: Address.Addr) {
    s.onLink.Some? &&
    exists i :: 0 <= i < |s.onLink.value| && LanAccess.OwnGlobal(s.onLink.value[i]) && s.onLink.value[i].Contains(ip)
  }

  lemma OwnPtrMeans(s: LanAccess.State, ns: seq<nat>)
    requires LanAccess.Inv(s) && |ns| == 32 && Address.Nibbles(ns)
    ensures LanAccess.OwnPtr(s, ReverseNames.PTR, ReverseNames.ReverseName(ReverseNames.Ip6, ns))
            <==> InOwnSubnet(s, Address.Addr(Address.NibbleBits(ns)))
  {
    ReverseNames.PrintThenRead(ns);
    var p := ReverseNames.PrefixOf(ns);
    assert p.addr.bits == Address.NibbleBits(ns);
    if s.onLink.Some? {
      forall i | 0 <= i < |s.onLink.value|
        ensures s.onLink.value[i].Covers(p) <==> s.onLink.value[i].Contains(p.addr)
      {
      }
    }
  }

  /** Only PTR queries are reverse lookups, whatever their name looks like. */
  lemma OnlyPtrIsLookup(c: Config, s: LanAccess.State, qtype: nat, name: string)
    requires qtype != 12
    ensures !LanAccess.OwnPtr(s, qtype, name) && !ReverseNames.PrivatePtr(c.fold, c.zones, qtype, name)
  {
  }

  /** The reverse lookup of an IPv6 address gets its answer here exactly when the address is in a
      private range or in an own global subnet; s is the LAN list that the check has used. */
  lemma ReverseLookupV6(c: Config, s: LanAccess.State, ns: seq<nat>, lists: Lists,
                        entries: map<string, ResponseCache.Entry>, a: Arrival)
    requires c.localPTR && ReverseNames.ZoneSet(c.zones) && LanAccess.Inv(s)
    requires |ns| == 32 && Address.Nibbles(ns) && AsksFor6(c, a, ns)
    requires a.ownPtr == LanAccess.OwnPtr(s, ReverseNames.PTR, Domain(c, a.req))
    ensures
      var ip := Address.Addr(Address.NibbleBits(ns));
      Decide(c, lists, entries, a) == LocalPtr <==> ReverseNames.PrivateV6(ip) || InOwnSubnet(s, ip)
  {
    LocalPtrMeans(c, lists, entries, a);
    ReverseNames.ReverseFoldsToItself(c.fold, ReverseNames.Ip6, ns);
    ReverseNames.PrivatePtrV6(c.fold, c.zones, Domain(c, a.req), ns);
    OwnPtrMeans(s, ns);
  }

  /** An accepted query is answered as a local PTR query exactly when the setting is on and one of
      the two checks says so. */
  lemma LocalPtrMeans(c: Config, lists: Lists, entries: map<string, ResponseCache.Entry>, a: Arrival)
    requires |a.req.question| == 1 && a.onLan && a.req.opcode == 0 && a.req.rd
    ensures Decide(c, lists, entries, a) == LocalPtr <==>
            && c.localPTR
            && (ReverseNames.PrivatePtr(c.fold, c.zones, a.req.question[0].qtype, Domain(c, a.req)) || a.ownPtr)
  {
  }

  /** The address is in no private range and no on-link prefix that holds it is a global subnet. */
  ghost predicate LookupLeaves(s: LanAccess.State, ip: Address.Addr) {
    && !ReverseNames.PrivateV6(ip) && !LanAccess.Holds(LanAccess.LAN_RANGES, ip)
    && s.onLink.Some? && LanAccess.Holds(s.onLink.value, ip)
    && forall i :: 0 <= i < |s.onLink.value| && s.onLink.value[i].Contains(ip) ==>
         !LanAccess.OwnGlobal(s.onLink.value[i])
  }

  /** So the lookup of an address on the LAN goes on exactly when the address is in none of the
      private ranges and every on-link prefix that holds it is not a global subnet. */
  lemma LanReverseLookupV6(c: Config, s: LanAccess.State, ns: seq<nat>, lists: Lists,
                           entries: map<string, ResponseCache.Entry>, a: Arrival)
    requires c.localPTR && ReverseNames.ZoneSet(c.zones) && LanAccess.Inv(s)
    requires |ns| == 32 && Address.Nibbles(ns) && AsksFor6(c, a, ns)
    requires a.ownPtr == LanAccess.OwnPtr(s, ReverseNames.PTR, Domain(c, a.req))
    ensures
      var ip := Address.Addr(Address.NibbleBits(ns));
      LanAccess.InLan(s, ip) ==> (Decide(c, lists, entries, a) != LocalPtr <==> LookupLeaves(s, ip))
  {
    var ip := Address.Addr(Address.NibbleBits(ns));
    ReverseLookupV6(c, s, ns, lists, entries, a);
    if LanAccess.Holds(LanAccess.LAN_RANGES, ip) {
      LanAccess.FixedV6IsPrivate(ip);
    }
  }
}
