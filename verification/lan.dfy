/** internal/dnsserver/lan.go: which sources are on the LAN. */
module LanAccess {
  import opened Address
  import opened Durations
  import opened Wrappers
  import ReverseNames

  const REFRESH_INTERVAL: int := 30 * SECOND

  const LAN_RANGES: seq<Prefix> := [
    Prefix(V4(127, 0, 0, 0), 8), Prefix(LOOPBACK6, 128), Prefix(V4(10, 0, 0, 0), 8), Prefix(V4(172, 16, 0, 0), 12),
    Prefix(V4(192, 168, 0, 0), 16), Prefix(V4(169, 254, 0, 0), 16), UNIQUE_LOCAL6, LINK_LOCAL6]

  /** Some prefix of the list holds the address, or covers the prefix. */
  ghost predicate Holds(ps: seq<Prefix>, ip: Addr) {
    exists i :: 0 <= i < |ps| && ps[i].Contains(ip)
  }

  ghost predicate CoveredBy(ps: seq<Prefix>, p: Prefix) {
    exists i :: 0 <= i < |ps| && ps[i].Covers(p)
  }

  method Scan(ps: seq<Prefix>, ip: Addr) returns (r: bool)
    ensures r <==> Holds(ps, ip)
  {
    for i := 0 to |ps|
      invariant forall k :: 0 <= k < i ==> !ps[k].Contains(ip)
    {
      if ps[i].Contains(ip) {
        return true;
      }
    }
    r := false;
  }

  method InLanRanges(ranges: seq<Prefix>, p: Prefix) returns (r: bool)
    ensures r <==> CoveredBy(ranges, p)
  {
    for i := 0 to |ranges|
      invariant forall k :: 0 <= k < i ==> !ranges[k].Covers(p)
    {
      if ranges[i].len <= p.len && ranges[i].Contains(p.addr) {
        return true;
      }
    }
    r := false;
  }

  /** The loop of underGlobalV6, for any test of a prefix. */
  method ScanCovers(ps: seq<Prefix>, own: Prefix -> bool, p: Prefix) returns (r: bool)
    ensures r <==> exists i :: 0 <= i < |ps| && own(ps[i]) && ps[i].Covers(p)
  {
    for i := 0 to |ps|
      invariant forall k :: 0 <= k < i ==> !(own(ps[k]) && ps[k].Covers(p))
    {
      if own(ps[i]) && ps[i].len <= p.len && ps[i].Contains(p.addr) {
        return true;
      }
    }
    r := false;
  }

  // ---- Reading the interfaces ----------------------------------------------------

  /** One interface address: None when it is not an IP network, and the mask's leading ones. */
  datatype Interface = Interface(ip: Option<Addr>, ones: nat)

  /** The mask length that counts: a mapped IPv4 mask is 96 longer, and a global IPv6 address
      stands for its /64. */
  function MaskLength(ip: Addr, ones: nat): int {
    var n := if ip.Is4() && ones > 32 then ones - 96 else ones;
    if ip.Is6() && GlobalUnicast6(ip) && n > 64 then 64 else n
  }

  /** The prefix an interface puts on link, if it has a usable one. */
  function OnLink(a: Interface): (r: Option<Prefix>)
    ensures r.Some? ==> r.value.Valid()
  {
    if a.ip == None || !a.ip.value.Valid() then None
    else
      var ip := Unmap(a.ip.value);
      var n := MaskLength(ip, a.ones);
      if 0 <= n <= |ip.bits| then Some(Masked(ip, n)) else None
  }

  /** An IPv4 subnet outside the fixed ranges is not admitted. */
  ghost predicate Refused(p: Prefix) {
    p.addr.Is4() && !CoveredBy(LAN_RANGES, p)
  }

  /** The prefixes a good read admits, in order, and those it refuses. */
  ghost function Admitted(addrs: seq<Interface>): seq<Prefix> {
    if addrs == [] then []
    else
      var rest := Admitted(addrs[..|addrs| - 1]);
      var p := OnLink(addrs[|addrs| - 1]);
      if p == None || Refused(p.value) then rest else rest + [p.value]
  }

  ghost function RefusedOf(addrs: seq<Interface>): set<Prefix> {
    if addrs == [] then {}
    else
      var rest := RefusedOf(addrs[..|addrs| - 1]);
      var p := OnLink(addrs[|addrs| - 1]);
      if p != None && Refused(p.value) then rest + {p.value} else rest
  }

  method ReadPrefixes(addrs: seq<Interface>) returns (out: seq<Prefix>, refused: set<Prefix>)
    ensures out == Admitted(addrs) && refused == RefusedOf(addrs)
  {
    out, refused := [], {};
    for i := 0 to |addrs|
      invariant out == Admitted(addrs[..i]) && refused == RefusedOf(addrs[..i])
    {
      assert addrs[..i + 1][..i] == addrs[..i];
      var p := OnLink(addrs[i]);
      if p == None {
        continue;
      }
      var inRanges := InLanRanges(LAN_RANGES, p.value);
      if p.value.addr.Is4() && !inRanges {
        refused := refused + {p.value};
      } else {
        out := out + [p.value];
      }
    }
    assert addrs[..|addrs|] == addrs;
  }

  // ---- The access list as a value -------------------------------------------------

  /** An interface read that failed, or what it returned. */
  datatype Read = Failed | Good(addrs: seq<Interface>)

  datatype State = State(onLink: Option<seq<Prefix>>, refreshed: Option<int>, notAdmitted: set<Prefix>)

  const NEW := State(None, None, {})

  predicate Due(s: State, now: int) {
    s.refreshed == None || now - s.refreshed.value >= REFRESH_INTERVAL
  }

  ghost function Refreshed(s: State, now: int, read: Read): State {
    if !Due(s, now) then s
    else
      match read
      case Failed => s.(refreshed := Some(now))
      case Good(addrs) => State(Some(Admitted(addrs)), Some(now), RefusedOf(addrs))
  }

  /** contains. */
  ghost predicate InLan(s: State, ip: Addr) {
    Holds(LAN_RANGES, ip) || (s.onLink.Some? && Holds(s.onLink.value, ip))
  }

  /** A call from outside that may read the interfaces: the time, and what a read would give. */
  datatype Call = Call(now: int, read: Read)

  ghost function After(calls: seq<Call>): State {
    if calls == [] then NEW
    else Refreshed(After(calls[..|calls| - 1]), calls[|calls| - 1].now, calls[|calls| - 1].read)
  }

  /** The times of the interface reads of a run. */
  ghost function ReadTimes(calls: seq<Call>): seq<int> {
    if calls == [] then []
    else
      var n := |calls| - 1;
      ReadTimes(calls[..n]) + if Due(After(calls[..n]), calls[n].now) then [calls[n].now] else []
  }

  ghost predicate Inv(s: State) {
    s.onLink.Some? ==> forall i :: 0 <= i < |s.onLink.value| ==>
          s.onLink.value[i].Valid() && !Refused(s.onLink.value[i])
  }

  lemma {:induction false} AdmittedOk(addrs: seq<Interface>)
    ensures forall i :: 0 <= i < |Admitted(addrs)| ==> Admitted(addrs)[i].Valid() && !Refused(Admitted(addrs)[i])
  {
    if addrs != [] {
      AdmittedOk(addrs[..|addrs| - 1]);
    }
  }

  lemma RefreshKeepsInv(s: State, now: int, read: Read)
    requires Inv(s)
    ensures Inv(Refreshed(s, now, read))
  {
    if read.Good? {
      AdmittedOk(read.addrs);
    }
  }

  lemma {:induction false} RunKeepsInv(calls: seq<Call>)
    ensures Inv(After(calls))
  {
    if calls != [] {
      var n := |calls| - 1;
      RunKeepsInv(calls[..n]);
      RefreshKeepsInv(After(calls[..n]), calls[n].now, calls[n].read);
    }
  }

  // ---- What a read admits ---------------------------------------------------------

  /** The prefix an entry of a read puts on link, unless it is refused, holds the address. */
  ghost predicate Grants(a: Interface, ip: Addr) {
    OnLink(a).Some? && !Refused(OnLink(a).value) && OnLink(a).value.Contains(ip)
  }

  /** Some element passes the test. */
  ghost predicate Any<T(!new)>(xs: seq<T>, test: T -> bool) {
    exists i :: 0 <= i < |xs| && test(xs[i])
  }

  lemma AnySnoc<T(!new)>(xs: seq<T>, test: T -> bool)
    requires xs != []
    ensures Any(xs, test) <==> Any(xs[..|xs| - 1], test) || test(xs[|xs| - 1])
  {
    var n := |xs| - 1;
    if i :| 0 <= i < |xs| && test(xs[i]) {
      assert i < n ==> test(xs[..n][i]);
    }
    if i :| 0 <= i < n && test(xs[..n][i]) {
      assert test(xs[i]);
    }
  }

  lemma {:induction false} AdmittedHolds(addrs: seq<Interface>, ip: Addr, grants: Interface -> bool)
    requires forall a :: grants(a) <==> Grants(a, ip)
    ensures Holds(Admitted(addrs), ip) <==> Any(addrs, grants)
  {
    if addrs != [] {
      var n := |addrs| - 1;
      AdmittedHolds(addrs[..n], ip, grants);
      HoldsMore(Admitted(addrs[..n]), Admitted(addrs), ip);
      AnySnoc(addrs, grants);
      assert grants(addrs[n]) <==> Grants(addrs[n], ip);
    }
  }

  /** A longer list holds what the shorter one and the last prefix hold. */
  lemma HoldsMore(ps: seq<Prefix>, more: seq<Prefix>, ip: Addr)
    requires more == ps || (|more| == |ps| + 1 && more[..|ps|] == ps)
    ensures Holds(more, ip) <==> Holds(ps, ip) || (|more| > |ps| && more[|ps|].Contains(ip))
  {
    if |more| > |ps| {
      assert forall i :: 0 <= i < |ps| ==> more[i] == ps[i];
    }
  }

  /** How many leading bits an IPv6 address on the LAN shares with an interface's address: the mask's,
      but no more than 64 of a global address. */
  function SharedBits(x: Addr, ones: nat): nat {
    if GlobalUnicast6(x) && ones > 64 then 64 else ones
  }

  /** The interface has the IPv6 address x, with a mask that an IPv6 address can have, and ip shares
      the leading bits with it. */
  ghost predicate OnLinkWith(a: Interface, x: Addr, ip: Addr) {
    && a.ip == Some(x) && x.Is6() && !Is4In6(x) && ip.Is6() && SharedBits(x, a.ones) <= 128
    && ip.bits[..SharedBits(x, a.ones)] == x.bits[..SharedBits(x, a.ones)]
  }

  lemma GrantsMeans(a: Interface, ip: Addr)
    requires ip.Is6()
    ensures Grants(a, ip) <==> exists x :: OnLinkWith(a, x, ip)
  {
    if a.ip.Some? && a.ip.value.Is6() && !Is4In6(a.ip.value) {
      var x := a.ip.value;
      var n := SharedBits(x, a.ones);
      assert MaskLength(x, a.ones) == n;
      if n <= 128 {
        var m := Masked(x, n);
        assert m.addr.bits[..n] == x.bits[..n];
        assert OnLink(a) == Some(m) && (m.Contains(ip) <==> OnLinkWith(a, x, ip));
      }
    }
  }

  /** After a call an IPv6 source is on the LAN exactly when it is in the fixed ranges or, if the call
      was due and could read the interfaces, on link with one of them; a read that fails, or is not
      due within 30 s of the last, changes nothing. */
  lemma RefreshMeans(s: State, now: int, read: Read, ip: Addr)
    requires ip.Is6()
    ensures
      var due := s.refreshed.None? || now - s.refreshed.value >= 30_000_000_000;
      InLan(Refreshed(s, now, read), ip) <==>
        if due && read.Good? then
          Holds(LAN_RANGES, ip) || exists i, x :: 0 <= i < |read.addrs| && OnLinkWith(read.addrs[i], x, ip)
        else InLan(s, ip)
  {
    if read.Good? {
      var grants := (a: Interface) => Grants(a, ip);
      AdmittedHolds(read.addrs, ip, grants);
      SomeGrantsMeans(read.addrs, ip, grants);
    }
  }

  lemma SomeGrantsMeans(addrs: seq<Interface>, ip: Addr, grants: Interface -> bool)
    requires ip.Is6() && forall a :: grants(a) <==> Grants(a, ip)
    ensures Any(addrs, grants) <==> exists i, x :: 0 <= i < |addrs| && OnLinkWith(addrs[i], x, ip)
  {
    if i :| 0 <= i < |addrs| && grants(addrs[i]) {
      GrantsMeans(addrs[i], ip);
      var x :| OnLinkWith(addrs[i], x, ip);
    }
    if i, x :| 0 <= i < |addrs| && OnLinkWith(addrs[i], x, ip) {
      GrantsMeans(addrs[i], ip);
      assert grants(addrs[i]);
    }
  }

  lemma {:induction false} RefusedBy(addrs: seq<Interface>, p: Prefix, puts: Interface -> bool)
    requires forall a :: puts(a) <==> OnLink(a) == Some(p)
    ensures p in RefusedOf(addrs) <==> Refused(p) && Any(addrs, puts)
  {
    if addrs != [] {
      RefusedBy(addrs[..|addrs| - 1], p, puts);
      AnySnoc(addrs, puts);
      assert puts(addrs[|addrs| - 1]) <==> OnLink(addrs[|addrs| - 1]) == Some(p);
    }
  }

  /** The subnets that a good read refuses are the IPv4 ones outside the fixed ranges. */
  lemma RefusedMeans(addrs: seq<Interface>, p: Prefix)
    ensures p in RefusedOf(addrs) <==>
            p.addr.Is4() && !CoveredBy(LAN_RANGES, p) && exists i :: 0 <= i < |addrs| && OnLink(addrs[i]) == Some(p)
  {
    var puts := (a: Interface) => OnLink(a) == Some(p);
    RefusedBy(addrs, p, puts);
    if i :| 0 <= i < |addrs| && OnLink(addrs[i]) == Some(p) {
      assert puts(addrs[i]);
    }
    if i :| 0 <= i < |addrs| && puts(addrs[i]) {
      assert OnLink(addrs[i]) == Some(p);
    }
  }

  /** The prefix of an IPv4 interface, given plainly or in IPv6 form: the mask's length, 96 less in
      IPv6 form, when an IPv4 mask can have it. */
  lemma OnLinkV4(v4: Addr, ones: nat, mapped: bool)
    requires v4.Is4()
    ensures
      var x := if mapped then Addr(Zeros(80) + Octets([255, 255]) + v4.bits) else v4;
      var n := if ones > 32 then ones - 96 else ones;
      OnLink(Interface(Some(x), ones)) == if 0 <= n <= 32 then Some(Masked(v4, n)) else None
  {
    var x := if mapped then Addr(Zeros(80) + Octets([255, 255]) + v4.bits) else v4;
    if mapped {
      assert x.bits[..96] == Zeros(80) + Octets([255, 255]) && x.bits[96..] == v4.bits;
    }
    assert Unmap(x) == v4;
  }

  /** An IPv4 source is on the LAN exactly when it is in the fixed ranges: what the interfaces
      add for IPv4 lies inside them. */
  lemma Ipv4OnlyFixed(s: State, ip: Addr)
    requires Inv(s) && ip.Is4()
    ensures InLan(s, ip) <==> Holds(LAN_RANGES, ip)
  {
    if s.onLink.Some? && Holds(s.onLink.value, ip) {
      var i :| 0 <= i < |s.onLink.value| && s.onLink.value[i].Contains(ip);
      var p := s.onLink.value[i];
      var k :| 0 <= k < |LAN_RANGES| && LAN_RANGES[k].Covers(p);
      CoversIsTransitive(LAN_RANGES[k], p, ip);
    }
  }

  /** What the fixed ranges say of an IPv4 address, in numbers. */
  predicate FixedV4(a: nat, b: nat) {
    a == 127 || a == 10 || (a == 172 && 16 <= b < 32) || (a == 192 && b == 168) || (a == 169 && b == 254)
  }

  lemma HoldsV4(a: nat, b: nat, c: nat, d: nat)
    requires a < 256 && b < 256 && c < 256 && d < 256
    ensures Holds(LAN_RANGES, V4(a, b, c, d)) <==> FixedV4(a, b)
  {
    var ip := V4(a, b, c, d);
    InSlash8(127, a, b, c, d);
    InSlash8(10, a, b, c, d);
    InSlash12(172, 16, a, b, c, d);
    InSlash16(192, 168, a, b, c, d);
    InSlash16(169, 254, a, b, c, d);
    var rs := LAN_RANGES;
    assert Holds(rs, ip) <==>
           rs[0].Contains(ip) || rs[1].Contains(ip) || rs[2].Contains(ip) || rs[3].Contains(ip)
           || rs[4].Contains(ip) || rs[5].Contains(ip) || rs[6].Contains(ip) || rs[7].Contains(ip);
  }

  lemma InSlash8(p: nat, a: nat, b: nat, c: nat, d: nat)
    requires p < 256 && a < 256
    ensures Prefix(V4(p, 0, 0, 0), 8).Contains(V4(a, b, c, d)) <==> p == a
  {
    V4Head(p, 0, 0, 0);
    V4Head(a, b, c, d);
    if V4(p, 0, 0, 0).bits[..8] == V4(a, b, c, d).bits[..8] {
      OctetInjective(p, a);
    }
  }

  lemma InSlash12(p: nat, q: nat, a: nat, b: nat, c: nat, d: nat)
    requires p < 256 && q < 256 && a < 256 && b < 256
    ensures Prefix(V4(p, q, 0, 0), 12).Contains(V4(a, b, c, d)) <==> p == a && q / 16 == b / 16
  {
    V4Head(p, q, 0, 0);
    V4Head(a, b, c, d);
    var x, y := V4(p, q, 0, 0).bits, V4(a, b, c, d).bits;
    assert x[..12] == x[..8] + x[8..12] && y[..12] == y[..8] + y[8..12];
    if x[..12] == y[..12] {
      assert x[..8] == x[..12][..8] && y[..8] == y[..12][..8];
      assert x[8..12] == x[..12][8..] && y[8..12] == y[..12][8..];
      OctetInjective(p, a);
      NibbleInjective(q / 16, b / 16);
    }
  }

  lemma InSlash16(p: nat, q: nat, a: nat, b: nat, c: nat, d: nat)
    requires p < 256 && q < 256 && a < 256 && b < 256
    ensures Prefix(V4(p, q, 0, 0), 16).Contains(V4(a, b, c, d)) <==> p == a && q == b
  {
    V4Head(p, q, 0, 0);
    V4Head(a, b, c, d);
    var x, y := V4(p, q, 0, 0).bits, V4(a, b, c, d).bits;
    assert x[..16] == x[..8] + x[8..16] && y[..16] == y[..8] + y[8..16];
    if x[..16] == y[..16] {
      assert x[..8] == x[..16][..8] && y[..8] == y[..16][..8];
      assert x[8..16] == x[..16][8..] && y[8..16] == y[..16][8..];
      OctetInjective(p, a);
      OctetInjective(q, b);
    }
  }

  /** For every history of interface reads, failed ones included. */
  lemma EveryHistoryIpv4(calls: seq<Call>, ip: Addr)
    requires ip.Is4()
    ensures InLan(After(calls), ip) <==> Holds(LAN_RANGES, ip)
  {
    RunKeepsInv(calls);
    Ipv4OnlyFixed(After(calls), ip);
  }

  /** Two interface reads are at least 30 s apart, whatever the clock does. */
  lemma {:induction false} ReadsAreSpaced(calls: seq<Call>)
    ensures
      var times := ReadTimes(calls);
      && (After(calls).refreshed == if times == [] then None else Some(times[|times| - 1]))
      && forall i :: 0 < i < |times| ==> times[i] - times[i - 1] >= REFRESH_INTERVAL
  {
    if calls != [] {
      ReadsAreSpaced(calls[..|calls| - 1]);
    }
  }

  // ---- The LAN's own global IPv6 prefixes --------------------------------------------

  /** A global IPv6 subnet of an interface. */
  predicate OwnGlobal(l: Prefix) {
    l.addr.Is6() && GlobalUnicast6(l.addr) && !UNIQUE_LOCAL6.Contains(l.addr)
  }

  /** In numbers: any IPv6 address but ::, ::1, fc00::/7, fe80::/10 and ff00::/8. */
  lemma OwnGlobalMeans(ns: seq<nat>, len: nat)
    requires |ns| == 32 && Nibbles(ns)
    ensures OwnGlobal(Prefix(Addr(NibbleBits(ns)), len)) <==>
            !(ns[31] <= 1 && forall i :: 0 <= i < 31 ==> ns[i] == 0)
            && !(ns[0] == 15 && (12 <= ns[1] <= 13 || (ns[1] == 14 && 8 <= ns[2] <= 11) || ns[1] == 15))
  {
    ReverseNames.UnspecifiedOrLoopback(ns);
    assert forall i :: 0 <= i < 31 ==> ns[..31][i] == ns[i];
    ReverseNames.UniqueLocal(ns);
    ReverseNames.LinkLocal(ns);
    Multicast(ns);
  }

  lemma Multicast(ns: seq<nat>)
    requires |ns| == 32 && Nibbles(ns)
    ensures MULTICAST6.Contains(Addr(NibbleBits(ns))) <==> ns[0] == 15 && ns[1] == 15
  {
    LeadingContains([15, 15], 2, 0, ns);
    assert ns[..2] == [ns[0], ns[1]] && [15, 15][..2] == [15, 15];
  }

  ghost predicate UnderGlobal(s: State, p: Prefix) {
    && s.onLink.Some?
    && exists i :: 0 <= i < |s.onLink.value| && OwnGlobal(s.onLink.value[i]) && s.onLink.value[i].Covers(p)
  }

  /** ownPrefixPTR: a PTR query for a name that spells a prefix inside an own subnet. */
  ghost predicate OwnPtr(s: State, qtype: nat, name: string) {
    && qtype == ReverseNames.PTR && ReverseNames.Spelled(name).Some?
    && UnderGlobal(s, ReverseNames.PrefixOf(ReverseNames.Spelled(name).value))
  }

  /** The reverse name of every address in an own global subnet is recognized. */
  lemma OwnAddressRecognized(s: State, i: nat, ns: seq<nat>)
    requires Inv(s) && s.onLink.Some? && i < |s.onLink.value| && |ns| == 32 && Nibbles(ns)
    ensures OwnGlobal(s.onLink.value[i]) && s.onLink.value[i].Contains(Addr(NibbleBits(ns))) ==>
              OwnPtr(s, ReverseNames.PTR, ReverseNames.ReverseName(ReverseNames.Ip6, ns))
  {
    ReverseNames.PrintThenRead(ns);
    var p := ReverseNames.PrefixOf(ns);
    assert p.addr.bits == NibbleBits(ns);
    assert s.onLink.value[i].Contains(p.addr) ==> s.onLink.value[i].Covers(p);
  }

  /** The reverse lookup of an IPv4 address that is on the LAN is answered locally. */
  lemma LanPtrStaysLocalV4(calls: seq<Call>, fold: string -> string, zones: set<string>, a: nat, b: nat, c: nat, d: nat)
    requires ReverseNames.ZoneSet(zones) && a < 256 && b < 256 && c < 256 && d < 256
    requires InLan(After(calls), V4(a, b, c, d))
    ensures ReverseNames.PrivatePtr(fold, zones, ReverseNames.PTR,
              ReverseNames.ReverseName(ReverseNames.InAddr, [a, b, c, d]))
  {
    EveryHistoryIpv4(calls, V4(a, b, c, d));
    HoldsV4(a, b, c, d);
    ReverseNames.ReverseFoldsToItself(fold, ReverseNames.InAddr, [a, b, c, d]);
    ReverseNames.PrivatePtrV4(fold, zones, ReverseNames.ReverseName(ReverseNames.InAddr, [a, b, c, d]), a, b, c, d);
    FixedV4IsPrivate(a, b, c, d);
  }

  lemma FixedV4IsPrivate(a: nat, b: nat, c: nat, d: nat)
    requires a < 256 && b < 256 && c < 256 && d < 256 && FixedV4(a, b)
    ensures ReverseNames.PrivateV4(ReverseNames.Number(a, b, c, d))
  {
    ReverseNames.RangesV4(a, b, c, d);
  }

  /** The same for the fixed IPv6 ranges. */
  lemma LanPtrStaysLocalV6(fold: string -> string, zones: set<string>, ns: seq<nat>)
    requires ReverseNames.ZoneSet(zones) && |ns| == 32 && Nibbles(ns) && Holds(LAN_RANGES, Addr(NibbleBits(ns)))
    ensures ReverseNames.PrivatePtr(fold, zones, ReverseNames.PTR, ReverseNames.ReverseName(ReverseNames.Ip6, ns))
  {
    FixedV6IsPrivate(Addr(NibbleBits(ns)));
    ReverseNames.ReverseFoldsToItself(fold, ReverseNames.Ip6, ns);
    ReverseNames.PrivatePtrV6(fold, zones, ReverseNames.ReverseName(ReverseNames.Ip6, ns), ns);
  }

  lemma FixedV6IsPrivate(ip: Addr)
    requires ip.Is6() && Holds(LAN_RANGES, ip)
    ensures ReverseNames.PrivateV6(ip)
  {
    if Prefix(LOOPBACK6, 128).Contains(ip) {
      assert ip.bits == ip.bits[..128] && LOOPBACK6.bits == LOOPBACK6.bits[..128];
    }
  }

  // ---- The object -----------------------------------------------------------------

  class LanACL {
    var onLink: Option<seq<Prefix>>
    var refreshed: Option<int>
    var notAdmitted: set<Prefix>

    ghost function Abs(): State
      reads this
    {
      State(onLink, refreshed, notAdmitted)
    }

    constructor (now: int, read: Read)
      ensures Abs() == Refreshed(NEW, now, read) && Inv(Abs())
    {
      RefreshKeepsInv(NEW, now, read);
      onLink, refreshed, notAdmitted := None, None, {};
      new;
      Refresh(now, read);
    }

    method Refresh(now: int, read: Read)
      modifies this
      ensures Abs() == Refreshed(old(Abs()), now, read)
      ensures Inv(old(Abs())) ==> Inv(Abs())
    {
      if Inv(Abs()) {
        RefreshKeepsInv(Abs(), now, read);
      }
      if refreshed.Some? && now - refreshed.value < REFRESH_INTERVAL {
        return;
      }
      refreshed := Some(now);
      if read.Failed? {
        return;
      }
      var out, refused := ReadPrefixes(read.addrs);
      notAdmitted := refused;
      onLink := Some(out);
    }

    method Contains(ip: Addr) returns (r: bool)
      ensures r <==> InLan(Abs(), ip)
    {
      r := Scan(LAN_RANGES, ip);
      if !r && onLink.Some? {
        r := Scan(onLink.value, ip);
      }
    }

    /** allows: an IPv4 source, mapped or not, depends on the fixed ranges alone. */
    method Allows(source: Addr, now: int, read: Read) returns (r: bool)
      requires Inv(Abs())
      modifies this
      ensures Inv(Abs())
      ensures r <==> InLan(Abs(), Unmap(source))
      ensures Abs() == if InLan(old(Abs()), Unmap(source)) then old(Abs()) else Refreshed(old(Abs()), now, read)
      ensures Unmap(source).Is4() ==> (r <==> Holds(LAN_RANGES, Unmap(source)))
    {
      var ip := Unmap(source);
      r := Contains(ip);
      if !r {
        Refresh(now, read);
        r := Contains(ip);
      }
      if ip.Is4() {
        Ipv4OnlyFixed(old(Abs()), ip);
        Ipv4OnlyFixed(Abs(), ip);
      }
    }

    method UnderGlobalV6(p: Prefix) returns (r: bool)
      ensures r <==> UnderGlobal(Abs(), p)
    {
      if onLink.None? {
        return false;
      }
      r := ScanCovers(onLink.value, l => OwnGlobal(l), p);
    }

    method OwnGlobalV6(p: Prefix, now: int, read: Read) returns (r: bool)
      modifies this
      ensures r <==> UnderGlobal(Abs(), p)
      ensures Abs() == if UnderGlobal(old(Abs()), p) then old(Abs()) else Refreshed(old(Abs()), now, read)
    {
      r := UnderGlobalV6(p);
      if !r {
        Refresh(now, read);
        r := UnderGlobalV6(p);
      }
    }

    method OwnPrefixPtr(qtype: nat, name: string, now: int, read: Read) returns (r: bool)
      modifies this
      ensures r <==> OwnPtr(Abs(), qtype, name)
      ensures
        var asks := qtype == ReverseNames.PTR && ReverseNames.Spelled(name).Some?;
        Abs() == if !asks || OwnPtr(old(Abs()), qtype, name) then old(Abs()) else Refreshed(old(Abs()), now, read)
    {
      if qtype != ReverseNames.PTR {
        return false;
      }
      var p := ReverseNames.Ip6Prefix(name);
      if p.None? {
        return false;
      }
      r := OwnGlobalV6(p.value, now, read);
    }

    /** lanUpstreams: the entries whose address the list allows, each asked in turn. */
    method LanUpstreams(list: seq<string>, ips: seq<Option<Addr>>, calls: seq<Call>) returns (out: seq<string>)
      requires Inv(Abs()) && |ips| == |list| == |calls|
      modifies this
      ensures Inv(Abs())
      ensures (Abs(), out) == AllowedOf(old(Abs()), list, ips, calls, |list|)
    {
      out := [];
      for i := 0 to |list|
        invariant Inv(Abs()) && (Abs(), out) == AllowedOf(old(Abs()), list, ips, calls, i)
      {
        if ips[i].Some? {
          var ok := Allows(ips[i].value, calls[i].now, calls[i].read);
          if ok {
            out := out + [list[i]];
          }
        }
      }
    }
  }

  // ---- The upstreams on the LAN -----------------------------------------------------------

  /** The list after asking for one address. */
  ghost function Asked(s: State, ip: Addr, call: Call): State {
    if InLan(s, Unmap(ip)) then s else Refreshed(s, call.now, call.read)
  }

  /** The list and the upstreams found after the first n entries. */
  ghost function AllowedOf(s: State, list: seq<string>, ips: seq<Option<Addr>>, calls: seq<Call>, n: nat)
    : (State, seq<string>)
    requires n <= |list| == |ips| == |calls|
  {
    if n == 0 then (s, [])
    else
      var (t, out) := AllowedOf(s, list, ips, calls, n - 1);
      if ips[n - 1] == None then (t, out)
      else
        var u := Asked(t, ips[n - 1].value, calls[n - 1]);
        (u, if InLan(u, Unmap(ips[n - 1].value)) then out + [list[n - 1]] else out)
  }

  /** The address of entry i is on the LAN when it is asked for. */
  ghost predicate OnLanAt(s: State, list: seq<string>, ips: seq<Option<Addr>>, calls: seq<Call>, i: nat)
    requires i < |list| == |ips| == |calls|
  {
    ips[i].Some? && InLan(Asked(AllowedOf(s, list, ips, calls, i).0, ips[i].value, calls[i]), Unmap(ips[i].value))
  }

  /** One of the first n entries is for the upstream and has its address on the LAN. */
  ghost predicate FoundBy(s: State, list: seq<string>, ips: seq<Option<Addr>>, calls: seq<Call>, n: nat, u: string)
    requires n <= |list| == |ips| == |calls|
  {
    exists i :: 0 <= i < n && list[i] == u && OnLanAt(s, list, ips, calls, i)
  }

  /** Some entry for the upstream has its address on the LAN. */
  ghost predicate Found(s: State, list: seq<string>, ips: seq<Option<Addr>>, calls: seq<Call>, u: string)
    requires |list| == |ips| == |calls|
  {
    FoundBy(s, list, ips, calls, |list|, u)
  }

  lemma {:induction false} AllowedKeepsInv(s: State, list: seq<string>, ips: seq<Option<Addr>>, calls: seq<Call>,
                                           n: nat)
    requires Inv(s) && n <= |list| == |ips| == |calls|
    ensures Inv(AllowedOf(s, list, ips, calls, n).0)
  {
    if n > 0 {
      AllowedKeepsInv(s, list, ips, calls, n - 1);
      RefreshKeepsInv(AllowedOf(s, list, ips, calls, n - 1).0, calls[n - 1].now, calls[n - 1].read);
    }
  }

  /** The upstreams found are exactly those whose address is on the LAN when it is asked for. */
  lemma {:induction false} FoundAreOnLan(s: State, list: seq<string>, ips: seq<Option<Addr>>, calls: seq<Call>,
                                         n: nat, u: string)
    requires n <= |list| == |ips| == |calls|
    ensures u in AllowedOf(s, list, ips, calls, n).1 <==> FoundBy(s, list, ips, calls, n, u)
  {
    if n > 0 {
      FoundAreOnLan(s, list, ips, calls, n - 1, u);
      OneMore(s, list, ips, calls, n);
      FoundSnoc(s, list, ips, calls, n, u);
    }
  }

  /** The n-th entry is added when its address is on the LAN. */
  lemma OneMore(s: State, list: seq<string>, ips: seq<Option<Addr>>, calls: seq<Call>, n: nat)
    requires 0 < n <= |list| == |ips| == |calls|
    ensures AllowedOf(s, list, ips, calls, n).1 ==
            AllowedOf(s, list, ips, calls, n - 1).1
            + if OnLanAt(s, list, ips, calls, n - 1) then [list[n - 1]] else []
  {
  }

  lemma FoundSnoc(s: State, list: seq<string>, ips: seq<Option<Addr>>, calls: seq<Call>, n: nat, u: string)
    requires 0 < n <= |list| == |ips| == |calls|
    ensures FoundBy(s, list, ips, calls, n, u) <==>
            FoundBy(s, list, ips, calls, n - 1, u) || (list[n - 1] == u && OnLanAt(s, list, ips, calls, n - 1))
  {
  }

  /** What LanUpstreams returns for a list of upstreams, as a set. */
  ghost function LanSet(s: State, list: seq<string>, ips: seq<Option<Addr>>, calls: seq<Call>): set<string>
    requires |list| == |ips| == |calls|
  {
    set u | u in AllowedOf(s, list, ips, calls, |list|).1
  }

  lemma LanSetIsFound(s: State, list: seq<string>, ips: seq<Option<Addr>>, calls: seq<Call>, u: string)
    requires |list| == |ips| == |calls|
    ensures u in LanSet(s, list, ips, calls) <==> Found(s, list, ips, calls, u)
  {
    FoundAreOnLan(s, list, ips, calls, |list|, u);
  }

  /** For an IPv4 address that depends on the fixed ranges alone. */
  lemma FoundV4(s: State, list: seq<string>, ips: seq<Option<Addr>>, calls: seq<Call>, i: nat)
    requires Inv(s) && i < |list| == |ips| == |calls| && ips[i].Some? && Unmap(ips[i].value).Is4()
    ensures OnLanAt(s, list, ips, calls, i) <==> Holds(LAN_RANGES, Unmap(ips[i].value))
  {
    AllowedKeepsInv(s, list, ips, calls, i);
    var t := AllowedOf(s, list, ips, calls, i).0;
    RefreshKeepsInv(t, calls[i].now, calls[i].read);
    Ipv4OnlyFixed(Asked(t, ips[i].value, calls[i]), Unmap(ips[i].value));
  }
}
