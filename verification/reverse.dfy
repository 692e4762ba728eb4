/** internal/dnsserver/handler.go: reverse-lookup names, the private reverse zones, and the
    prefix that an ip6.arpa name stands for. */
module ReverseNames {
  import opened Text
  import opened Address
  import opened Wrappers
  import Loader

  const PTR: nat := 12

  // ---- The printer of section 3.5 of RFC 1035 and section 2.5 of RFC 3596 ------------

  datatype Family = InAddr | Ip6

  function Base(f: Family): string {
    match f
    case InAddr => "in-addr.arpa."
    case Ip6 => "ip6.arpa."
  }

  function HexDigit(v: nat): char
    requires v < 16
  {
    if v < 10 then ('0' as int + v) as char else ('a' as int + v - 10) as char
  }

  /** Octets for IPv4, nibbles for IPv6. */
  predicate Parts(f: Family, parts: seq<nat>) {
    if f == Ip6 then Nibbles(parts) else forall i :: 0 <= i < |parts| ==> parts[i] < 256
  }

  function Label(f: Family, v: nat): string
    requires f == Ip6 ==> v < 16
  {
    match f
    case InAddr => Decimal(v)
    case Ip6 => [HexDigit(v)]
  }

  /** The name of an address or of a prefix, given most significant part first: the labels come
      in reverse order. */
  function ReverseName(f: Family, parts: seq<nat>): string
    requires Parts(f, parts)
  {
    if parts == [] then Base(f)
    else
      var n := |parts| - 1;
      Label(f, parts[n]) + "." + ReverseName(f, parts[..n])
  }

  /** A label: not empty, dot-free, and never starting like a base. */
  lemma LabelIsPlain(f: Family, v: nat)
    requires f == Ip6 ==> v < 16
    ensures var l := Label(f, v); |l| > 0 && '.' !in l && l[0] != 'i'
  {
  }

  lemma LabelInjective(f: Family, v: nat, w: nat)
    requires (f == Ip6 ==> v < 16 && w < 16) && Label(f, v) == Label(f, w)
    ensures v == w
  {
    match f
    case InAddr => DecimalInjective(v, w);
    case Ip6 => assert Label(f, v)[0] == Label(f, w)[0];
  }

  /** A dot-free first label is determined by the text. */
  lemma FirstLabel(l: string, rest: string, m: string, tail: string)
    requires '.' !in l && '.' !in m && l + "." + rest == m + "." + tail
    ensures l == m && rest == tail
  {
    var s := l + "." + rest;
    assert s[|l|] == '.' && s[|m|] == '.';
    assert forall i :: 0 <= i < |l| ==> s[i] == l[i] && s[i] in l;
    assert forall i :: 0 <= i < |m| ==> s[i] == m[i] && s[i] in m;
    assert l == s[..|l|] && m == s[..|m|];
    assert rest == s[|l| + 1..] && tail == s[|m| + 1..];
  }

  lemma FirstChar(f: Family, parts: seq<nat>)
    requires Parts(f, parts)
    ensures |ReverseName(f, parts)| > 4 && (ReverseName(f, parts)[0] == 'i' <==> parts == [])
  {
    if parts != [] {
      LabelIsPlain(f, parts[|parts| - 1]);
      FirstChar(f, parts[..|parts| - 1]);
    }
  }

  lemma BasesDiffer(f: Family, g: Family)
    requires Base(f) == Base(g)
    ensures f == g
  {
    assert Base(f)[1] == Base(g)[1];
  }

  /** Equal names have equal first labels and equal parents. */
  lemma PeelBoth(f: Family, a: seq<nat>, g: Family, b: seq<nat>)
    requires a != [] && b != [] && Parts(f, a) && Parts(g, b) && ReverseName(f, a) == ReverseName(g, b)
    ensures Label(f, a[|a| - 1]) == Label(g, b[|b| - 1])
    ensures Parts(f, a[..|a| - 1]) && Parts(g, b[..|b| - 1])
    ensures ReverseName(f, a[..|a| - 1]) == ReverseName(g, b[..|b| - 1])
  {
    var m, n := |a| - 1, |b| - 1;
    LabelIsPlain(f, a[m]);
    LabelIsPlain(g, b[n]);
    FirstLabel(Label(f, a[m]), ReverseName(f, a[..m]), Label(g, b[n]), ReverseName(g, b[..n]));
  }

  /** Two reverse names are equal only for the same family and the same parts. */
  lemma {:induction false} ReverseInjective(f: Family, a: seq<nat>, g: Family, b: seq<nat>)
    requires Parts(f, a) && Parts(g, b) && ReverseName(f, a) == ReverseName(g, b)
    ensures f == g && a == b
    decreases |a|
  {
    FirstChar(f, a);
    FirstChar(g, b);
    if a == [] {
      BasesDiffer(f, g);
    } else {
      PeelBoth(f, a, g, b);
      ReverseInjective(f, a[..|a| - 1], g, b[..|b| - 1]);
      SameLast(f, a, b);
    }
  }

  lemma SameLast(f: Family, a: seq<nat>, b: seq<nat>)
    requires a != [] && b != [] && Parts(f, a) && Parts(f, b)
    requires a[..|a| - 1] == b[..|b| - 1] && Label(f, a[|a| - 1]) == Label(f, b[|b| - 1])
    ensures a == b
  {
    var m, n := |a| - 1, |b| - 1;
    LabelInjective(f, a[m], b[n]);
    assert a == a[..m] + [a[m]] && b == b[..n] + [b[n]];
  }

  // ---- The private reverse zones ---------------------------------------------------

  /** A zone, by the leading parts of its addresses. */
  datatype Zone = Zone(family: Family, parts: seq<nat>)

  /** The zones: section 4 of RFC 6303, and 100.64/10 of RFC 6598. */
  predicate PrivateZone(z: Zone) {
    var p := z.parts;
    match z.family
    case InAddr =>
      || (|p| == 1 && (p[0] == 0 || p[0] == 10 || p[0] == 127))
      || (|p| == 2 && ((p[0] == 169 && p[1] == 254) || (p[0] == 192 && p[1] == 168)))
      || (|p| == 2 && ((p[0] == 172 && 16 <= p[1] <= 31) || (p[0] == 100 && 64 <= p[1] <= 127)))
      || p == [192, 0, 2] || p == [198, 51, 100] || p == [203, 0, 113] || p == [255, 255, 255, 255]
    case Ip6 =>
      || (|p| == 32 && p[31] <= 1 && AllZero(p[..31]))
      || (|p| == 2 && p[0] == 15 && 12 <= p[1] <= 13)
      || (|p| == 3 && p[0] == 15 && p[1] == 14 && 8 <= p[2] <= 11)
      || p == [2, 0, 0, 1, 0, 13, 11, 8]
  }

  predicate AllZero(p: seq<nat>) {
    forall i :: 0 <= i < |p| ==> p[i] == 0
  }

  lemma ZonePartsOk(z: Zone)
    requires PrivateZone(z)
    ensures Parts(z.family, z.parts) && z.parts != []
  {
    if z.family == Ip6 && |z.parts| == 32 {
      assert forall i :: 0 <= i < 31 ==> z.parts[i] == z.parts[..31][i];
    }
  }

  /** The name of one of the zones. */
  ghost predicate ZoneName(s: string) {
    exists z: Zone :: PrivateZone(z) && Parts(z.family, z.parts) && s == ReverseName(z.family, z.parts)
  }

  /** privateReverseZones: every zone's name, and nothing else. */
  ghost predicate ZoneSet(zones: set<string>) {
    forall s :: s in zones <==> ZoneName(s)
  }

  /** The zones that the table spells out; the two ranges of second octets come on top. */
  const FIXED_ZONES: seq<Zone> := [
    Zone(InAddr, [0]), Zone(InAddr, [10]), Zone(InAddr, [127]), Zone(InAddr, [169, 254]), Zone(InAddr, [192, 168]),
    Zone(InAddr, [192, 0, 2]), Zone(InAddr, [198, 51, 100]), Zone(InAddr, [203, 0, 113]),
    Zone(InAddr, [255, 255, 255, 255]),
    Zone(Ip6, seq(32, _ => 0)), Zone(Ip6, seq(31, _ => 0) + [1]),
    Zone(Ip6, [15, 12]), Zone(Ip6, [15, 13]),
    Zone(Ip6, [15, 14, 8]), Zone(Ip6, [15, 14, 9]), Zone(Ip6, [15, 14, 10]), Zone(Ip6, [15, 14, 11]),
    Zone(Ip6, [2, 0, 0, 1, 0, 13, 11, 8])]

  predicate Second(z: Zone, octet: nat, lo: nat, hi: nat) {
    z.family == InAddr && |z.parts| == 2 && z.parts[0] == octet && lo <= z.parts[1] <= hi
  }

  lemma FixedArePrivate(i: nat)
    requires i < |FIXED_ZONES|
    ensures PrivateZone(FIXED_ZONES[i])
  {
  }

  /** The list and the two ranges of second octets are all of them. */
  lemma PrivateAreListed(z: Zone)
    requires PrivateZone(z) && !Second(z, 172, 16, 31) && !Second(z, 100, 64, 127)
    ensures z in FIXED_ZONES
  {
    var p := z.parts;
    var fixed := FIXED_ZONES;
    if |p| == 1 {
      assert p == [p[0]];
      assert z == fixed[0] || z == fixed[1] || z == fixed[2];
    } else if |p| == 2 {
      assert p == [p[0], p[1]];
      assert z == fixed[3] || z == fixed[4] || z == fixed[11] || z == fixed[12];
    } else if |p| == 3 {
      assert p == [p[0], p[1], p[2]];
      assert z == fixed[5] || z == fixed[6] || z == fixed[7]
             || z == fixed[13] || z == fixed[14] || z == fixed[15] || z == fixed[16];
    } else if |p| == 4 {
      assert z == fixed[8];
    } else if |p| == 8 {
      assert z == fixed[17];
    } else {
      assert forall i :: 0 <= i < 31 ==> p[i] == p[..31][i];
      assert p[31] == 0 ==> p == seq(32, _ => 0);
      assert p[31] == 1 ==> p == seq(31, _ => 0) + [1];
      assert z == fixed[9] || z == fixed[10];
    }
  }

  // ---- isPrivatePTR ---------------------------------------------------------------

  /** The lowercase name or some parent of it is a private zone. */
  ghost predicate PrivatePtr(fold: string -> string, zones: set<string>, qtype: nat, name: string) {
    qtype == PTR && SuffixIn(ToLower(fold, name), zones)
  }

  method IsPrivatePtr(fold: string -> string, zones: set<string>, qtype: nat, domain: string) returns (r: bool)
    requires "" !in zones
    ensures r <==> PrivatePtr(fold, zones, qtype, domain)
  {
    if qtype != PTR {
      return false;
    }
    var name := ToLower(fold, domain);
    var off := 0;
    while true
      invariant Start(name, off)
      invariant forall q :: Start(name, q) && q < off ==> name[q..] !in zones
      decreases |name| - off
    {
      if name[off..] in zones {
        return true;
      }
      var d := DotFrom(name, off);
      // The walk stops before the empty name after the root dot, which is no zone.
      if d < 0 || d == |name| - 1 {
        assert name[|name|..] == "";
        return false;
      }
      off := d + 1;
    }
  }

  lemma ZoneNotEmpty(zones: set<string>)
    requires ZoneSet(zones)
    ensures "" !in zones
  {
    if ZoneName("") {
      var z: Zone :| PrivateZone(z) && Parts(z.family, z.parts) && "" == ReverseName(z.family, z.parts);
      FirstChar(z.family, z.parts);
    }
  }

  lemma ArpaNotUnderZone(zones: set<string>)
    requires ZoneSet(zones)
    ensures !SuffixIn("arpa.", zones)
  {
    assert "arpa." == "arpa" + "." + "";
    SuffixInStep("arpa", "", zones);
    ZoneNotEmpty(zones);
    NotZone("arpa.");
  }

  /** No zone is a parent of a base name. */
  lemma BaseNotUnderZone(zones: set<string>, f: Family)
    requires ZoneSet(zones)
    ensures !SuffixIn(Base(f), zones)
  {
    ArpaNotUnderZone(zones);
    NotZone(Base(f));
    match f {
      case InAddr =>
        assert Base(f) == "in-addr" + "." + "arpa.";
        SuffixInStep("in-addr", "arpa.", zones);
      case Ip6 =>
        assert Base(f) == "ip6" + "." + "arpa.";
        SuffixInStep("ip6", "arpa.", zones);
    }
  }

  lemma NotZone(s: string)
    requires |s| > 1 && (s[0] == 'i' || (s[0] == 'a' && s[1] == 'r'))
    ensures !ZoneName(s)
  {
    if ZoneName(s) {
      var z: Zone :| PrivateZone(z) && Parts(z.family, z.parts) && s == ReverseName(z.family, z.parts);
      ZonePartsOk(z);
      ZoneShape(z.family, z.parts);
    }
  }

  /** A zone's name starts with a digit, or with one nibble and a dot. */
  lemma ZoneShape(f: Family, parts: seq<nat>)
    requires Parts(f, parts) && parts != []
    ensures var s := ReverseName(f, parts); |s| > 5 && s[0] != 'i' && (s[0] == 'a' ==> s[1] == '.')
  {
    FirstChar(f, parts);
    FirstChar(f, parts[..|parts| - 1]);
  }

  /** A zone, if any, whose leading parts the address or prefix has. */
  ghost predicate InZone(f: Family, parts: seq<nat>) {
    exists m :: 0 <= m <= |parts| && PrivateZone(Zone(f, parts[..m]))
  }

  /** A reverse name is under a private zone exactly when its address is in that zone's range. */
  lemma {:induction false} UnderZoneMeans(zones: set<string>, f: Family, parts: seq<nat>)
    requires Parts(f, parts) && ZoneSet(zones)
    ensures SuffixIn(ReverseName(f, parts), zones) <==> InZone(f, parts)
  {
    if parts == [] {
      BaseNotUnderZone(zones, f);
    } else {
      var n := |parts| - 1;
      UnderZoneMeans(zones, f, parts[..n]);
      LabelIsPlain(f, parts[n]);
      SuffixInStep(Label(f, parts[n]), ReverseName(f, parts[..n]), zones);
      ZoneNameMeans(f, parts);
      InZoneStep(f, parts);
    }
  }

  lemma ZoneNameMeans(f: Family, parts: seq<nat>)
    requires Parts(f, parts)
    ensures ZoneName(ReverseName(f, parts)) <==> PrivateZone(Zone(f, parts))
  {
    if ZoneName(ReverseName(f, parts)) {
      var z: Zone :| PrivateZone(z) && Parts(z.family, z.parts)
          && ReverseName(f, parts) == ReverseName(z.family, z.parts);
      ReverseInjective(f, parts, z.family, z.parts);
    }
    if PrivateZone(Zone(f, parts)) {
      var z := Zone(f, parts);
      assert PrivateZone(z) && Parts(z.family, z.parts) && ReverseName(f, parts) == ReverseName(z.family, z.parts);
    }
  }

  lemma InZoneStep(f: Family, parts: seq<nat>)
    requires parts != []
    ensures InZone(f, parts) <==> PrivateZone(Zone(f, parts)) || InZone(f, parts[..|parts| - 1])
  {
    var n := |parts| - 1;
    assert parts[..n + 1] == parts;
    forall m | 0 <= m <= n ensures parts[..n][..m] == parts[..m] {
    }
    if InZone(f, parts) && !PrivateZone(Zone(f, parts)) {
      var m :| 0 <= m <= |parts| && PrivateZone(Zone(f, parts[..m]));
      assert PrivateZone(Zone(f, parts[..n][..m]));
    }
    if InZone(f, parts[..n]) {
      var m :| 0 <= m <= n && PrivateZone(Zone(f, parts[..n][..m]));
      assert PrivateZone(Zone(f, parts[..m]));
    }
  }

  /** The listed IPv4 ranges, as 32-bit numbers. */
  predicate PrivateV4(v: nat) {
    || v < 0x0100_0000 || 0x0A00_0000 <= v < 0x0B00_0000 || 0x7F00_0000 <= v < 0x8000_0000
    || 0x6440_0000 <= v < 0x6480_0000 || 0xA9FE_0000 <= v < 0xA9FF_0000
    || 0xAC10_0000 <= v < 0xAC20_0000 || 0xC0A8_0000 <= v < 0xC0A9_0000
    || 0xC000_0200 <= v < 0xC000_0300 || 0xC633_6400 <= v < 0xC633_6500 || 0xCB00_7100 <= v < 0xCB00_7200
    || v == 0xFFFF_FFFF
  }

  function Number(a: nat, b: nat, c: nat, d: nat): nat {
    0x100_0000 * a + 0x1_0000 * b + 0x100 * c + d
  }

  lemma InZoneV4(a: nat, b: nat, c: nat, d: nat)
    requires a < 256 && b < 256 && c < 256 && d < 256
    ensures InZone(InAddr, [a, b, c, d]) <==> PrivateV4(Number(a, b, c, d))
  {
    var p := [a, b, c, d];
    assert p[..0] == [] && p[..1] == [a] && p[..2] == [a, b] && p[..3] == [a, b, c] && p[..4] == p;
    assert InZone(InAddr, p) <==>
           PrivateZone(Zone(InAddr, p[..0])) || PrivateZone(Zone(InAddr, p[..1])) || PrivateZone(Zone(InAddr, p[..2]))
           || PrivateZone(Zone(InAddr, p[..3])) || PrivateZone(Zone(InAddr, p[..4]));
    RangesV4(a, b, c, d);
  }

  lemma RangesV4(a: nat, b: nat, c: nat, d: nat)
    requires a < 256 && b < 256 && c < 256 && d < 256
    ensures PrivateV4(Number(a, b, c, d)) <==>
            || a == 0 || a == 10 || a == 127 || (a == 169 && b == 254) || (a == 192 && b == 168)
            || (a == 172 && 16 <= b <= 31) || (a == 100 && 64 <= b <= 127)
            || (a == 192 && b == 0 && c == 2) || (a == 198 && b == 51 && c == 100) || (a == 203 && b == 0 && c == 113)
            || (a == 255 && b == 255 && c == 255 && d == 255)
  {
  }

  /** A PTR query, in any case, for an IPv4 address is private exactly for the listed ranges. */
  lemma PrivatePtrV4(fold: string -> string, zones: set<string>, name: string, a: nat, b: nat, c: nat, d: nat)
    requires ZoneSet(zones) && a < 256 && b < 256 && c < 256 && d < 256
    requires ToLower(fold, name) == ReverseName(InAddr, [a, b, c, d])
    ensures PrivatePtr(fold, zones, PTR, name) <==> PrivateV4(Number(a, b, c, d))
  {
    UnderZoneMeans(zones, InAddr, [a, b, c, d]);
    InZoneV4(a, b, c, d);
  }

  /** A reverse name is lowercase as it is printed. */
  lemma {:induction false} ReverseIsLower(f: Family, parts: seq<nat>)
    requires Parts(f, parts)
    ensures forall i :: 0 <= i < |ReverseName(f, parts)| ==>
              ReverseName(f, parts)[i] as int < 0x80 && !IsUpper(ReverseName(f, parts)[i])
  {
    if parts != [] {
      ReverseIsLower(f, parts[..|parts| - 1]);
    }
  }

  lemma ReverseFoldsToItself(fold: string -> string, f: Family, parts: seq<nat>)
    requires Parts(f, parts)
    ensures ToLower(fold, ReverseName(f, parts)) == ReverseName(f, parts)
  {
    var s := ReverseName(f, parts);
    ReverseIsLower(f, parts);
    LowerAsciiAt(s);
    assert LowerAscii(s) == s;
  }

  // ---- IPv6 ------------------------------------------------------------------------

  const DOCUMENTATION6: Prefix := Prefix(V6Leading([2, 0, 0, 1, 0, 13, 11, 8]), 32)

  /** ::, ::1, fc00::/7, fe80::/10 and 2001:db8::/32. */
  predicate PrivateV6(a: Addr) {
    || a.bits == Zeros(128) || a == LOOPBACK6
    || UNIQUE_LOCAL6.Contains(a) || LINK_LOCAL6.Contains(a) || DOCUMENTATION6.Contains(a)
  }

  /** The four cases of PrivateZone for a full address. */
  predicate V6Cases(ns: seq<nat>)
    requires |ns| == 32
  {
    || (ns[31] <= 1 && AllZero(ns[..31])) || (ns[0] == 15 && 12 <= ns[1] <= 13)
    || (ns[0] == 15 && ns[1] == 14 && 8 <= ns[2] <= 11) || ns[..8] == [2, 0, 0, 1, 0, 13, 11, 8]
  }

  lemma InZoneV6(ns: seq<nat>)
    requires |ns| == 32
    ensures InZone(Ip6, ns) <==> V6Cases(ns)
  {
    assert ns[..32] == ns;
    if InZone(Ip6, ns) {
      var m :| 0 <= m <= 32 && PrivateZone(Zone(Ip6, ns[..m]));
    }
    assert PrivateZone(Zone(Ip6, ns[..2])) <==> ns[0] == 15 && 12 <= ns[1] <= 13;
    assert PrivateZone(Zone(Ip6, ns[..3])) <==> ns[0] == 15 && ns[1] == 14 && 8 <= ns[2] <= 11;
    assert PrivateZone(Zone(Ip6, ns[..8])) <==> ns[..8] == [2, 0, 0, 1, 0, 13, 11, 8];
    assert PrivateZone(Zone(Ip6, ns[..32])) <==> ns[31] <= 1 && AllZero(ns[..31]);
  }

  lemma ZerosAndOnes()
    ensures NibbleBits(seq(31, _ => 0) + [0]) == Zeros(128)
    ensures NibbleBits(seq(31, _ => 0) + [1]) == Zeros(127) + [true]
  {
    var zeros := seq(31, _ => 0);
    NibbleBitsZero(zeros);
    assert (zeros + [0])[..31] == zeros && (zeros + [1])[..31] == zeros;
  }

  lemma UnspecifiedOrLoopback(ns: seq<nat>)
    requires |ns| == 32 && Parts(Ip6, ns)
    ensures NibbleBits(ns) == Zeros(128) || Addr(NibbleBits(ns)) == LOOPBACK6 <==> ns[31] <= 1 && AllZero(ns[..31])
  {
    var zeros := seq(31, _ => 0);
    ZerosAndOnes();
    if NibbleBits(ns) == NibbleBits(zeros + [0]) {
      NibbleBitsInjective(ns, zeros + [0]);
    }
    if NibbleBits(ns) == NibbleBits(zeros + [1]) {
      NibbleBitsInjective(ns, zeros + [1]);
    }
    if ns[31] <= 1 && AllZero(ns[..31]) {
      assert ns == ns[..31] + [ns[31]];
      assert ns[..31] == zeros;
    }
  }

  lemma TopBits(v: nat)
    requires v < 16
    ensures Nibble(v)[..3] == Nibble(12)[..3] <==> 12 <= v <= 13
    ensures Nibble(v)[..2] == Nibble(8)[..2] <==> 8 <= v <= 11
  {
    var x, y, z := Nibble(v), Nibble(12), Nibble(8);
    assert x[..3] == [x[0], x[1], x[2]] && y[..3] == [y[0], y[1], y[2]];
    assert x[..2] == [x[0], x[1]] && z[..2] == [z[0], z[1]];
  }

  lemma UniqueLocal(ns: seq<nat>)
    requires |ns| == 32 && Parts(Ip6, ns)
    ensures UNIQUE_LOCAL6.Contains(Addr(NibbleBits(ns))) <==> ns[0] == 15 && 12 <= ns[1] <= 13
  {
    LeadingContains([15, 12], 1, 3, ns);
    TopBits(ns[1]);
    assert ns[..1] == [ns[0]] && [15, 12][..1] == [15];
  }

  lemma LinkLocal(ns: seq<nat>)
    requires |ns| == 32 && Parts(Ip6, ns)
    ensures LINK_LOCAL6.Contains(Addr(NibbleBits(ns))) <==> ns[0] == 15 && ns[1] == 14 && 8 <= ns[2] <= 11
  {
    LeadingContains([15, 14, 8], 2, 2, ns);
    TopBits(ns[2]);
    assert ns[..2] == [ns[0], ns[1]] && [15, 14, 8][..2] == [15, 14];
  }

  lemma Documentation(ns: seq<nat>)
    requires |ns| == 32 && Parts(Ip6, ns)
    ensures DOCUMENTATION6.Contains(Addr(NibbleBits(ns))) <==> ns[..8] == [2, 0, 0, 1, 0, 13, 11, 8]
  {
    var doc := [2, 0, 0, 1, 0, 13, 11, 8];
    LeadingContains(doc, 8, 0, ns);
    assert doc[..8] == doc;
  }

  /** A PTR query for an IPv6 address is private exactly for the listed ranges. */
  lemma PrivatePtrV6(fold: string -> string, zones: set<string>, name: string, ns: seq<nat>)
    requires ZoneSet(zones) && |ns| == 32 && Parts(Ip6, ns) && ToLower(fold, name) == ReverseName(Ip6, ns)
    ensures PrivatePtr(fold, zones, PTR, name) <==> PrivateV6(Addr(NibbleBits(ns)))
  {
    UnderZoneMeans(zones, Ip6, ns);
    InZoneV6(ns);
    UnspecifiedOrLoopback(ns);
    UniqueLocal(ns);
    LinkLocal(ns);
    Documentation(ns);
  }

  // ---- ip6Prefix -------------------------------------------------------------------

  const IP6_ZONE := ".ip6.arpa."

  /** strconv.ParseUint of one character in base 16: either case. */
  function HexValue(c: char): Option<nat> {
    if '0' <= c <= '9' then Some(c as int - '0' as int)
    else if 'a' <= c <= 'f' then Some(c as int - 'a' as int + 10)
    else if 'A' <= c <= 'F' then Some(c as int - 'A' as int + 10)
    else None
  }

  /** A label that is one nibble. */
  predicate IsNibble(l: string) {
    |l| == 1 && HexValue(l[0]).Some?
  }

  function NibbleOf(l: string): (v: nat)
    requires IsNibble(l)
    ensures v < 16
  {
    HexValue(l[0]).value
  }

  /** The nibbles of a list of labels, most significant first: the last label comes first. */
  function NibblesOf(labels: seq<string>): (r: Option<seq<nat>>)
    ensures r.Some? ==> |r.value| == |labels| && Nibbles(r.value)
  {
    if labels == [] then Some([])
    else
      var rest := NibblesOf(labels[1..]);
      if rest.Some? && IsNibble(labels[0]) then Some(rest.value + [NibbleOf(labels[0])]) else None
  }

  lemma {:induction false} NibblesOfMeans(labels: seq<string>)
    ensures NibblesOf(labels).Some? <==> forall i :: 0 <= i < |labels| ==> IsNibble(labels[i])
    ensures NibblesOf(labels).Some? ==>
              forall k :: 0 <= k < |labels| ==> NibblesOf(labels).value[k] == NibbleOf(labels[|labels| - 1 - k])
  {
    if labels != [] {
      NibblesOfMeans(labels[1..]);
      assert forall i :: 0 < i < |labels| ==> labels[i] == labels[1..][i - 1];
    }
  }

  /** The nibbles that a reverse name under ip6.arpa spells. */
  function Spelled(name: string): (r: Option<seq<nat>>)
    ensures r.Some? ==> |r.value| <= 32 && Nibbles(r.value)
  {
    if !HasSuffix(name, IP6_ZONE) then None
    else
      var labels := Loader.Split(name[..|name| - |IP6_ZONE|]);
      if |labels| > 32 then None else NibblesOf(labels)
  }

  function PrefixOf(ns: seq<nat>): Prefix
    requires |ns| <= 32
  {
    Prefix(V6Leading(ns), 4 * |ns|)
  }

  /** The prefix that some nibbles spell holds exactly the addresses that begin with them. */
  lemma PrefixOfMeans(ns: seq<nat>, full: seq<nat>)
    requires |ns| <= 32 && |full| == 32 && Nibbles(ns) && Nibbles(full)
    ensures PrefixOf(ns).Contains(Addr(NibbleBits(full))) <==> ns <= full
  {
    LeadingContains(ns, |ns|, 0, full);
    assert ns[..|ns|] == ns;
  }

  /** Bitwise or of two nibbles, and of two bytes. */
  function Or4(x: nat, y: nat): nat {
    (if x / 8 % 2 == 1 || y / 8 % 2 == 1 then 8 else 0) + (if x / 4 % 2 == 1 || y / 4 % 2 == 1 then 4 else 0)
    + (if x / 2 % 2 == 1 || y / 2 % 2 == 1 then 2 else 0) + (if x % 2 == 1 || y % 2 == 1 then 1 else 0)
  }

  /** A byte, as its two hex digits. */
  datatype Byte = Byte(hi: nat, lo: nat)

  function Or8(x: Byte, y: Byte): Byte {
    Byte(Or4(x.hi, y.hi), Or4(x.lo, y.lo))
  }

  function ByteBits(bs: seq<Byte>): (r: Bits)
    ensures |r| == 8 * |bs|
  {
    if bs == [] then [] else ByteBits(bs[..|bs| - 1]) + (Nibble(bs[|bs| - 1].hi) + Nibble(bs[|bs| - 1].lo))
  }

  lemma OrZero(v: nat)
    requires v < 16
    ensures Or4(0, v) == v && Or4(v, 0) == v
  {
  }

  method Ip6Prefix(name: string) returns (r: Option<Prefix>)
    ensures r == match Spelled(name) case None => None case Some(ns) => Some(PrefixOf(ns))
  {
    if !HasSuffix(name, IP6_ZONE) {
      return None;
    }
    var labels := Loader.Split(name[..|name| - |IP6_ZONE|]);
    if |labels| > 32 {
      return None;
    }
    NibblesOfMeans(labels);
    var b := ReadNibbles(labels);
    if b == None {
      return None;
    }
    ReadIsLeading(b.value, labels);
    r := Some(Prefix(Addr(ByteBits(b.value)), |labels| * 4));
  }

  /** The loop of ip6Prefix: each nibble goes into its half of a byte. */
  method ReadNibbles(labels: seq<string>) returns (r: Option<seq<Byte>>)
    requires |labels| <= 32
    ensures r.Some? <==> forall k :: 0 <= k < |labels| ==> IsNibble(labels[k])
    ensures r.Some? ==> |r.value| == 16 && forall j :: 0 <= j < 16 ==> r.value[j] == ByteAt(labels, |labels|, j)
  {
    var b := new Byte[16](_ => Byte(0, 0));
    for i := 0 to |labels|
      invariant forall k :: 0 <= k < i ==> IsNibble(labels[k])
      invariant forall j :: 0 <= j < 16 ==> b[j] == ByteAt(labels, i, j)
    {
      if !IsNibble(labels[i]) {
        return None;
      }
      var v := NibbleOf(labels[i]);
      var n := |labels| - 1 - i;
      forall j | 0 <= j < 16
        ensures ByteAt(labels, i + 1, j) ==
                if j == n / 2 then Or8(b[j], if n % 2 == 0 then Byte(v, 0) else Byte(0, v)) else b[j]
      {
        ByteStep(labels, i, j);
      }
      if n % 2 == 0 {
        b[n / 2] := Or8(b[n / 2], Byte(v, 0));
      } else {
        b[n / 2] := Or8(b[n / 2], Byte(0, v));
      }
    }
    r := Some(b[..]);
  }

  /** Nibble k of the address after the first i labels, and byte j. */
  function PadAt(labels: seq<string>, i: nat, k: nat): (v: nat)
    requires i <= |labels| && forall j :: 0 <= j < i ==> IsNibble(labels[j])
    ensures v < 16
  {
    if |labels| - i <= k < |labels| then NibbleOf(labels[|labels| - 1 - k]) else 0
  }

  function ByteAt(labels: seq<string>, i: nat, j: nat): Byte
    requires i <= |labels| && forall j :: 0 <= j < i ==> IsNibble(labels[j])
  {
    Byte(PadAt(labels, i, 2 * j), PadAt(labels, i, 2 * j + 1))
  }

  lemma PadStep(labels: seq<string>, i: nat, k: nat)
    requires i < |labels| && forall j :: 0 <= j <= i ==> IsNibble(labels[j])
    ensures
      var n := |labels| - 1 - i;
      && PadAt(labels, i + 1, k) == (if k == n then NibbleOf(labels[i]) else PadAt(labels, i, k))
      && (k <= n ==> PadAt(labels, i, k) == 0)
  {
  }

  lemma ByteStep(labels: seq<string>, i: nat, j: nat)
    requires i < |labels| && forall j :: 0 <= j <= i ==> IsNibble(labels[j])
    ensures
      var n := |labels| - 1 - i;
      var v := NibbleOf(labels[i]);
      ByteAt(labels, i + 1, j)
      == if j == n / 2 then Or8(ByteAt(labels, i, j), if n % 2 == 0 then Byte(v, 0) else Byte(0, v))
          else ByteAt(labels, i, j)
  {
    var n := |labels| - 1 - i;
    PadStep(labels, i, 2 * j);
    PadStep(labels, i, 2 * j + 1);
    OrZero(NibbleOf(labels[i]));
    OrZero(PadAt(labels, i, 2 * j));
    OrZero(PadAt(labels, i, 2 * j + 1));
  }

  lemma ReadIsLeading(bs: seq<Byte>, labels: seq<string>)
    requires |labels| <= 32 && NibblesOf(labels).Some?
    requires forall k :: 0 <= k < |labels| ==> IsNibble(labels[k])
    requires |bs| == 16 && forall j :: 0 <= j < 16 ==> bs[j] == ByteAt(labels, |labels|, j)
    ensures ByteBits(bs) == V6Leading(NibblesOf(labels).value).bits
  {
    NibblesOfMeans(labels);
    var ns := NibblesOf(labels).value;
    var pad := ns + seq(32 - |ns|, _ => 0);
    forall j | 0 <= j < 16 ensures bs[j] == Byte(pad[2 * j], pad[2 * j + 1]) {
    }
    PackedLead(bs, pad, ns);
  }

  lemma PackedLead(bs: seq<Byte>, pad: seq<nat>, ns: seq<nat>)
    requires |bs| == 16 && |pad| == 32 && |ns| <= 32 && pad[..|ns|] == ns
    requires forall k :: |ns| <= k < 32 ==> pad[k] == 0
    requires forall j :: 0 <= j < 16 ==> bs[j] == Byte(pad[2 * j], pad[2 * j + 1])
    ensures ByteBits(bs) == V6Leading(ns).bits
  {
    PackedBits(bs, pad, 16);
    assert bs[..16] == bs && pad[..32] == pad;
    NibbleBitsTail(pad, |ns|);
  }

  /** Bytes that hold the nibbles in pairs have the same bits. */
  lemma {:induction false} PackedBits(bs: seq<Byte>, pad: seq<nat>, m: nat)
    requires m <= |bs| && |pad| == 2 * |bs|
    requires forall j :: 0 <= j < |bs| ==> bs[j] == Byte(pad[2 * j], pad[2 * j + 1])
    ensures ByteBits(bs[..m]) == NibbleBits(pad[..2 * m])
  {
    if m > 0 {
      PackedBits(bs, pad, m - 1);
      assert bs[..m][..m - 1] == bs[..m - 1];
      LastTwo(pad, 2 * (m - 1));
    }
  }

  lemma LastTwo(pad: seq<nat>, n: nat)
    requires n + 2 <= |pad|
    ensures NibbleBits(pad[..n + 2]) == NibbleBits(pad[..n]) + (Nibble(pad[n]) + Nibble(pad[n + 1]))
  {
    assert pad[..n + 2][..n + 1] == pad[..n + 1] && pad[..n + 1][..n] == pad[..n];
    assert NibbleBits(pad[..n + 1]) == NibbleBits(pad[..n]) + Nibble(pad[n]);
  }

  /** Trailing zero nibbles are trailing zero bits. */
  lemma {:induction false} NibbleBitsTail(pad: seq<nat>, n: nat)
    requires n <= |pad| && forall k :: n <= k < |pad| ==> pad[k] == 0
    ensures NibbleBits(pad) == NibbleBits(pad[..n]) + Zeros(4 * (|pad| - n))
  {
    var m := |pad| - 1;
    if n <= m {
      NibbleBitsTail(pad[..m], n);
      assert pad[..m][..n] == pad[..n];
      FourMoreZeros(4 * (m - n));
      assert NibbleBits(pad) == NibbleBits(pad[..n]) + (Zeros(4 * (m - n)) + Nibble(0));
    } else {
      assert pad[..n] == pad;
    }
  }

  lemma FourMoreZeros(n: nat)
    ensures Zeros(n) + Nibble(0) == Zeros(n + 4)
  {
  }

  // ---- Printer and reader are inverse ------------------------------------------------

  /** The nibbles as printed, without the zone. */
  function Printed(ns: seq<nat>): (s: string)
    requires Nibbles(ns) && ns != []
    ensures |s| == 2 * |ns| - 1 && s[0] == HexDigit(ns[|ns| - 1])
  {
    var n := |ns| - 1;
    if n == 0 then [HexDigit(ns[0])] else [HexDigit(ns[n])] + "." + Printed(ns[..n])
  }

  lemma {:induction false} PrintedInZone(ns: seq<nat>)
    requires Nibbles(ns) && ns != []
    ensures ReverseName(Ip6, ns) == Printed(ns) + IP6_ZONE
  {
    var n := |ns| - 1;
    if n == 0 {
      assert "." + Base(Ip6) == IP6_ZONE;
      assert Label(Ip6, ns[0]) + "." + Base(Ip6) == Label(Ip6, ns[0]) + ("." + Base(Ip6));
    } else {
      PrintedInZone(ns[..n]);
      assert [HexDigit(ns[n])] + "." + (Printed(ns[..n]) + IP6_ZONE)
             == [HexDigit(ns[n])] + "." + Printed(ns[..n]) + IP6_ZONE;
    }
  }

  /** The label that starts at p, when one character and then a dot or the end follow. */
  lemma OneCharLabel(s: string, p: nat)
    requires p < |s| && s[p] != '.' && (p + 1 < |s| ==> s[p + 1] == '.')
    ensures Loader.SplitFrom(s, p)
            == if p + 1 == |s| then [[s[p]]] else [[s[p]]] + Loader.SplitFrom(s, p + 2)
  {
    if p + 1 < |s| {
      assert DotFrom(s, p) == DotFrom(s, p + 1) == p + 1;
      assert s[p..p + 1] == [s[p]];
    } else {
      assert DotFrom(s, p) == DotFrom(s, p + 1) == -1;
      assert s[p..] == [s[p]];
    }
  }

  lemma NibblesOfCons(c: char, labels: seq<string>)
    requires HexValue(c).Some? && NibblesOf(labels).Some?
    ensures NibblesOf([[c]] + labels) == Some(NibblesOf(labels).value + [HexValue(c).value])
  {
    assert ([[c]] + labels)[1..] == labels;
  }

  lemma HexInverse(v: nat)
    requires v < 16
    ensures HexValue(HexDigit(v)) == Some(v) && HexDigit(v) != '.'
  {
  }

  /** The two characters in front of the rest. */
  lemma PrintedTail(s: string, p: nat, ns: seq<nat>)
    requires p <= |s| && Nibbles(ns) && |ns| > 1 && s[p..] == Printed(ns)
    ensures p + 2 < |s| && s[p] == HexDigit(ns[|ns| - 1]) && s[p + 1] == '.' && s[p + 2..] == Printed(ns[..|ns| - 1])
  {
    var t := s[p..];
    assert t[1] == '.';
    assert t[2..] == Printed(ns[..|ns| - 1]);
    assert t[2..] == s[p + 2..];
  }

  lemma ReadLast(s: string, p: nat, v: nat)
    requires v < 16 && p + 1 == |s| && s[p] == HexDigit(v)
    ensures NibblesOf(Loader.SplitFrom(s, p)) == Some([v])
  {
    HexInverse(v);
    OneCharLabel(s, p);
    assert NibblesOf([]) == Some([]) && [] + [v] == [v];
    NibblesOfCons(s[p], []);
    assert [[s[p]]] + [] == [[s[p]]];
  }

  lemma ReadOne(s: string, p: nat, v: nat, ns: seq<nat>)
    requires v < 16 && p + 2 <= |s| && s[p] == HexDigit(v) && s[p + 1] == '.'
    requires NibblesOf(Loader.SplitFrom(s, p + 2)) == Some(ns)
    ensures NibblesOf(Loader.SplitFrom(s, p)) == Some(ns + [v])
  {
    HexInverse(v);
    OneCharLabel(s, p);
    NibblesOfCons(s[p], Loader.SplitFrom(s, p + 2));
  }

  /** Reading the printed nibbles, from offset p on. */
  lemma {:induction false} ReadPrinted(s: string, p: nat, ns: seq<nat>)
    requires p <= |s| && Nibbles(ns) && ns != [] && s[p..] == Printed(ns)
    ensures NibblesOf(Loader.SplitFrom(s, p)) == Some(ns)
    decreases |ns|
  {
    var n := |ns| - 1;
    assert s[p] == s[p..][0];
    if n == 0 {
      ReadLast(s, p, ns[0]);
      assert ns == [ns[0]];
    } else {
      PrintedTail(s, p, ns);
      ReadPrinted(s, p + 2, ns[..n]);
      ReadOne(s, p, ns[n], ns[..n]);
      assert ns == ns[..n] + [ns[n]];
    }
  }

  /** ip6Prefix inverts the printer for every prefix of 1 to 32 nibbles. */
  lemma PrintThenRead(ns: seq<nat>)
    requires Nibbles(ns) && 1 <= |ns| <= 32
    ensures Spelled(ReverseName(Ip6, ns)) == Some(ns)
  {
    var name := ReverseName(Ip6, ns);
    PrintedInZone(ns);
    var s := name[..|name| - |IP6_ZONE|];
    assert s == Printed(ns) && s[0..] == s;
    ReadPrinted(s, 0, ns);
  }

  /** A list of nibble labels starts with one character, and then a dot or the end. */
  lemma FirstIsNibble(s: string, p: nat)
    requires p <= |s| && NibblesOf(Loader.SplitFrom(s, p)).Some?
    ensures p < |s| && s[p] != '.' && (p + 1 < |s| ==> s[p + 1] == '.') && HexValue(s[p]).Some?
    ensures p + 1 < |s| ==> NibblesOf(Loader.SplitFrom(s, p + 2)).Some?
  {
    var labels := Loader.SplitFrom(s, p);
    FirstOfNibbles(labels);
    var d := DotFrom(s, p);
    if d < 0 {
      assert labels[0] == s[p..];
    } else {
      assert labels[0] == s[p..d];
      assert labels[1..] == Loader.SplitFrom(s, d + 1);
    }
  }

  lemma FirstOfNibbles(labels: seq<string>)
    requires labels != [] && NibblesOf(labels).Some?
    ensures IsNibble(labels[0]) && NibblesOf(labels[1..]).Some?
  {
  }

  lemma PrintedSnoc(ns: seq<nat>, v: nat)
    requires Nibbles(ns) && v < 16
    ensures Nibbles(ns + [v])
    ensures Printed(ns + [v]) == if ns == [] then [HexDigit(v)] else [HexDigit(v)] + "." + Printed(ns)
  {
    assert (ns + [v])[..|ns|] == ns;
  }

  lemma TwoThenRest(s: string, p: nat)
    requires p + 2 <= |s| && s[p + 1] == '.'
    ensures s[p..] == [s[p]] + "." + s[p + 2..]
  {
  }

  lemma DigitInverse(c: char)
    requires HexValue(c).Some? && !IsUpper(c)
    ensures HexValue(c).value < 16 && HexDigit(HexValue(c).value) == c
  {
  }

  /** Nothing else is read: lowercase text that is read as nibbles is their printed form. */
  lemma {:induction false} PrintOfRead(s: string, p: nat)
    requires p <= |s| && NibblesOf(Loader.SplitFrom(s, p)).Some?
    requires forall i :: p <= i < |s| ==> !IsUpper(s[i])
    ensures var ns := NibblesOf(Loader.SplitFrom(s, p)).value; ns != [] && Printed(ns) == s[p..]
    decreases |s| - p
  {
    FirstIsNibble(s, p);
    OneCharLabel(s, p);
    DigitInverse(s[p]);
    if p + 1 == |s| {
      assert [[s[p]]] + [] == [[s[p]]];
      NibblesOfCons(s[p], []);
      PrintedSnoc([], HexValue(s[p]).value);
      assert s[p..] == [s[p]];
    } else {
      var rest := Loader.SplitFrom(s, p + 2);
      PrintOfRead(s, p + 2);
      NibblesOfCons(s[p], rest);
      PrintedSnoc(NibblesOf(rest).value, HexValue(s[p]).value);
      TwoThenRest(s, p);
    }
  }

  lemma CutSuffix(name: string, z: string)
    requires HasSuffix(name, z)
    ensures name == name[..|name| - |z|] + z
  {
  }

  lemma ReadThenPrint(name: string)
    requires Spelled(name).Some? && forall i :: 0 <= i < |name| ==> !IsUpper(name[i])
    ensures 1 <= |Spelled(name).value| <= 32 && ReverseName(Ip6, Spelled(name).value) == name
  {
    var s := name[..|name| - |IP6_ZONE|];
    var ns := NibblesOf(Loader.SplitFrom(s, 0)).value;
    assert Spelled(name) == Some(ns);
    PrintOfRead(s, 0);
    assert s[0..] == s;
    PrintedInZone(ns);
    CutSuffix(name, IP6_ZONE);
  }
}
