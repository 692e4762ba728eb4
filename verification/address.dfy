/** Internet addresses and prefixes, as net/netip has them: an address is its bits, most
    significant first, 32 of them or 128. */
module Address {

  type Bits = seq<bool>

  datatype Addr = Addr(bits: Bits)
  {
    predicate Is4() {
      |bits| == 32
    }

    predicate Is6() {
      |bits| == 128
    }

    predicate Valid() {
      Is4() || Is6()
    }
  }

  datatype Prefix = Prefix(addr: Addr, len: nat)
  {
    predicate Valid() {
      addr.Valid() && len <= |addr.bits|
    }

    /** Same family, and the first len bits agree. */
    predicate Contains(ip: Addr) {
      |ip.bits| == |addr.bits| && len <= |addr.bits| && ip.bits[..len] == addr.bits[..len]
    }

    /** Every address of p is in this prefix (the test of inLANRanges and underGlobalV6). */
    predicate Covers(p: Prefix) {
      len <= p.len && Contains(p.addr)
    }
  }

  function Zeros(n: nat): (r: Bits)
    ensures |r| == n && forall i :: 0 <= i < n ==> !r[i]
  {
    seq(n, _ => false)
  }

  /** Addr.Prefix: the address with everything after the first len bits cleared. */
  function Masked(a: Addr, len: nat): (r: Prefix)
    requires a.Valid() && len <= |a.bits|
    ensures r.Valid() && r.len == len && |r.addr.bits| == |a.bits|
    ensures r.Contains(a)
  {
    Prefix(Addr(a.bits[..len] + Zeros(|a.bits| - len)), len)
  }

  /** The bits of a number below 16. */
  function Nibble(v: nat): (r: Bits)
    ensures |r| == 4
  {
    [v / 8 % 2 == 1, v / 4 % 2 == 1, v / 2 % 2 == 1, v % 2 == 1]
  }

  function Octet(v: nat): (r: Bits)
    ensures |r| == 8
  {
    Nibble(v / 16) + Nibble(v % 16)
  }

  function Octets(vs: seq<nat>): (r: Bits)
    ensures |r| == 8 * |vs|
  {
    if vs == [] then [] else Octets(vs[..|vs| - 1]) + Octet(vs[|vs| - 1])
  }

  function V4(a: nat, b: nat, c: nat, d: nat): (r: Addr)
    ensures r.Is4()
  {
    Addr(Octets([a, b, c, d]))
  }

  /** Where the octets of an IPv4 address stand. */
  lemma V4Head(a: nat, b: nat, c: nat, d: nat)
    ensures
      var bits := V4(a, b, c, d).bits;
      bits[..8] == Octet(a) && bits[8..16] == Octet(b) && bits[8..12] == Nibble(b / 16)
  {
    var vs := [a, b, c, d];
    assert vs[..3] == [a, b, c] && [a, b, c][..2] == [a, b] && [a, b][..1] == [a] && [a][..0] == [];
    var bits := Octet(a) + Octet(b) + Octet(c) + Octet(d);
    assert Octets([a]) == Octet(a);
    assert Octets([a, b]) == Octet(a) + Octet(b);
    assert Octets([a, b, c]) == Octet(a) + Octet(b) + Octet(c);
    assert Octets(vs) == bits;
    assert bits[..8] == Octet(a) && bits[8..16] == Octet(b);
    assert bits[8..16][..4] == bits[8..12];
  }

  lemma NibbleInjective(v: nat, w: nat)
    requires v < 16 && w < 16 && Nibble(v) == Nibble(w)
    ensures v == w
  {
    assert Nibble(v)[0] == Nibble(w)[0] && Nibble(v)[1] == Nibble(w)[1];
    assert Nibble(v)[2] == Nibble(w)[2] && Nibble(v)[3] == Nibble(w)[3];
  }

  lemma OctetInjective(v: nat, w: nat)
    requires v < 256 && w < 256 && Octet(v) == Octet(w)
    ensures v == w
  {
    assert Octet(v)[..4] == Nibble(v / 16) && Octet(w)[..4] == Nibble(w / 16);
    assert Octet(v)[4..] == Nibble(v % 16) && Octet(w)[4..] == Nibble(w % 16);
    NibbleInjective(v / 16, w / 16);
    NibbleInjective(v % 16, w % 16);
  }

  predicate Nibbles(ns: seq<nat>) {
    forall i :: 0 <= i < |ns| ==> ns[i] < 16
  }

  /** The bits of a list of nibbles. */
  function NibbleBits(ns: seq<nat>): (r: Bits)
    ensures |r| == 4 * |ns|
  {
    if ns == [] then [] else NibbleBits(ns[..|ns| - 1]) + Nibble(ns[|ns| - 1])
  }

  lemma {:induction false} NibbleBitsAt(ns: seq<nat>, k: nat)
    requires k < |ns|
    ensures NibbleBits(ns)[4 * k..4 * k + 4] == Nibble(ns[k])
  {
    var n := |ns| - 1;
    if k < n {
      NibbleBitsAt(ns[..n], k);
      assert NibbleBits(ns)[4 * k..4 * k + 4] == NibbleBits(ns[..n])[4 * k..4 * k + 4];
    }
  }

  lemma {:induction false} NibbleBitsInjective(a: seq<nat>, b: seq<nat>)
    requires |a| == |b| && Nibbles(a) && Nibbles(b) && NibbleBits(a) == NibbleBits(b)
    ensures a == b
  {
    if a != [] {
      var n := |a| - 1;
      assert NibbleBits(a)[..4 * n] == NibbleBits(a[..n]) && NibbleBits(b)[..4 * n] == NibbleBits(b[..n]);
      assert NibbleBits(a)[4 * n..] == Nibble(a[n]) && NibbleBits(b)[4 * n..] == Nibble(b[n]);
      NibbleBitsInjective(a[..n], b[..n]);
      NibbleInjective(a[n], b[n]);
      assert a == a[..n] + [a[n]] && b == b[..n] + [b[n]];
    }
  }

  lemma {:induction false} NibbleBitsHead(ns: seq<nat>, m: nat)
    requires m <= |ns|
    ensures NibbleBits(ns)[..4 * m] == NibbleBits(ns[..m])
  {
    var n := |ns| - 1;
    if m <= n {
      NibbleBitsHead(ns[..n], m);
      assert ns[..n][..m] == ns[..m];
      assert NibbleBits(ns)[..4 * m] == NibbleBits(ns[..n])[..4 * m];
    } else {
      assert ns[..m] == ns;
    }
  }

  lemma {:induction false} NibbleBitsZero(ns: seq<nat>)
    requires forall i :: 0 <= i < |ns| ==> ns[i] == 0
    ensures NibbleBits(ns) == Zeros(4 * |ns|)
  {
    if ns != [] {
      NibbleBitsZero(ns[..|ns| - 1]);
    }
  }

  /** An IPv6 address whose bits after the given leading nibbles are zero. */
  function V6Leading(ns: seq<nat>): (r: Addr)
    requires |ns| <= 32
    ensures r.Is6()
  {
    Addr(NibbleBits(ns) + Zeros(128 - 4 * |ns|))
  }

  lemma EqualInTwoParts(x: Bits, u: Bits, a: nat, j: nat)
    requires a + j <= |x| && a + j <= |u|
    ensures x[..a + j] == u[..a + j] <==> x[..a] == u[..a] && x[a..a + j] == u[a..a + j]
  {
    assert x[..a + j] == x[..a] + x[a..a + j];
    assert u[..a + j] == u[..a] + u[a..a + j];
  }

  lemma LeadingHead(us: seq<nat>, m: nat)
    requires m <= |us| <= 32
    ensures V6Leading(us).bits[..4 * m] == NibbleBits(us[..m])
  {
    NibbleBitsHead(us, m);
  }

  lemma LeadingAt(us: seq<nat>, m: nat, j: nat)
    requires m < |us| <= 32 && j <= 4
    ensures V6Leading(us).bits[4 * m..4 * m + j] == Nibble(us[m])[..j]
  {
    NibbleBitsAt(us, m);
    var u := V6Leading(us).bits;
    assert u[4 * m..4 * m + 4] == NibbleBits(us)[4 * m..4 * m + 4];
    assert u[4 * m..4 * m + j] == u[4 * m..4 * m + 4][..j];
  }

  /** A prefix of m nibbles and j more bits, nibble by nibble. */
  lemma LeadingContains(us: seq<nat>, m: nat, j: nat, ns: seq<nat>)
    requires |us| <= 32 && |ns| == 32 && Nibbles(us) && Nibbles(ns) && j <= 4
    requires m < |us| || (m == |us| && j == 0)
    ensures Prefix(V6Leading(us), 4 * m + j).Contains(Addr(NibbleBits(ns)))
            <==> ns[..m] == us[..m] && (m < |us| ==> Nibble(ns[m])[..j] == Nibble(us[m])[..j])
  {
    var x, u := V6Leading(ns).bits, V6Leading(us).bits;
    assert x == NibbleBits(ns);
    EqualInTwoParts(x, u, 4 * m, j);
    LeadingHead(ns, m);
    LeadingHead(us, m);
    if NibbleBits(ns[..m]) == NibbleBits(us[..m]) {
      NibbleBitsInjective(ns[..m], us[..m]);
    }
    if m < |us| {
      LeadingAt(ns, m, j);
      LeadingAt(us, m, j);
    }
  }

  const LOOPBACK6: Addr := Addr(Zeros(127) + [true])

  /** ::ffff:0:0/96, the IPv4 addresses in IPv6 form. */
  predicate Is4In6(a: Addr) {
    a.Is6() && a.bits[..96] == Zeros(80) + Octets([255, 255])
  }

  function Unmap(a: Addr): (r: Addr)
    ensures a.Valid() ==> r.Valid()
  {
    if Is4In6(a) then Addr(a.bits[96..]) else a
  }

  /** A prefix inside another one holds only addresses of that one. */
  lemma CoversIsTransitive(r: Prefix, p: Prefix, ip: Addr)
    requires r.Covers(p) && p.Contains(ip)
    ensures r.Contains(ip)
  {
    assert p.addr.bits[..p.len][..r.len] == p.addr.bits[..r.len];
    assert ip.bits[..p.len][..r.len] == ip.bits[..r.len];
  }

  /** Covers is exactly inclusion of address sets. */
  lemma CoversMeans(r: Prefix, p: Prefix)
    requires r.Valid() && p.Valid() && |r.addr.bits| == |p.addr.bits|
    ensures r.Covers(p) <==> forall ip: Addr :: p.Contains(ip) ==> r.Contains(ip)
  {
    if r.Covers(p) {
      forall ip: Addr | p.Contains(ip) ensures r.Contains(ip) {
        CoversIsTransitive(r, p, ip);
      }
    } else if r.len > p.len {
      // The address of p with bit p.len flipped is in p too, and only one of the two is in r.
      var other := Addr(p.addr.bits[p.len := !p.addr.bits[p.len]]);
      assert p.Contains(other) && p.Contains(p.addr);
      assert other.bits[..r.len][p.len] != p.addr.bits[..r.len][p.len];
    } else {
      assert p.Contains(p.addr);
    }
  }

  // ---- Kinds of address ---------------------------------------------------------

  /** fe80::/10, fc00::/7 and ff00::/8. */
  const LINK_LOCAL6: Prefix := Prefix(V6Leading([15, 14, 8]), 10)
  const UNIQUE_LOCAL6: Prefix := Prefix(V6Leading([15, 12]), 7)
  const MULTICAST6: Prefix := Prefix(V6Leading([15, 15]), 8)

  /** IsGlobalUnicast for IPv6: any address but ::, ::1, multicast and link-local. */
  predicate GlobalUnicast6(a: Addr) {
    && a.Is6() && a.bits != Zeros(128) && a != LOOPBACK6
    && !MULTICAST6.Contains(a) && !LINK_LOCAL6.Contains(a)
  }
}
