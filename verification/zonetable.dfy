/** internal/dnsserver/handler.go, reverseZones: the table of the private reverse zones as the
    program spells it, and its meaning as a list of address ranges. */
module ReverseZoneTable {
  import opened ReverseNames
  import opened Text
  import opened Address

  function Repeat(s: string, n: nat): string {
    if n == 0 then "" else s + Repeat(s, n - 1)
  }

  /** The spelled zones, in the order of the source. */
  const ZONE_TEXTS: seq<string> := [
    "0.in-addr.arpa.", "10.in-addr.arpa.", "127.in-addr.arpa.", "254.169.in-addr.arpa.", "168.192.in-addr.arpa.",
    "2.0.192.in-addr.arpa.", "100.51.198.in-addr.arpa.", "113.0.203.in-addr.arpa.", "255.255.255.255.in-addr.arpa.",
    Repeat("0.", 32) + "ip6.arpa.", "1." + Repeat("0.", 31) + "ip6.arpa.",
    "c.f.ip6.arpa.", "d.f.ip6.arpa.",
    "8.e.f.ip6.arpa.", "9.e.f.ip6.arpa.", "a.e.f.ip6.arpa.", "b.e.f.ip6.arpa.",
    "8.b.d.0.1.0.0.2.ip6.arpa."]

  /** text is the reverse name of the zone. */
  predicate Spells(z: Zone, text: string) {
    Parts(z.family, z.parts) && ReverseName(z.family, z.parts) == text
  }

  // ---- Spelling one label at a time ---------------------------------------------------

  lemma SpellMore(f: Family, parts: seq<nat>, v: nat, l: string, rest: string, text: string)
    requires Spells(Zone(f, parts), rest) && v < (if f == Ip6 then 16 else 256) && Label(f, v) == l
    requires text == l + "." + rest
    ensures Spells(Zone(f, parts + [v]), text)
  {
    assert (parts + [v])[..|parts|] == parts;
  }

  lemma Spell1(f: Family, a: nat, la: string, text: string)
    requires a < (if f == Ip6 then 16 else 256) && Label(f, a) == la && text == la + "." + Base(f)
    ensures Spells(Zone(f, [a]), text)
  {
    SpellMore(f, [], a, la, Base(f), text);
    assert [] + [a] == [a];
  }

  lemma Spell2(f: Family, a: nat, b: nat, la: string, lb: string, text: string)
    requires a < (if f == Ip6 then 16 else 256) && b < (if f == Ip6 then 16 else 256)
    requires Label(f, a) == la && Label(f, b) == lb && text == lb + "." + (la + "." + Base(f))
    ensures Spells(Zone(f, [a, b]), text)
  {
    Spell1(f, a, la, la + "." + Base(f));
    SpellMore(f, [a], b, lb, la + "." + Base(f), text);
    assert [a] + [b] == [a, b];
  }

  lemma Spell3(f: Family, a: nat, b: nat, c: nat, la: string, lb: string, lc: string, text: string)
    requires a < (if f == Ip6 then 16 else 256) && b < (if f == Ip6 then 16 else 256)
            && c < (if f == Ip6 then 16 else 256)
    requires Label(f, a) == la && Label(f, b) == lb && Label(f, c) == lc
    requires text == lc + "." + (lb + "." + (la + "." + Base(f)))
    ensures Spells(Zone(f, [a, b, c]), text)
  {
    Spell2(f, a, b, la, lb, lb + "." + (la + "." + Base(f)));
    SpellMore(f, [a, b], c, lc, lb + "." + (la + "." + Base(f)), text);
    assert [a, b] + [c] == [a, b, c];
  }

  // ---- Numerals -----------------------------------------------------------------------

  function Digit(d: nat): char
    requires d < 10
  {
    ('0' as int + d) as char
  }

  lemma Two(n: nat, a: nat, b: nat)
    requires 0 < a < 10 && b < 10 && n == 10 * a + b
    ensures Decimal(n) == [Digit(a), Digit(b)]
  {
    assert n / 10 == a && n % 10 == b;
    assert Decimal(a) == [Digit(a)];
  }

  lemma Three(n: nat, a: nat, b: nat, c: nat)
    requires 0 < a < 10 && b < 10 && c < 10 && n == 100 * a + 10 * b + c
    ensures Decimal(n) == [Digit(a), Digit(b), Digit(c)]
  {
    var m := 10 * a + b;
    assert n / 10 == m && n % 10 == c;
    Two(m, a, b);
  }

  // ---- The entries --------------------------------------------------------------------

  lemma OneOctetTexts()
    ensures "0" + "." + "in-addr.arpa." == "0.in-addr.arpa."
    ensures "10" + "." + "in-addr.arpa." == "10.in-addr.arpa."
    ensures "127" + "." + "in-addr.arpa." == "127.in-addr.arpa."
  {
  }

  lemma OneOctetZones()
    ensures Spells(Zone(InAddr, [0]), "0.in-addr.arpa.")
    ensures Spells(Zone(InAddr, [10]), "10.in-addr.arpa.")
    ensures Spells(Zone(InAddr, [127]), "127.in-addr.arpa.")
  {
    OneOctetTexts();
    Two(10, 1, 0);
    Three(127, 1, 2, 7);
    Spell1(InAddr, 0, "0", "0.in-addr.arpa.");
    Spell1(InAddr, 10, "10", "10.in-addr.arpa.");
    Spell1(InAddr, 127, "127", "127.in-addr.arpa.");
  }

  lemma TwoOctetTexts()
    ensures "254" + "." + ("169" + "." + "in-addr.arpa.") == "254.169.in-addr.arpa."
    ensures "168" + "." + ("192" + "." + "in-addr.arpa.") == "168.192.in-addr.arpa."
  {
  }

  lemma TwoOctetZones()
    ensures Spells(Zone(InAddr, [169, 254]), "254.169.in-addr.arpa.")
    ensures Spells(Zone(InAddr, [192, 168]), "168.192.in-addr.arpa.")
  {
    TwoOctetTexts();
    Three(168, 1, 6, 8);
    Three(169, 1, 6, 9);
    Three(192, 1, 9, 2);
    Three(254, 2, 5, 4);
    Spell2(InAddr, 169, 254, "169", "254", "254.169.in-addr.arpa.");
    Spell2(InAddr, 192, 168, "192", "168", "168.192.in-addr.arpa.");
  }

  lemma ThreeOctetTexts()
    ensures "2" + "." + ("0" + "." + ("192" + "." + "in-addr.arpa.")) == "2.0.192.in-addr.arpa."
    ensures "100" + "." + ("51" + "." + ("198" + "." + "in-addr.arpa.")) == "100.51.198.in-addr.arpa."
  {
  }

  lemma ThreeOctetTexts2()
    ensures "113" + "." + ("0" + "." + ("203" + "." + "in-addr.arpa.")) == "113.0.203.in-addr.arpa."
  {
  }

  lemma ThreeOctetZones()
    ensures Spells(Zone(InAddr, [192, 0, 2]), "2.0.192.in-addr.arpa.")
    ensures Spells(Zone(InAddr, [198, 51, 100]), "100.51.198.in-addr.arpa.")
    ensures Spells(Zone(InAddr, [203, 0, 113]), "113.0.203.in-addr.arpa.")
  {
    ThreeOctetTexts();
    ThreeOctetTexts2();
    Two(51, 5, 1);
    Three(100, 1, 0, 0);
    Three(113, 1, 1, 3);
    Three(192, 1, 9, 2);
    Three(198, 1, 9, 8);
    Three(203, 2, 0, 3);
    Spell3(InAddr, 192, 0, 2, "192", "0", "2", "2.0.192.in-addr.arpa.");
    Spell3(InAddr, 198, 51, 100, "198", "51", "100", "100.51.198.in-addr.arpa.");
    Spell3(InAddr, 203, 0, 113, "203", "0", "113", "113.0.203.in-addr.arpa.");
  }

  lemma UniqueLocalTexts()
    ensures "c" + "." + ("f" + "." + "ip6.arpa.") == "c.f.ip6.arpa."
    ensures "d" + "." + ("f" + "." + "ip6.arpa.") == "d.f.ip6.arpa."
  {
  }

  lemma UniqueLocalZones()
    ensures Spells(Zone(Ip6, [15, 12]), "c.f.ip6.arpa.")
    ensures Spells(Zone(Ip6, [15, 13]), "d.f.ip6.arpa.")
  {
    UniqueLocalTexts();
    Spell2(Ip6, 15, 12, "f", "c", "c.f.ip6.arpa.");
    Spell2(Ip6, 15, 13, "f", "d", "d.f.ip6.arpa.");
  }

  lemma LinkLocalTexts()
    ensures "8" + "." + ("e" + "." + ("f" + "." + "ip6.arpa.")) == "8.e.f.ip6.arpa."
    ensures "9" + "." + ("e" + "." + ("f" + "." + "ip6.arpa.")) == "9.e.f.ip6.arpa."
    ensures "a" + "." + ("e" + "." + ("f" + "." + "ip6.arpa.")) == "a.e.f.ip6.arpa."
    ensures "b" + "." + ("e" + "." + ("f" + "." + "ip6.arpa.")) == "b.e.f.ip6.arpa."
  {
  }

  lemma LinkLocalZones()
    ensures Spells(Zone(Ip6, [15, 14, 8]), "8.e.f.ip6.arpa.")
    ensures Spells(Zone(Ip6, [15, 14, 9]), "9.e.f.ip6.arpa.")
    ensures Spells(Zone(Ip6, [15, 14, 10]), "a.e.f.ip6.arpa.")
    ensures Spells(Zone(Ip6, [15, 14, 11]), "b.e.f.ip6.arpa.")
  {
    LinkLocalTexts();
    Spell3(Ip6, 15, 14, 8, "f", "e", "8", "8.e.f.ip6.arpa.");
    Spell3(Ip6, 15, 14, 9, "f", "e", "9", "9.e.f.ip6.arpa.");
    Spell3(Ip6, 15, 14, 10, "f", "e", "a", "a.e.f.ip6.arpa.");
    Spell3(Ip6, 15, 14, 11, "f", "e", "b", "b.e.f.ip6.arpa.");
  }

  lemma BroadcastTexts()
    ensures "255" + "." + ("255" + "." + "in-addr.arpa.") == "255.255.in-addr.arpa."
    ensures "255" + "." + "255.255.in-addr.arpa." == "255.255.255.in-addr.arpa."
  {
  }

  lemma BroadcastTexts2()
    ensures "255" + "." + "255.255.255.in-addr.arpa." == "255.255.255.255.in-addr.arpa."
  {
  }

  lemma BroadcastZone()
    ensures Spells(Zone(InAddr, [255, 255, 255, 255]), "255.255.255.255.in-addr.arpa.")
  {
    BroadcastTexts();
    BroadcastTexts2();
    Three(255, 2, 5, 5);
    Spell2(InAddr, 255, 255, "255", "255", "255.255.in-addr.arpa.");
    SpellMore(InAddr, [255, 255], 255, "255", "255.255.in-addr.arpa.", "255.255.255.in-addr.arpa.");
    assert [255, 255] + [255] == [255, 255, 255];
    SpellMore(InAddr, [255, 255, 255], 255, "255", "255.255.255.in-addr.arpa.", "255.255.255.255.in-addr.arpa.");
    assert [255, 255, 255] + [255] == [255, 255, 255, 255];
  }

  lemma DocumentationTexts()
    ensures "0" + "." + ("0" + "." + ("2" + "." + "ip6.arpa.")) == "0.0.2.ip6.arpa."
    ensures "1" + "." + "0.0.2.ip6.arpa." == "1.0.0.2.ip6.arpa."
    ensures "0" + "." + "1.0.0.2.ip6.arpa." == "0.1.0.0.2.ip6.arpa."
  {
  }

  lemma DocumentationTexts2()
    ensures "d" + "." + "0.1.0.0.2.ip6.arpa." == "d.0.1.0.0.2.ip6.arpa."
  {
  }

  lemma DocumentationTexts3()
    ensures "b" + "." + "d.0.1.0.0.2.ip6.arpa." == "b.d.0.1.0.0.2.ip6.arpa."
  {
  }

  lemma DocumentationTexts4()
    ensures "8" + "." + "b.d.0.1.0.0.2.ip6.arpa." == "8.b.d.0.1.0.0.2.ip6.arpa."
  {
  }

  lemma DocumentationZone()
    ensures Spells(Zone(Ip6, [2, 0, 0, 1, 0, 13, 11, 8]), "8.b.d.0.1.0.0.2.ip6.arpa.")
  {
    DocumentationTexts();
    DocumentationTexts2();
    DocumentationTexts3();
    DocumentationTexts4();
    Spell3(Ip6, 2, 0, 0, "2", "0", "0", "0.0.2.ip6.arpa.");
    SpellMore(Ip6, [2, 0, 0], 1, "1", "0.0.2.ip6.arpa.", "1.0.0.2.ip6.arpa.");
    assert [2, 0, 0] + [1] == [2, 0, 0, 1];
    SpellMore(Ip6, [2, 0, 0, 1], 0, "0", "1.0.0.2.ip6.arpa.", "0.1.0.0.2.ip6.arpa.");
    assert [2, 0, 0, 1] + [0] == [2, 0, 0, 1, 0];
    SpellMore(Ip6, [2, 0, 0, 1, 0], 13, "d", "0.1.0.0.2.ip6.arpa.", "d.0.1.0.0.2.ip6.arpa.");
    assert [2, 0, 0, 1, 0] + [13] == [2, 0, 0, 1, 0, 13];
    SpellMore(Ip6, [2, 0, 0, 1, 0, 13], 11, "b", "d.0.1.0.0.2.ip6.arpa.", "b.d.0.1.0.0.2.ip6.arpa.");
    assert [2, 0, 0, 1, 0, 13] + [11] == [2, 0, 0, 1, 0, 13, 11];
    SpellMore(Ip6, [2, 0, 0, 1, 0, 13, 11], 8, "8", "b.d.0.1.0.0.2.ip6.arpa.", "8.b.d.0.1.0.0.2.ip6.arpa.");
    assert [2, 0, 0, 1, 0, 13, 11] + [8] == [2, 0, 0, 1, 0, 13, 11, 8];
  }

  lemma RepeatNext(s: string, l: string, n: nat, rest: string)
    requires n > 0 && s == l + "."
    ensures Repeat(s, n) + rest == l + "." + (Repeat(s, n - 1) + rest)
  {
  }

  /** One label for each zero nibble. */
  lemma {:induction false} ZeroNibbles(n: nat, base: string)
    requires base == Base(Ip6)
    ensures Spells(Zone(Ip6, seq(n, _ => 0)), Repeat("0.", n) + base)
  {
    if n > 0 {
      ZeroNibbles(n - 1, base);
      RepeatNext("0.", "0", n, base);
      SpellMore(Ip6, seq(n - 1, _ => 0), 0, "0", Repeat("0.", n - 1) + base, Repeat("0.", n) + base);
      assert seq(n, _ => 0) == seq(n - 1, _ => 0) + [0];
    } else {
      assert Repeat("0.", 0) + base == base;
    }
  }

  lemma UnspecifiedZone()
    ensures Spells(Zone(Ip6, seq(32, _ => 0)), Repeat("0.", 32) + "ip6.arpa.")
  {
    ZeroNibbles(32, "ip6.arpa.");
  }

  lemma LoopbackZone(n: nat, base: string)
    requires base == Base(Ip6)
    ensures Spells(Zone(Ip6, seq(n, _ => 0) + [1]), "1." + Repeat("0.", n) + base)
  {
    ZeroNibbles(n, base);
    var rest := Repeat("0.", n) + base;
    assert "1." + Repeat("0.", n) + base == "1" + "." + rest;
    SpellMore(Ip6, seq(n, _ => 0), 1, "1", rest, "1" + "." + rest);
  }

  lemma Tail172()
    ensures ".172.in-addr.arpa." == "." + ("172" + "." + "in-addr.arpa.")
  {
  }

  lemma Tail100()
    ensures ".100.in-addr.arpa." == "." + ("100" + "." + "in-addr.arpa.")
  {
  }

  lemma OctetThenTail(octet: nat, i: nat, l: string, tail: string)
    requires octet < 256 && i < 256 && Decimal(octet) == l && tail == "." + (l + "." + Base(InAddr))
    ensures Spells(Zone(InAddr, [octet, i]), Decimal(i) + tail)
  {
    assert Decimal(i) + tail == Decimal(i) + "." + (l + "." + Base(InAddr));
    Spell2(InAddr, octet, i, l, Decimal(i), Decimal(i) + tail);
  }

  /** The names of the two ranges of second octets, as the loops build them. */
  lemma SecondOctet172(i: nat)
    requires i < 256
    ensures Spells(Zone(InAddr, [172, i]), Decimal(i) + ".172.in-addr.arpa.")
  {
    Three(172, 1, 7, 2);
    Tail172();
    OctetThenTail(172, i, "172", ".172.in-addr.arpa.");
  }

  lemma SecondOctet100(i: nat)
    requires i < 256
    ensures Spells(Zone(InAddr, [100, i]), Decimal(i) + ".100.in-addr.arpa.")
  {
    Three(100, 1, 0, 0);
    Tail100();
    OctetThenTail(100, i, "100", ".100.in-addr.arpa.");
  }

  // ---- The table ----------------------------------------------------------------------

  /** Each spelled entry is the reverse name of its zone. */
  lemma TextsSpellZones(i: nat)
    requires i < |FIXED_ZONES|
    ensures |ZONE_TEXTS| == |FIXED_ZONES| && Spells(FIXED_ZONES[i], ZONE_TEXTS[i])
  {
    if i < 3 {
      OneOctetZones();
    } else if i < 5 {
      TwoOctetZones();
    } else if i < 8 {
      ThreeOctetZones();
    } else if i == 8 {
      BroadcastZone();
    } else if i == 9 {
      UnspecifiedZone();
    } else if i == 10 {
      LoopbackZone(31, "ip6.arpa.");
    } else if i < 13 {
      UniqueLocalZones();
    } else if i < 17 {
      LinkLocalZones();
    } else {
      DocumentationZone();
    }
  }

  /** The names for the second octets lo to hi, as one of the two loops appends them. */
  method SecondOctetTexts(lo: nat, hi: nat, tail: string) returns (texts: seq<string>)
    requires lo <= hi
    ensures |texts| == hi + 1 - lo
    ensures forall k :: 0 <= k < |texts| ==> texts[k] == Decimal(lo + k) + tail
  {
    texts := [];
    for i := lo to hi + 1
      invariant |texts| == i - lo
      invariant forall k :: 0 <= k < |texts| ==> texts[k] == Decimal(lo + k) + tail
    {
      texts := texts + [Decimal(i) + tail];
    }
  }

  /** The texts of a range of second octets. */
  ghost predicate RangeTexts(texts: seq<string>, lo: nat, hi: nat, tail: string) {
    lo <= hi && |texts| == hi + 1 - lo && forall k :: 0 <= k < |texts| ==> texts[k] == Decimal(lo + k) + tail
  }

  lemma TextsAreZoneNames(i: nat)
    requires i < |ZONE_TEXTS|
    ensures ZoneName(ZONE_TEXTS[i])
  {
    TextsSpellZones(i);
    FixedArePrivate(i);
    SpelledIsZone(FIXED_ZONES[i], ZONE_TEXTS[i]);
  }

  lemma SpelledIsZone(z: Zone, text: string)
    requires PrivateZone(z) && Spells(z, text)
    ensures ZoneName(text)
  {
  }

  lemma RangeAreZoneNames(texts: seq<string>, octet: nat, k: nat)
    requires (octet == 172 && RangeTexts(texts, 16, 31, ".172.in-addr.arpa."))
             || (octet == 100 && RangeTexts(texts, 64, 127, ".100.in-addr.arpa."))
    requires k < |texts|
    ensures ZoneName(texts[k])
  {
    if octet == 172 {
      SecondOctet172(16 + k);
      SpelledIsZone(Zone(InAddr, [172, 16 + k]), texts[k]);
    } else {
      SecondOctet100(64 + k);
      SpelledIsZone(Zone(InAddr, [100, 64 + k]), texts[k]);
    }
  }

  /** No private zone is missing from the table. */
  lemma ZoneIsListed(z: Zone, by172: seq<string>, by100: seq<string>)
    requires PrivateZone(z) && Parts(z.family, z.parts)
    requires RangeTexts(by172, 16, 31, ".172.in-addr.arpa.") && RangeTexts(by100, 64, 127, ".100.in-addr.arpa.")
    ensures ReverseName(z.family, z.parts) in ZONE_TEXTS + by172 + by100
  {
    if Second(z, 172, 16, 31) {
      var v := z.parts[1];
      assert z.parts == [172, v];
      SecondOctet172(v);
      assert by172[v - 16] == Decimal(v) + ".172.in-addr.arpa.";
    } else if Second(z, 100, 64, 127) {
      var v := z.parts[1];
      assert z.parts == [100, v];
      SecondOctet100(v);
      assert by100[v - 64] == Decimal(v) + ".100.in-addr.arpa.";
    } else {
      PrivateAreListed(z);
      var i :| 0 <= i < |FIXED_ZONES| && FIXED_ZONES[i] == z;
      TextsSpellZones(i);
      assert ZONE_TEXTS[i] in ZONE_TEXTS;
    }
  }

  lemma AllAreZoneNames(texts: seq<string>, by172: seq<string>, by100: seq<string>, s: string)
    requires forall i :: 0 <= i < |texts| ==> ZoneName(texts[i])
    requires RangeTexts(by172, 16, 31, ".172.in-addr.arpa.") && RangeTexts(by100, 64, 127, ".100.in-addr.arpa.")
    requires s in texts + by172 + by100
    ensures ZoneName(s)
  {
    if k :| 0 <= k < |by172| && by172[k] == s {
      RangeAreZoneNames(by172, 172, k);
    }
    if k :| 0 <= k < |by100| && by100[k] == s {
      RangeAreZoneNames(by100, 100, k);
    }
  }

  lemma TableIsZoneSet(table: seq<string>, by172: seq<string>, by100: seq<string>, out: set<string>)
    requires table == ZONE_TEXTS + by172 + by100 && forall s :: s in out <==> s in table
    requires RangeTexts(by172, 16, 31, ".172.in-addr.arpa.") && RangeTexts(by100, 64, 127, ".100.in-addr.arpa.")
    ensures ZoneSet(out)
  {
    forall i | 0 <= i < |ZONE_TEXTS| ensures ZoneName(ZONE_TEXTS[i]) {
      TextsAreZoneNames(i);
    }
    forall s | s in out ensures ZoneName(s) {
      AllAreZoneNames(ZONE_TEXTS, by172, by100, s);
    }
    forall s | ZoneName(s) ensures s in out {
      NameIsListed(s, by172, by100);
    }
  }

  lemma NameIsListed(s: string, by172: seq<string>, by100: seq<string>)
    requires ZoneName(s)
    requires RangeTexts(by172, 16, 31, ".172.in-addr.arpa.") && RangeTexts(by100, 64, 127, ".100.in-addr.arpa.")
    ensures s in ZONE_TEXTS + by172 + by100
  {
    var z: Zone :| PrivateZone(z) && Parts(z.family, z.parts) && s == ReverseName(z.family, z.parts);
    ZoneIsListed(z, by172, by100);
  }

  /** reverseZones: exactly the names of the private zones. */
  method ReverseZones() returns (out: set<string>)
    ensures ZoneSet(out)
  {
    var by172 := SecondOctetTexts(16, 31, ".172.in-addr.arpa.");
    var by100 := SecondOctetTexts(64, 127, ".100.in-addr.arpa.");
    var table := ZONE_TEXTS + by172 + by100;
    out := Collect(table);
    TableIsZoneSet(table, by172, by100, out);
  }

  /** Its loop: every text goes into the set. */
  method Collect(table: seq<string>) returns (out: set<string>)
    ensures forall s :: s in out <==> s in table
  {
    out := {};
    for i := 0 to |table|
      invariant forall s :: s in out <==> s in table[..i]
    {
      assert table[..i + 1] == table[..i] + [table[i]];
      out := out + {table[i]};
    }
    assert table[..|table|] == table;
  }
}
