/** internal/cache/cache.go, key: the string under which a reply is kept.  It must be injective,
    or one client's reply is served for another client's question. */
module CacheKey {
  import opened Message
  import opened Text
  import opened Wrappers

  predicate NulFree(s: string) {
    '\0' !in s
  }

  // ---- Type and class codes as text -------------------------------------------

  /** A table of mnemonics, and the prefix that numbers a code outside it ("TYPE", "CLASS"). */
  datatype Mnemonics = Mnemonics(names: map<nat, string>, prefix: string)
  {
    /** What the DNS library's tables meet. */
    ghost predicate Valid() {
      && NulFree(prefix)
      && (forall n :: n in names ==> NulFree(names[n]) && !HasPrefix(names[n], prefix))
      && forall m, n :: m in names && n in names && names[m] == names[n] ==> m == n
    }

    function Show(n: nat): string {
      if n in names then names[n] else prefix + Decimal(n)
    }
  }

  /** An unknown code never shares its text with another code, known or unknown. */
  lemma ShowInjective(t: Mnemonics, m: nat, n: nat)
    requires t.Valid() && t.Show(m) == t.Show(n)
    ensures m == n
  {
    if m !in t.names && n !in t.names {
      assert (t.prefix + Decimal(m))[|t.prefix|..] == Decimal(m);
      assert (t.prefix + Decimal(n))[|t.prefix|..] == Decimal(n);
      DecimalInjective(m, n);
    }
  }

  lemma ShowNulFree(t: Mnemonics, n: nat)
    requires t.Valid()
    ensures NulFree(t.Show(n))
  {
  }

  datatype Codes = Codes(types: Mnemonics, classes: Mnemonics)
  {
    ghost predicate Valid() {
      types.Valid() && classes.Valid()
    }
  }

  // ---- The key ---------------------------------------------------------------

  function Bits(cd: bool, dnssec: bool): string {
    ['\0', if cd then 'c' else '-', if dnssec then 'd' else '-']
  }

  function Key(codes: Codes, q: Question, cd: bool, dnssec: bool): string {
    q.name + "\0" + codes.types.Show(q.qtype) + "\0" + codes.classes.Show(q.qclass) + Bits(cd, dnssec)
  }

  /** A string is split in one way at its last NUL. */
  lemma LastNul(a: string, b: string, c: string, d: string)
    requires NulFree(b) && NulFree(d)
    requires a + "\0" + b == c + "\0" + d
    ensures a == c && b == d
  {
    var s := a + "\0" + b;
    NoLaterNul(a, b);
    NoLaterNul(c, d);
    assert s[|a|] == '\0' && s[|c|] == '\0';
    assert a == s[..|a|] && c == s[..|c|];
    assert b == s[|a| + 1..] && d == s[|c| + 1..];
  }

  lemma NoLaterNul(a: string, b: string)
    requires NulFree(b)
    ensures forall i :: |a| < i < |a + "\0" + b| ==> (a + "\0" + b)[i] != '\0'
  {
    forall i | |a| < i < |a + "\0" + b| ensures (a + "\0" + b)[i] != '\0' {
      assert (a + "\0" + b)[i] == b[i - |a| - 1];
    }
  }

  lemma BitsLast(s: string, t: string, cd: bool, dnssec: bool, cd': bool, dnssec': bool)
    requires s + Bits(cd, dnssec) == t + Bits(cd', dnssec')
    ensures s == t && cd == cd' && dnssec == dnssec'
  {
    var u, v := s + Bits(cd, dnssec), t + Bits(cd', dnssec');
    assert u[|u| - 1] == v[|v| - 1] && u[|u| - 2] == v[|v| - 2];
    assert s == u[..|u| - 3] && t == v[..|v| - 3];
  }

  /** Two queries share a key only when name (case kept), type, class, CD and DO all agree. */
  lemma KeyInjective(codes: Codes, q: Question, cd: bool, dnssec: bool, q': Question, cd': bool, dnssec': bool)
    requires codes.Valid()
    requires Key(codes, q, cd, dnssec) == Key(codes, q', cd', dnssec')
    ensures q == q' && cd == cd' && dnssec == dnssec'
  {
    var (t, c) := (codes.types.Show(q.qtype), codes.classes.Show(q.qclass));
    var (t', c') := (codes.types.Show(q'.qtype), codes.classes.Show(q'.qclass));
    BitsLast(q.name + "\0" + t + "\0" + c, q'.name + "\0" + t' + "\0" + c', cd, dnssec, cd', dnssec');
    ShowNulFree(codes.classes, q.qclass);
    ShowNulFree(codes.classes, q'.qclass);
    LastNul(q.name + "\0" + t, c, q'.name + "\0" + t', c');
    ShowNulFree(codes.types, q.qtype);
    ShowNulFree(codes.types, q'.qtype);
    LastNul(q.name, t, q'.name, t');
    ShowInjective(codes.types, q.qtype, q'.qtype);
    ShowInjective(codes.classes, q.qclass, q'.qclass);
  }

  /** keyOf: only a query with exactly one question has a key. */
  function KeyOf(codes: Codes, req: Msg): Option<string> {
    if |req.question| != 1 then None
    else Some(Key(codes, req.question[0], req.cd, WantsDnssec(req)))
  }

  /** What a key stands for. */
  datatype Asked = Asked(question: Question, cd: bool, dnssec: bool)

  function AskedOf(req: Msg): Asked
    requires |req.question| == 1
  {
    Asked(req.question[0], req.cd, WantsDnssec(req))
  }

  lemma SameKeySameQuestion(codes: Codes, a: Msg, b: Msg)
    requires codes.Valid() && KeyOf(codes, a).Some? && KeyOf(codes, a) == KeyOf(codes, b)
    ensures AskedOf(a) == AskedOf(b)
  {
    KeyInjective(codes, a.question[0], a.cd, WantsDnssec(a), b.question[0], b.cd, WantsDnssec(b));
  }
}
