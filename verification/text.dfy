/** Byte-level text operations that the name handling is built on.  Domain names reach the
    program in presentation form, without escaped dots, so every '.' separates two labels. */
module Text {

  predicate IsUpper(c: char) {
    'A' <= c <= 'Z'
  }

  function LowerChar(c: char): (r: char)
    ensures !IsUpper(r)
  {
    if IsUpper(c) then (c as int + 32) as char else c
  }

  predicate Ascii(s: string) {
    forall i :: 0 <= i < |s| ==> s[i] as int < 0x80
  }

  function LowerAscii(s: string): string {
    if s == "" then "" else LowerAscii(s[..|s| - 1]) + [LowerChar(s[|s| - 1])]
  }

  lemma {:induction false} LowerAsciiAt(s: string)
    ensures |LowerAscii(s)| == |s|
    ensures forall i :: 0 <= i < |s| ==> LowerAscii(s)[i] == LowerChar(s[i])
  {
    if s != "" {
      LowerAsciiAt(s[..|s| - 1]);
    }
  }

  /** strings.ToLower; fold is the Unicode case mapping, used only for non-ASCII text. */
  function ToLower(fold: string -> string, s: string): string {
    if Ascii(s) then LowerAscii(s) else fold(s)
  }

  function TrimDot(s: string): string {
    if |s| > 0 && s[|s| - 1] == '.' then s[..|s| - 1] else s
  }

  predicate HasSuffix(s: string, t: string) {
    |t| <= |s| && s[|s| - |t|..] == t
  }

  predicate HasPrefix(s: string, t: string) {
    |t| <= |s| && s[..|t|] == t
  }

  /** The first dot of s at or after from, or -1. */
  function DotFrom(s: string, from: nat): (r: int)
    requires from <= |s|
    ensures r == -1 || from <= r < |s|
    ensures r >= 0 ==> s[r] == '.'
    ensures forall k :: from <= k < (if r < 0 then |s| else r) ==> s[k] != '.'
    decreases |s| - from
  {
    if from == |s| then -1 else if s[from] == '.' then from else DotFrom(s, from + 1)
  }

  // ---- Numbers -----------------------------------------------------------------

  function Decimal(n: nat): (s: string)
    ensures |s| > 0 && (|s| == 1 <==> n < 10)
    ensures forall k :: 0 <= k < |s| ==> '0' <= s[k] <= '9'
  {
    var digit := ('0' as int + n % 10) as char;
    if n < 10 then [digit] else Decimal(n / 10) + [digit]
  }

  lemma {:induction false} DecimalInjective(m: nat, n: nat)
    requires Decimal(m) == Decimal(n)
    ensures m == n
  {
    var s, t := Decimal(m), Decimal(n);
    assert s[|s| - 1] == t[|t| - 1];
    if m >= 10 && n >= 10 {
      assert s[..|s| - 1] == Decimal(m / 10) && t[..|t| - 1] == Decimal(n / 10);
      DecimalInjective(m / 10, n / 10);
    }
  }

  // ---- Label suffixes -------------------------------------------------------
  //
  // A suffix walk reslices the name after each dot.  A resliced name is the original one from
  // some offset on, so the walk is a sequence of offsets, and the suffix at p is name[p..].

  /** A label starts at p: p is 0, or a dot is just before it. */
  predicate Start(name: string, p: int) {
    0 <= p <= |name| && (p == 0 || name[p - 1] == '.')
  }

  /** s is name itself, or what follows one of its dots. */
  ghost predicate LabelSuffix(s: string, name: string) {
    exists p :: Start(name, p) && s == name[p..]
  }

  /** Some label suffix of name is stored in entries. */
  ghost predicate SuffixIn(name: string, entries: set<string>) {
    exists p :: Start(name, p) && name[p..] in entries
  }

  /** The offsets a walk from p visits, most specific first. */
  function Walk(name: string, p: nat): (r: seq<nat>)
    requires p <= |name|
    ensures |r| > 0 && r[0] == p
    ensures forall i :: 0 <= i < |r| ==> p <= r[i] <= |name|
    decreases |name| - p
  {
    var d := DotFrom(name, p);
    if d < 0 then [p] else [p] + Walk(name, d + 1)
  }

  /** The walk visits exactly the label starts from p on. */
  lemma {:induction false} WalkVisitsSuffixes(name: string, p: nat, q: nat)
    requires Start(name, p)
    ensures q in Walk(name, p) <==> Start(name, q) && p <= q
    decreases |name| - p
  {
    var d := DotFrom(name, p);
    if d >= 0 {
      WalkVisitsSuffixes(name, d + 1, q);
    }
  }

  /** Below prefix.d, a label starts inside the added part or where one starts in d. */
  lemma StartsOfSubdomain(prefix: string, d: string, p: nat)
    requires p > |prefix|
    ensures
      var name := prefix + "." + d;
      && (Start(name, p) <==> Start(d, p - |prefix| - 1))
      && (Start(name, p) ==> name[p..] == d[p - |prefix| - 1..])
  {
  }

  /** Below a dot-free label, a stored suffix is the name itself or a suffix of its parent. */
  lemma SuffixInStep(l: string, rest: string, entries: set<string>)
    requires '.' !in l
    ensures SuffixIn(l + "." + rest, entries) <==> l + "." + rest in entries || SuffixIn(rest, entries)
  {
    var name := l + "." + rest;
    assert name[0..] == name;
    if SuffixIn(name, entries) && name !in entries {
      var p :| Start(name, p) && name[p..] in entries;
      assert forall k :: 0 <= k < |l| ==> name[k] == l[k] && l[k] in l;
      StartsOfSubdomain(l, rest, p);
    }
    if SuffixIn(rest, entries) {
      var q :| Start(rest, q) && rest[q..] in entries;
      StartsOfSubdomain(l, rest, q + |l| + 1);
      assert Start(name, q + |l| + 1) && name[q + |l| + 1..] in entries;
    }
  }
}
