/** internal/blocklist/loader.go: the domain validator and the hosts-format parser.
    A line is a sequence of runes; bufio.Scanner's reads and its error stay outside. */
module Loader {
  import opened Text
  import opened Wrappers
  import Blocklist

  // ---- ValidDomain ----------------------------------------------------------

  /** strings.Split(s[p:], "."). */
  function SplitFrom(s: string, p: nat): (r: seq<string>)
    requires p <= |s|
    ensures |r| >= 1
    decreases |s| - p
  {
    var d := DotFrom(s, p);
    if d < 0 then [s[p..]] else [s[p..d]] + SplitFrom(s, d + 1)
  }

  function Split(s: string): seq<string> {
    SplitFrom(s, 0)
  }

  predicate LabelChar(c: char) {
    'a' <= c <= 'z' || 'A' <= c <= 'Z' || '0' <= c <= '9' || c == '-' || c == '_'
  }

  /** A label: not empty, only allowed characters, no hyphen at either end. */
  predicate GoodLabel(l: string) {
    && l != "" && l[0] != '-' && l[|l| - 1] != '-'
    && forall i :: 0 <= i < |l| ==> LabelChar(l[i])
  }

  predicate AllGood(labels: seq<string>) {
    forall i :: 0 <= i < |labels| ==> GoodLabel(labels[i])
  }

  /** What a domain is: 1 to 253 characters that, after one root dot, split into two or more labels. */
  predicate WellFormed(s: string) {
    1 <= |s| <= 253 && |Split(TrimDot(s))| >= 2 && AllGood(Split(TrimDot(s)))
  }

  /** The one-pass scan's view of a name, character by character; prev starts as a dot. */
  predicate GoodAt(name: string, i: nat)
    requires i < |name|
  {
    var prev := if i == 0 then '.' else name[i - 1];
    && (LabelChar(name[i]) || name[i] == '.')
    && !(name[i] == '.' && (prev == '.' || prev == '-'))
    && !(name[i] == '-' && prev == '.')
  }

  /** The scan accepts name from p on. */
  predicate ScanAccepts(name: string, p: nat) {
    && p < |name| && name[|name| - 1] != '.' && name[|name| - 1] != '-'
    && forall i :: p <= i < |name| ==> GoodAt(name, i)
  }

  /** The scan accepts exactly the names all of whose labels are good. */
  lemma {:induction false} ScanIsSplit(name: string, p: nat)
    requires Start(name, p)
    ensures ScanAccepts(name, p) <==> AllGood(SplitFrom(name, p))
    decreases |name| - p
  {
    var d := DotFrom(name, p);
    if d < 0 {
      LastLabel(name, p);
    } else {
      ScanIsSplit(name, d + 1);
      FirstLabel(name, p, d);
    }
  }

  lemma LastLabel(name: string, p: nat)
    requires Start(name, p) && DotFrom(name, p) < 0
    ensures ScanAccepts(name, p) <==> AllGood(SplitFrom(name, p))
  {
    LabelScan(name, p, |name|);
    var l := name[p..];
    assert name[p..|name|] == l;
    AllGoodCons(l, []);
    assert [l] + [] == [l];
  }

  lemma FirstLabel(name: string, p: nat, d: nat)
    requires Start(name, p) && DotFrom(name, p) == d
    requires ScanAccepts(name, d + 1) <==> AllGood(SplitFrom(name, d + 1))
    ensures ScanAccepts(name, p) <==> AllGood(SplitFrom(name, p))
  {
    LabelScan(name, p, d);
    AllGoodCons(name[p..d], SplitFrom(name, d + 1));
    ScanStep(name, p, d);
  }

  lemma ScanStep(name: string, p: nat, d: nat)
    requires Start(name, p) && p <= d < |name| && name[d] == '.'
    ensures ScanAccepts(name, p) <==>
            ScanAccepts(name, d + 1) && p < d && name[d - 1] != '.' && name[d - 1] != '-' &&
            forall i :: p <= i < d ==> GoodAt(name, i)
  {
    if ScanAccepts(name, p) {
      assert GoodAt(name, d);
    }
  }

  lemma AllGoodCons(l: string, ls: seq<string>)
    ensures AllGood([l] + ls) <==> GoodLabel(l) && AllGood(ls)
  {
    assert forall i :: 0 <= i < |ls| ==> ([l] + ls)[i + 1] == ls[i];
    assert ([l] + ls)[0] == l;
  }

  /** One label, between a start and the next dot or the end. */
  lemma LabelScan(name: string, p: nat, d: nat)
    requires Start(name, p) && p <= d <= |name|
    requires forall k :: p <= k < d ==> name[k] != '.'
    ensures GoodLabel(name[p..d]) <==>
            p < d && name[d - 1] != '-' && forall i :: p <= i < d ==> GoodAt(name, i)
  {
    var l := name[p..d];
    if GoodLabel(l) {
      assert forall i :: p <= i < d ==> name[i] == l[i - p];
    }
    if p < d && name[d - 1] != '-' && forall i :: p <= i < d ==> GoodAt(name, i) {
      assert GoodAt(name, p);
      forall i | 0 <= i < |l| ensures LabelChar(l[i]) {
        assert GoodAt(name, p + i);
      }
    }
  }

  /** An interior dot and a second label are the same thing once the labels are good. */
  lemma InteriorDot(s: string)
    requires s != "" && AllGood(Split(TrimDot(s)))
    ensures 0 < DotFrom(s, 0) < |s| - 1 <==> |Split(TrimDot(s))| >= 2
  {
    var name, i := TrimDot(s), DotFrom(s, 0);
    var j := DotFrom(name, 0);
    if j >= 0 {
      assert Split(name)[0] == name[0..j];
      assert GoodLabel(Split(name)[0]);
      assert s[j] == '.';
    }
    if 0 < i < |s| - 1 {
      assert name[i] == '.';
    }
  }

  method ValidDomain(s: string) returns (r: bool)
    ensures r <==> WellFormed(s)
  {
    var name := TrimDot(s);
    ScanIsSplit(name, 0);
    if s == "" || |s| > 253 {
      return false;
    }
    var first := DotFrom(s, 0);
    if first <= 0 || first >= |s| - 1 {
      if AllGood(Split(name)) { InteriorDot(s); }
      return false;
    }
    var alphabet := AlphabetOk(s);
    if !alphabet {
      return false;
    }
    r := HyphensOk(name);
    if r { InteriorDot(s); }
  }

  /** The character loop.  A root dot is in the alphabet, so the name decides. */
  method AlphabetOk(s: string) returns (r: bool)
    ensures r <==> forall k :: 0 <= k < |s| ==> LabelChar(s[k]) || s[k] == '.'
    ensures ScanAccepts(TrimDot(s), 0) ==> r
  {
    for i := 0 to |s|
      invariant forall k :: 0 <= k < i ==> LabelChar(s[k]) || s[k] == '.'
    {
      if !(LabelChar(s[i]) || s[i] == '.') {
        assert i < |TrimDot(s)| && !GoodAt(TrimDot(s), i);
        return false;
      }
    }
    return true;
  }

  /** The label loop, with the previous character. */
  method HyphensOk(name: string) returns (r: bool)
    requires forall k :: 0 <= k < |name| ==> LabelChar(name[k]) || name[k] == '.'
    ensures r <==> ScanAccepts(name, 0)
  {
    var prev := '.';
    for i := 0 to |name|
      invariant prev == if i == 0 then '.' else name[i - 1]
      invariant forall k :: 0 <= k < i ==> GoodAt(name, k)
    {
      var c := name[i];
      if (c == '.' && (prev == '.' || prev == '-')) || (c == '-' && prev == '.') {
        assert !GoodAt(name, i);
        return false;
      }
      prev := c;
    }
    return prev != '.' && prev != '-';
  }

  // ---- parseHostsFormat -----------------------------------------------------

  /** unicode.IsSpace. */
  predicate IsSpace(c: char) {
    var n := c as int;
    || 9 <= n <= 13 || n == 0x20 || n == 0x85 || n == 0xA0 || n == 0x1680 || 0x2000 <= n <= 0x200a
    || n == 0x2028 || n == 0x2029 || n == 0x202f || n == 0x205f || n == 0x3000
  }

  function TrimLeft(s: string): string {
    if s != "" && IsSpace(s[0]) then TrimLeft(s[1..]) else s
  }

  function TrimSpace(s: string): string
    decreases |s|
  {
    if s != "" && IsSpace(s[|s| - 1]) then TrimSpace(s[..|s| - 1]) else TrimLeft(s)
  }

  function TokenLength(s: string): (n: nat)
    ensures n <= |s|
    ensures forall i :: 0 <= i < n ==> !IsSpace(s[i])
    ensures n < |s| ==> IsSpace(s[n])
  {
    if s == "" || IsSpace(s[0]) then 0 else 1 + TokenLength(s[1..])
  }

  /** strings.Fields. */
  function Fields(s: string): seq<string>
    decreases |s|
  {
    if s == "" then []
    else if IsSpace(s[0]) then Fields(s[1..])
    else
      var n := TokenLength(s);
      [s[..n]] + Fields(s[n..])
  }

  predicate IsLocalhostName(d: string) {
    var l := LowerAscii(TrimDot(d));
    l == "localhost" || HasSuffix(l, ".localhost") || l == "localhost.localdomain"
  }

  /** The candidate a line names, before validation: the one field without "*.", or the name
      after a sinkhole address. */
  function Candidate(fields: seq<string>): Option<string> {
    if |fields| == 0 then None
    else if |fields| == 1 then
      Some(if HasPrefix(fields[0], "*.") then fields[0][2..] else fields[0])
    else if fields[0] == "0.0.0.0" || fields[0] == "127.0.0.1" || fields[0] == "::" then
      if fields[1] == "0.0.0.0" then None else Some(fields[1])
    else None
  }

  /** A blank line or a comment is not a candidate for skipping. */
  predicate Counted(line: string) {
    var l := TrimSpace(line);
    l != "" && l[0] != '#'
  }

  function Admit(d: Option<string>): Option<string> {
    if d.Some? && WellFormed(d.value) && !IsLocalhostName(d.value) then d else None
  }

  function LineEntry(line: string): Option<string> {
    if Counted(line) then Admit(Candidate(Fields(TrimSpace(line)))) else None
  }

  /** What one line gives. */
  datatype LineResult = Blank | Skip | Entry(domain: string)

  function ResultOf(line: string): LineResult {
    if !Counted(line) then Blank
    else match LineEntry(line)
         case Some(d) => Entry(d)
         case None => Skip
  }

  lemma EntryIsDomain(line: string)
    requires ResultOf(line).Entry?
    ensures WellFormed(ResultOf(line).domain) && !IsLocalhostName(ResultOf(line).domain)
  {
  }

  function Results(lines: seq<string>): (r: seq<LineResult>)
    ensures |r| == |lines|
  {
    if lines == [] then [] else Results(lines[..|lines| - 1]) + [ResultOf(lines[|lines| - 1])]
  }

  lemma {:induction false} ResultsAt(lines: seq<string>, i: nat)
    requires i < |lines|
    ensures Results(lines)[i] == ResultOf(lines[i])
  {
    var n := |lines| - 1;
    if i < n {
      ResultsAt(lines[..n], i);
    }
  }

  /** The domains, in order, and the number of skipped lines. */
  function Domains(rs: seq<LineResult>): seq<string> {
    if rs == [] then []
    else
      var n := |rs| - 1;
      Domains(rs[..n]) + if rs[n].Entry? then [rs[n].domain] else []
  }

  function Skips(rs: seq<LineResult>): nat {
    if rs == [] then 0 else Skips(rs[..|rs| - 1]) + if rs[|rs| - 1].Skip? then 1 else 0
  }

  function Blanks(rs: seq<LineResult>): nat {
    if rs == [] then 0 else Blanks(rs[..|rs| - 1]) + if rs[|rs| - 1].Blank? then 1 else 0
  }

  /** Every line is blank, skipped or an entry: none is lost, none counts twice. */
  lemma {:induction false} LinesAccountedFor(rs: seq<LineResult>)
    ensures |Domains(rs)| + Skips(rs) + Blanks(rs) == |rs|
  {
    if rs != [] {
      LinesAccountedFor(rs[..|rs| - 1]);
    }
  }

  lemma {:induction false} DomainsComeFromEntries(rs: seq<LineResult>, i: nat)
    requires i < |Domains(rs)|
    ensures exists k :: 0 <= k < |rs| && rs[k] == Entry(Domains(rs)[i])
  {
    var n := |rs| - 1;
    if i < |Domains(rs[..n])| {
      DomainsComeFromEntries(rs[..n], i);
      var k :| 0 <= k < n && rs[..n][k] == Entry(Domains(rs)[i]);
      assert rs[k] == Entry(Domains(rs)[i]);
    } else {
      assert rs[n] == Entry(Domains(rs)[i]);
    }
  }

  /** Every domain a list gives is well formed and no localhost name, whatever the input. */
  lemma EntriesAreDomains(lines: seq<string>, i: nat)
    requires i < |Domains(Results(lines))|
    ensures var d := Domains(Results(lines))[i]; WellFormed(d) && !IsLocalhostName(d)
  {
    var rs := Results(lines);
    DomainsComeFromEntries(rs, i);
    var k :| 0 <= k < |rs| && rs[k] == Entry(Domains(rs)[i]);
    ResultsAt(lines, k);
    EntryIsDomain(lines[k]);
  }

  method ParseHostsFormat(lines: seq<string>) returns (domains: seq<string>, skipped: nat)
    ensures domains == Domains(Results(lines)) && skipped == Skips(Results(lines))
  {
    domains, skipped := [], 0;
    ghost var rs: seq<LineResult> := [];
    for i := 0 to |lines|
      invariant rs == Results(lines[..i]) && domains == Domains(rs) && skipped == Skips(rs)
    {
      assert lines[..i + 1][..i] == lines[..i];
      var n := |domains|;
      var result := ParseLine(lines[i]);
      assert (rs + [result])[..i] == rs;
      rs := rs + [result];
      if result.Blank? {
        continue;
      }
      if result.Entry? {
        domains := domains + [result.domain];
      }
      if |domains| == n {
        skipped := skipped + 1;
      }
    }
    assert lines[..|lines|] == lines;
  }

  method ParseLine(text: string) returns (r: LineResult)
    ensures r == ResultOf(text)
  {
    var line := TrimSpace(text);
    if line == "" || line[0] == '#' {
      return Blank;
    }
    var entry := ParseFields(Fields(line));
    return if entry.Some? then Entry(entry.value) else Skip;
  }

  /** The switch on the number of fields. */
  method ParseFields(fields: seq<string>) returns (entry: Option<string>)
    ensures entry == Admit(Candidate(fields))
  {
    entry := None;
    if |fields| == 1 {
      var d := if HasPrefix(fields[0], "*.") then fields[0][2..] else fields[0];
      var ok := ValidDomain(d);
      if ok && !IsLocalhostName(d) {
        entry := Some(d);
      }
    } else if |fields| > 1 {
      var ip := fields[0];
      if ip == "0.0.0.0" || ip == "127.0.0.1" || ip == "::" {
        var domain := fields[1];
        var ok := ValidDomain(domain);
        if domain != "0.0.0.0" && ok && !IsLocalhostName(domain) {
          entry := Some(domain);
        }
      }
    }
  }

  // ---- What a line says ---------------------------------------------------------

  predicate Spaces(s: string) {
    forall i :: 0 <= i < |s| ==> IsSpace(s[i])
  }

  /** One field: not empty and without white space. */
  predicate Solid(s: string) {
    s != "" && forall i :: 0 <= i < |s| ==> !IsSpace(s[i])
  }

  /** What may follow a field. */
  predicate Apart(t: string) {
    t == "" || IsSpace(t[0])
  }

  lemma {:induction false} FieldsSkip(pre: string, t: string)
    requires Spaces(pre)
    ensures Fields(pre + t) == Fields(t)
  {
    if pre == "" {
      assert pre + t == t;
    } else {
      FieldsSkip(pre[1..], t);
      assert (pre + t)[1..] == pre[1..] + t;
    }
  }

  lemma FieldsTake(d: string, t: string)
    requires Solid(d) && Apart(t)
    ensures Fields(d + t) == [d] + Fields(t)
  {
    var s := d + t;
    var n := TokenLength(s);
    assert forall k :: 0 <= k < |d| ==> s[k] == d[k];
    assert t != "" ==> s[|d|] == t[0];
    assert s[..|d|] == d && s[|d|..] == t;
  }

  lemma {:induction false} FieldsDropEnd(s: string, c: char)
    requires IsSpace(c)
    ensures Fields(s + [c]) == Fields(s)
    decreases |s|
  {
    if s == "" {
      assert s + [c] == [c] && [c][1..] == "";
    } else if IsSpace(s[0]) {
      FieldsDropEnd(s[1..], c);
      assert (s + [c])[1..] == s[1..] + [c];
    } else {
      var n := TokenLength(s);
      FieldsDropEnd(s[n..], c);
      TokenThenEnd(s, n, c);
    }
  }

  /** A space at the end leaves the first field as it is. */
  lemma TokenThenEnd(s: string, n: nat, c: char)
    requires s != "" && !IsSpace(s[0]) && n == TokenLength(s) && IsSpace(c)
    ensures Fields(s + [c]) == [s[..n]] + Fields(s[n..] + [c])
  {
    assert s + [c] == s[..n] + (s[n..] + [c]);
    FieldsTake(s[..n], s[n..] + [c]);
  }

  lemma {:induction false} TrimLeftKeepsFields(s: string)
    ensures Fields(TrimLeft(s)) == Fields(s)
  {
    if s != "" && IsSpace(s[0]) {
      TrimLeftKeepsFields(s[1..]);
    }
  }

  lemma {:induction false} TrimKeepsFields(s: string)
    ensures Fields(TrimSpace(s)) == Fields(s)
    decreases |s|
  {
    if s != "" && IsSpace(s[|s| - 1]) {
      TrimKeepsFields(s[..|s| - 1]);
      FieldsDropEnd(s[..|s| - 1], s[|s| - 1]);
      assert s[..|s| - 1] + [s[|s| - 1]] == s;
    } else {
      TrimLeftKeepsFields(s);
    }
  }

  lemma {:induction false} TrimLeftHead(pre: string, t: string)
    requires Spaces(pre) && t != "" && !IsSpace(t[0])
    ensures TrimLeft(pre + t) == t
  {
    if pre == "" {
      assert pre + t == t;
    } else {
      TrimLeftHead(pre[1..], t);
      assert (pre + t)[1..] == pre[1..] + t;
    }
  }

  lemma {:induction false} TrimHead(pre: string, t: string)
    requires Spaces(pre) && t != "" && !IsSpace(t[0])
    ensures TrimSpace(pre + t) != "" && TrimSpace(pre + t)[0] == t[0]
    decreases |t|
  {
    var s := pre + t;
    if IsSpace(s[|s| - 1]) {
      assert s[..|s| - 1] == pre + t[..|t| - 1];
      TrimHead(pre, t[..|t| - 1]);
    } else {
      TrimLeftHead(pre, t);
    }
  }

  lemma {:induction false} TrimNothing(s: string)
    requires Spaces(s)
    ensures TrimSpace(s) == ""
    decreases |s|
  {
    if s != "" {
      TrimNothing(s[..|s| - 1]);
    }
  }

  /** What a line whose first field begins with c gives: its fields decide, unless it is a comment. */
  lemma LineByFields(pre: string, t: string)
    requires Spaces(pre) && t != "" && !IsSpace(t[0])
    ensures Fields(TrimSpace(pre + t)) == Fields(t)
    ensures Counted(pre + t) <==> t[0] != '#'
  {
    TrimHead(pre, t);
    TrimKeepsFields(pre + t);
    FieldsSkip(pre, t);
  }

  /** The localhost names, in any case and with a root dot or not: "localhost", everything below it,
      and localhost.localdomain. */
  lemma LocalhostMeans(d: string)
    ensures
      var l := LowerAscii(TrimDot(d));
      IsLocalhostName(d) <==> LabelSuffix("localhost", l) || l == "localhost.localdomain"
  {
    var l := LowerAscii(TrimDot(d));
    if HasSuffix(l, ".localhost") {
      var p := |l| - 9;
      assert l[p - 1..][0] == '.' && l[p - 1..][1..] == l[p..] == ".localhost"[1..];
      assert Start(l, p) && l[p..] == "localhost";
    }
    if p :| Start(l, p) && "localhost" == l[p..] {
      if p == 0 {
        assert l[0..] == l;
      } else {
        assert l[p - 1..] == ['.'] + l[p..];
      }
    }
    if l == "localhost" {
      assert Start(l, 0) && l[0..] == "localhost";
    }
  }

  /** Whether a name may go on the list. */
  predicate Listable(d: string) {
    WellFormed(d) && !IsLocalhostName(d)
  }

  /** A line with two fields or more. */
  function Line(pre: string, first: string, sep: string, second: string, rest: string): string {
    pre + (first + (sep + (second + rest)))
  }

  lemma LineOfTwo(pre: string, first: string, sep: string, second: string, rest: string)
    requires Spaces(pre) && Spaces(sep) && sep != "" && Solid(first) && Solid(second) && Apart(rest)
    ensures
      var line := Line(pre, first, sep, second, rest);
      Fields(TrimSpace(line)) == [first, second] + Fields(rest) && (Counted(line) <==> first[0] != '#')
  {
    var t := sep + (second + rest);
    SeparatedField(sep, second, rest);
    FieldsTake(first, t);
    assert (first + t)[0] == first[0];
    LineByFields(pre, first + t);
    assert [first] + ([second] + Fields(rest)) == [first, second] + Fields(rest);
  }

  lemma SeparatedField(sep: string, d: string, rest: string)
    requires Spaces(sep) && sep != "" && Solid(d) && Apart(rest)
    ensures Apart(sep + (d + rest)) && Fields(sep + (d + rest)) == [d] + Fields(rest)
  {
    FieldsTake(d, rest);
    FieldsSkip(sep, d + rest);
    assert (sep + (d + rest))[0] == sep[0];
  }

  lemma ResultOfTwo(line: string, first: string, second: string, more: seq<string>)
    requires Counted(line) && Fields(TrimSpace(line)) == [first, second] + more
    ensures
      var sinkhole := first == "0.0.0.0" || first == "127.0.0.1" || first == "::";
      ResultOf(line) == if sinkhole && Listable(second) && second != "0.0.0.0" then Entry(second) else Skip
  {
  }

  /** A hosts line, with any white space and anything behind the name, gives the name behind its
      sinkhole address; it is skipped when that may not go on the list, or behind another address. */
  lemma HostsLineGives(pre: string, ip: string, sep: string, d: string, rest: string)
    requires Spaces(pre) && Spaces(sep) && sep != "" && Solid(ip) && ip[0] != '#' && Solid(d) && Apart(rest)
    ensures
      var sinkhole := ip == "0.0.0.0" || ip == "127.0.0.1" || ip == "::";
      ResultOf(Line(pre, ip, sep, d, rest)) ==
        if sinkhole && Listable(d) && d != "0.0.0.0" then Entry(d) else Skip
  {
    LineOfTwo(pre, ip, sep, d, rest);
    ResultOfTwo(Line(pre, ip, sep, d, rest), ip, d, Fields(rest));
  }

  /** A line with one field gives that name, without a leading wildcard label. */
  lemma NameLineGives(pre: string, d: string, post: string)
    requires Spaces(pre) && Solid(d) && d[0] != '#' && Spaces(post)
    ensures
      var name := if |d| >= 2 && d[0] == '*' && d[1] == '.' then d[2..] else d;
      ResultOf(pre + (d + post)) == if Listable(name) then Entry(name) else Skip
  {
    LineByFields(pre, d + post);
    FieldsTake(d, post);
    FieldsSkip(post, "");
    assert post + "" == post;
    assert HasPrefix(d, "*.") <==> |d| >= 2 && d[0] == '*' && d[1] == '.';
  }

  /** A blank line and a comment are neither an entry nor skipped. */
  lemma BlankAndComment(pre: string, comment: string)
    requires Spaces(pre)
    ensures ResultOf(pre) == Blank && ResultOf(pre + ("#" + comment)) == Blank
  {
    TrimNothing(pre);
    LineByFields(pre, "#" + comment);
  }

  // ---- What a loaded store can hold -----------------------------------------

  /** Two or more good labels. */
  predicate Dotted(name: string) {
    |Split(name)| >= 2 && AllGood(Split(name))
  }

  /** Lowercasing keeps the character class of each position, so it keeps the scan's verdict. */
  lemma LowerKeepsScan(name: string)
    requires ScanAccepts(name, 0)
    ensures Ascii(name) && ScanAccepts(LowerAscii(name), 0)
  {
    var l := LowerAscii(name);
    LowerAsciiAt(name);
    forall i | 0 <= i < |name| ensures name[i] as int < 0x80 && GoodAt(l, i) {
      assert GoodAt(name, i);
    }
  }

  lemma NormalizedIsDotted(fold: string -> string, d: string)
    requires WellFormed(d)
    ensures Dotted(Blocklist.Normalize(fold, d))
  {
    var name := TrimDot(d);
    ScanIsSplit(name, 0);
    LowerKeepsScan(name);
    LowerAsciiAt(name);
    var l := LowerAscii(name);
    ScanIsSplit(l, 0);
    var i := DotFrom(name, 0);
    assert l[i] == '.';
  }

  /** A name with one label has no dot, so its only label suffix is itself. */
  lemma OneLabel(name: string, p: nat)
    requires |Split(name)| == 1 && Start(name, p)
    ensures p == 0
  {
  }

  /** A reload from any input: every stored entry has two or more non-empty labels, so no
      line, wildcard or not, blocks a top-level domain or the root. */
  method LoadBlocklist(store: Blocklist.Store, lines: seq<string>) returns (skipped: nat)
    requires store.Valid()
    modifies store`blocked
    ensures store.Valid()
    ensures store.blocked == Blocklist.NormalizeAll(store.fold, Domains(Results(lines)))
    ensures forall e :: e in store.blocked ==> Dotted(e) && e != ""
    ensures forall name: string :: |Split(name)| == 1 ==> !Blocklist.Blocks(store.blocked, store.allowlist, name)
    ensures skipped == Skips(Results(lines))
  {
    var domains;
    domains, skipped := ParseHostsFormat(lines);
    store.Replace(domains);
    forall e | e in store.blocked ensures Dotted(e) && e != "" {
      Blocklist.NormalizeAllHolds(store.fold, domains, e);
      var i :| 0 <= i < |domains| && e == Blocklist.Normalize(store.fold, domains[i]);
      EntriesAreDomains(lines, i);
      NormalizedIsDotted(store.fold, domains[i]);
      assert Split("") == [""];
    }
    forall name: string | |Split(name)| == 1
      ensures !Blocklist.Blocks(store.blocked, store.allowlist, name)
    {
      forall p | Start(name, p) ensures name[p..] !in store.blocked {
        OneLabel(name, p);
        assert name[0..] == name;
      }
    }
  }

  /** On a block set that holds only what the loader admits, Explain says "blocked" for exactly the
      names that IsBlocked blocks, for every allowlist and every name. */
  lemma ExplainAgreesWhenLoaded(blocked: set<string>, allow: set<string>, name: string)
    requires forall e :: e in blocked ==> Dotted(e)
    ensures Blocklist.ExplainDecision(blocked, allow, name).Blocked? <==> Blocklist.Blocks(blocked, allow, name)
  {
    Blocklist.ExplainAgreesExactly(blocked, allow, name);
    forall e | e in blocked ensures e != "" && e[|e| - 1] != '.' {
      NoEmptyEnd(e);
    }
    // A name that ends in a dot has no blocked suffix.
    forall p | Blocklist.MatchAt(name, blocked, p) ensures name[|name| - 1] != '.' {
      assert name[p..][|name| - p - 1] == name[|name| - 1];
    }
  }

  /** A dotted name is not empty and does not end in a dot. */
  lemma NoEmptyEnd(e: string)
    requires Dotted(e)
    ensures e != "" && e[|e| - 1] != '.'
  {
    ScanIsSplit(e, 0);
  }
}
