/** internal/blocklist/store.go: the block set, the allowlist that overrides it, and the
    suffix walk that decides a name. */
module Blocklist {
  import opened Text

  /** The name as the store keeps it: one trailing dot dropped, lowercase. */
  function Normalize(fold: string -> string, d: string): string {
    ToLower(fold, TrimDot(d))
  }

  /** The same letter, ASCII case aside. */
  predicate SameLetter(c: char, d: char) {
    c == d || ('A' <= c <= 'Z' && d as int == c as int + 32) || ('A' <= d <= 'Z' && c as int == d as int + 32)
  }

  predicate SameName(a: string, b: string) {
    |a| == |b| && forall i :: 0 <= i < |a| ==> SameLetter(a[i], b[i])
  }

  lemma SameLetterLowers(c: char, d: char)
    ensures LowerChar(c) == LowerChar(d) <==> SameLetter(c, d)
  {
  }

  /** The store takes two ASCII names for one exactly when they differ in case and in the root dot at
      most. */
  lemma NormalizeMeans(fold: string -> string, a: string, b: string)
    requires Ascii(a) && Ascii(b)
    requires (a != "" ==> a[|a| - 1] != '.') && (b != "" ==> b[|b| - 1] != '.')
    ensures Normalize(fold, a) == Normalize(fold, b) <==> SameName(a, b)
    ensures Normalize(fold, a + ".") == Normalize(fold, a)
  {
    LowerAsciiAt(a);
    LowerAsciiAt(b);
    forall i | 0 <= i < |a| && i < |b| ensures LowerChar(a[i]) == LowerChar(b[i]) <==> SameLetter(a[i], b[i]) {
      SameLetterLowers(a[i], b[i]);
    }
    if SameName(a, b) {
      assert LowerAscii(a) == LowerAscii(b);
    }
    if LowerAscii(a) == LowerAscii(b) {
      forall i | 0 <= i < |a| ensures SameLetter(a[i], b[i]) {
        assert LowerAscii(a)[i] == LowerAscii(b)[i];
      }
    }
    assert TrimDot(a + ".") == a;
  }

  /** normalize: it scans for an upper-case letter first, so a name that is already lowercase is
      returned as it is, and leaves non-ASCII text to the Unicode mapping. */
  method NormalizeName(fold: string -> string, name: string) returns (r: string)
    ensures r == Normalize(fold, name)
  {
    var d := name;
    if |d| > 0 && d[|d| - 1] == '.' {
      d := d[..|d| - 1];
    }
    var hasUpper := false;
    for i := 0 to |d|
      invariant forall k :: 0 <= k < i ==> d[k] as int < 0x80
      invariant hasUpper <==> exists k :: 0 <= k < i && IsUpper(d[k])
    {
      if d[i] as int >= 0x80 {
        return fold(d);
      }
      if IsUpper(d[i]) {
        hasUpper := true;
      }
    }
    if !hasUpper {
      LowerAsciiAt(d);
      assert d == LowerAscii(d);
      return d;
    }
    r := "";
    for i := 0 to |d|
      invariant |r| == i && forall k :: 0 <= k < i ==> r[k] == LowerChar(d[k])
    {
      r := r + [LowerChar(d[i])];
    }
    LowerAsciiAt(d);
    assert r == LowerAscii(d);
  }

  function NormalizeAll(fold: string -> string, ds: seq<string>): set<string> {
    if ds == [] then {}
    else NormalizeAll(fold, ds[..|ds| - 1]) + {Normalize(fold, ds[|ds| - 1])}
  }

  lemma {:induction false} NormalizeAllHolds(fold: string -> string, ds: seq<string>, e: string)
    ensures e in NormalizeAll(fold, ds) <==> exists i :: 0 <= i < |ds| && e == Normalize(fold, ds[i])
  {
    if ds != [] {
      var n := |ds| - 1;
      NormalizeAllHolds(fold, ds[..n], e);
      if i :| 0 <= i < |ds| && e == Normalize(fold, ds[i]) {
        assert i < n ==> e == Normalize(fold, ds[..n][i]);
      }
      if i :| 0 <= i < n && e == Normalize(fold, ds[..n][i]) {
        assert e == Normalize(fold, ds[i]);
      }
    }
  }

  /** The block decision, without a walk: some suffix is blocked and none is allowlisted. */
  ghost predicate Blocks(blocked: set<string>, allow: set<string>, name: string) {
    SuffixIn(name, blocked) && !SuffixIn(name, allow)
  }

  datatype Level = Level(suffix: string, blocked: bool, allowlisted: bool)
  datatype Decision = Blocked | Allowlisted | Allowed
  datatype Explanation = Explanation(
    domain: string, decision: Decision, matchedBlock: string, matchedAllowlist: string, walk: seq<Level>)

  /** The levels of a walk, with the membership of each. */
  function Levels(blocked: set<string>, allow: set<string>, name: string, walk: seq<nat>): seq<Level>
    requires forall i :: 0 <= i < |walk| ==> walk[i] <= |name|
  {
    if walk == [] then []
    else
      var n := |walk| - 1;
      var s := name[walk[n]..];
      Levels(blocked, allow, name, walk[..n]) + [Level(s, s in blocked, s in allow)]
  }

  /** A non-empty suffix of name that is stored starts at p. */
  predicate MatchAt(name: string, entries: set<string>, p: int) {
    Start(name, p) && p < |name| && name[p..] in entries
  }

  /** The first offset at or after p with a match, or -1. */
  function FirstMatch(name: string, entries: set<string>, p: nat): (r: int)
    ensures r < 0 ==> forall q :: p <= q ==> !MatchAt(name, entries, q)
    ensures r >= 0 ==> p <= r && MatchAt(name, entries, r) && forall q :: p <= q < r ==> !MatchAt(name, entries, q)
    decreases |name| - p
  {
    if p >= |name| then -1 else if MatchAt(name, entries, p) then p else FirstMatch(name, entries, p + 1)
  }

  /** The most specific match: the longest non-empty suffix in entries, or "". */
  function MostSpecific(name: string, entries: set<string>): string {
    var p := FirstMatch(name, entries, 0);
    if p < 0 then "" else name[p..]
  }

  /** What Explain decides: the empty entry is invisible to it. */
  ghost function ExplainDecision(blocked: set<string>, allow: set<string>, name: string): Decision {
    if exists p :: MatchAt(name, allow, p) then Allowlisted
    else if exists p :: MatchAt(name, blocked, p) then Blocked
    else Allowed
  }

  class Store {
    const fold: string -> string
    var blocked: set<string>
    var allowlist: set<string>
    var runtime: set<string>

    ghost predicate Valid()
      reads this
    {
      runtime <= allowlist
    }

    constructor (fold: string -> string)
      ensures Valid() && this.fold == fold
      ensures blocked == {} && allowlist == {} && runtime == {}
    {
      this.fold := fold;
      blocked, allowlist, runtime := {}, {}, {};
    }

    method SetAllowlist(domains: seq<string>)
      modifies this
      ensures Valid() && runtime == {} && blocked == old(blocked)
      ensures allowlist == NormalizeAll(fold, domains)
    {
      allowlist, runtime := {}, {};
      for i := 0 to |domains|
        invariant allowlist == NormalizeAll(fold, domains[..i]) && runtime == {} && blocked == old(blocked)
      {
        var d := NormalizeName(fold, domains[i]);
        allowlist := allowlist + {d};
        assert domains[..i + 1][..i] == domains[..i];
      }
      assert domains[..|domains|] == domains;
    }

    method Replace(domains: seq<string>)
      requires Valid()
      modifies this`blocked
      ensures Valid()
      ensures blocked == NormalizeAll(fold, domains)
    {
      var next := {};
      for i := 0 to |domains|
        invariant next == NormalizeAll(fold, domains[..i])
      {
        var d := NormalizeName(fold, domains[i]);
        next := next + {d};
        assert domains[..i + 1][..i] == domains[..i];
      }
      assert domains[..|domains|] == domains;
      blocked := next;
    }

    method IsBlocked(domain: string) returns (r: bool)
      ensures r <==> Blocks(blocked, allowlist, Normalize(fold, domain))
    {
      var name := NormalizeName(fold, domain);
      var p := 0;
      r := false;
      while true
        invariant Start(name, p)
        invariant forall q :: Start(name, q) && q < p ==> name[q..] !in allowlist && (name[q..] in blocked ==> r)
        invariant r ==> SuffixIn(name, blocked)
        decreases |name| - p
      {
        if name[p..] in allowlist {
          return false;
        }
        if !r && name[p..] in blocked {
          r := true;
        }
        var d := DotFrom(name, p);
        if d < 0 {
          return;
        }
        p := d + 1;
      }
    }

    method IsAllowlisted(domain: string) returns (r: bool)
      ensures r <==> SuffixIn(Normalize(fold, domain), allowlist)
    {
      var name := NormalizeName(fold, domain);
      var p := 0;
      while true
        invariant Start(name, p)
        invariant forall q :: Start(name, q) && q < p ==> name[q..] !in allowlist
        decreases |name| - p
      {
        if name[p..] in allowlist {
          return true;
        }
        var d := DotFrom(name, p);
        if d < 0 {
          return false;
        }
        p := d + 1;
      }
    }

    method Explain(domain: string) returns (exp: Explanation)
      ensures
        var name := Normalize(fold, domain);
        && exp.domain == name
        && exp.walk == Levels(blocked, allowlist, name, Walk(name, 0))
        && exp.matchedBlock == MostSpecific(name, blocked)
        && exp.matchedAllowlist == MostSpecific(name, allowlist)
        && exp.decision == ExplainDecision(blocked, allowlist, name)
    {
      var name := NormalizeName(fold, domain);
      var levels, mb, ma := ExplainWalk(name);
      TraceMeans(blocked, allowlist, name, 0, [], []);
      MatchedWhenStored(name, blocked);
      MatchedWhenStored(name, allowlist);
      var decision := if ma != "" then Allowlisted else if mb != "" then Blocked else Allowed;
      exp := Explanation(name, decision, mb, ma, levels);
    }

    /** The loop of Explain. */
    method ExplainWalk(name: string) returns (levels: seq<Level>, mb: string, ma: string)
      ensures (levels, mb, ma) == Trace(blocked, allowlist, name, 0, [], "", "")
    {
      var p := 0;
      levels, mb, ma := [], "", "";
      while true
        invariant p <= |name|
        invariant Trace(blocked, allowlist, name, p, levels, mb, ma) == Trace(blocked, allowlist, name, 0, [], "", "")
        decreases |name| - p
      {
        var cur := name[p..];
        levels := levels + [Level(cur, cur in blocked, cur in allowlist)];
        if cur in blocked && mb == "" {
          mb := cur;
        }
        if cur in allowlist && ma == "" {
          ma := cur;
        }
        var d := DotFrom(name, p);
        if d < 0 {
          break;
        }
        p := d + 1;
      }
    }

    method AddToAllowlist(domain: string)
      requires Valid()
      modifies this`allowlist
      ensures Valid()
      ensures allowlist == old(allowlist) + {Normalize(fold, domain)}
    {
      var d := NormalizeName(fold, domain);
      allowlist := allowlist + {d};
    }

    method AddToAllowlistLimited(domain: string, limit: int) returns (ok: bool)
      requires Valid()
      modifies this`allowlist, this`runtime
      ensures Valid()
      ensures
        var d := Normalize(fold, domain);
        && ok == (d in old(allowlist) || |old(runtime)| < limit)
        && allowlist == old(allowlist) + (if ok then {d} else {})
        && runtime == old(runtime) + (if ok && d !in old(allowlist) then {d} else {})
      ensures |runtime| > |old(runtime)| ==> |runtime| <= limit
    {
      var d := NormalizeName(fold, domain);
      if d in allowlist {
        return true;
      }
      if |runtime| >= limit {
        return false;
      }
      allowlist := allowlist + {d};
      runtime := runtime + {d};
      return true;
    }

    method RemoveFromAllowlist(domain: string)
      requires Valid()
      modifies this`allowlist, this`runtime
      ensures Valid()
      ensures allowlist == old(allowlist) - {Normalize(fold, domain)}
      ensures runtime == old(runtime) - {Normalize(fold, domain)}
      ensures |runtime| <= |old(runtime)|
    {
      var d := NormalizeName(fold, domain);
      allowlist := allowlist - {d};
      ghost var gone := runtime * {d};
      assert runtime == (runtime - {d}) + gone;
      runtime := runtime - {d};
    }
  }

  lemma LevelsSnoc(blocked: set<string>, allow: set<string>, name: string, walk: seq<nat>, p: nat)
    requires p <= |name| && forall i :: 0 <= i < |walk| ==> walk[i] <= |name|
    ensures Levels(blocked, allow, name, walk + [p]) ==
            Levels(blocked, allow, name, walk) + [Level(name[p..], name[p..] in blocked, name[p..] in allow)]
  {
    assert (walk + [p])[..|walk|] == walk;
  }

  lemma VisitStep(name: string, visited: seq<nat>, p: nat)
    requires p <= |name|
    ensures
      var d := DotFrom(name, p);
      visited + Walk(name, p) == visited + [p] + if d < 0 then [] else Walk(name, d + 1)
  {
  }

  lemma MatchedWhenStored(name: string, entries: set<string>)
    ensures MostSpecific(name, entries) != "" <==> exists p :: MatchAt(name, entries, p)
  {
  }

  /** What a walk that has reached p, and not yet read it, has recorded. */
  function Recorded(name: string, entries: set<string>, p: nat): string {
    var q := FirstMatch(name, entries, 0);
    if 0 <= q < p then name[q..] else ""
  }

  lemma RecordStep(name: string, entries: set<string>, p: nat)
    requires Start(name, p)
    ensures
      var m := Recorded(name, entries, p);
      var m' := if name[p..] in entries && m == "" then name[p..] else m;
      var d := DotFrom(name, p);
      m' == if d < 0 then MostSpecific(name, entries) else Recorded(name, entries, d + 1)
  {
    var q, d := FirstMatch(name, entries, 0), DotFrom(name, p);
    assert forall k :: p < k <= (if d < 0 then |name| else d) ==> !Start(name, k);
    if p < |name| && name[p..] in entries {
      assert MatchAt(name, entries, p);
    }
  }

  /** The walk from p with its three accumulators. */
  function Trace(blocked: set<string>, allow: set<string>, name: string, p: nat,
                 levels: seq<Level>, mb: string, ma: string): (seq<Level>, string, string)
    requires p <= |name|
    decreases |name| - p
  {
    var cur := name[p..];
    var levels' := levels + [Level(cur, cur in blocked, cur in allow)];
    var mb' := if cur in blocked && mb == "" then cur else mb;
    var ma' := if cur in allow && ma == "" then cur else ma;
    var d := DotFrom(name, p);
    if d < 0 then (levels', mb', ma') else Trace(blocked, allow, name, d + 1, levels', mb', ma')
  }

  lemma {:induction false} TraceMeans(blocked: set<string>, allow: set<string>, name: string, p: nat,
                                      visited: seq<nat>, levels: seq<Level>)
    requires Start(name, p) && visited + Walk(name, p) == Walk(name, 0)
    requires forall i :: 0 <= i < |visited| ==> visited[i] <= |name|
    requires levels == Levels(blocked, allow, name, visited)
    ensures Trace(blocked, allow, name, p, levels, Recorded(name, blocked, p), Recorded(name, allow, p)) ==
            (Levels(blocked, allow, name, Walk(name, 0)), MostSpecific(name, blocked), MostSpecific(name, allow))
    decreases |name| - p
  {
    var d := DotFrom(name, p);
    LevelsSnoc(blocked, allow, name, visited, p);
    VisitStep(name, visited, p);
    RecordStep(name, blocked, p);
    RecordStep(name, allow, p);
    if d >= 0 {
      TraceMeans(blocked, allow, name, d + 1, visited + [p], Levels(blocked, allow, name, visited + [p]));
    } else {
      assert visited + [p] == Walk(name, 0);
    }
  }

  // ---- Explain against IsBlocked --------------------------------------------

  /** The states in which Explain and IsBlocked disagree: the empty suffix is reached and
      stored, no non-empty suffix is allowlisted, and the empty entry changes the decision. */
  ghost predicate EmptyEntryDecides(blocked: set<string>, allow: set<string>, name: string) {
    && Start(name, |name|)
    && (forall p :: !MatchAt(name, allow, p))
    && (if exists p :: MatchAt(name, blocked, p) then "" in allow else "" in blocked && "" !in allow)
  }

  lemma SplitEmpty(name: string, entries: set<string>)
    ensures SuffixIn(name, entries) <==>
            (exists p :: MatchAt(name, entries, p)) || ("" in entries && Start(name, |name|))
  {
    assert name[|name|..] == "";
    if SuffixIn(name, entries) {
      var p :| Start(name, p) && name[p..] in entries;
      assert p < |name| ==> MatchAt(name, entries, p);
    }
    if p :| MatchAt(name, entries, p) {
      assert Start(name, p);
    }
  }

  /** Explain says "blocked" for exactly the names IsBlocked blocks, unless the empty entry decides. */
  lemma ExplainAgreesExactly(blocked: set<string>, allow: set<string>, name: string)
    ensures (ExplainDecision(blocked, allow, name).Blocked? <==> Blocks(blocked, allow, name))
            <==> !EmptyEntryDecides(blocked, allow, name)
  {
    SplitEmpty(name, blocked);
    SplitEmpty(name, allow);
  }

  /** A root query against a block set that holds "" (from an entry "."): blocked, explained as allowed. */
  lemma ExplainDisagreesOnRoot()
    ensures Blocks({""}, {}, "") && ExplainDecision({""}, {}, "") == Allowed
  {
    assert Start("", 0) && ""[0..] in {""};
  }

  /** A blocked name blocks its whole subtree: a name below it escapes only through an
      allowlist entry that still holds part of the added labels. */
  lemma SubtreeBlocked(blocked: set<string>, allow: set<string>, prefix: string, d: string)
    requires Blocks(blocked, allow, d)
    ensures
      var name := prefix + "." + d;
      Blocks(blocked, allow, name) <==> forall p :: Start(name, p) && p <= |prefix| ==> name[p..] !in allow
  {
    var name := prefix + "." + d;
    var b :| Start(d, b) && d[b..] in blocked;
    StartsOfSubdomain(prefix, d, b + |prefix| + 1);
    assert Start(name, b + |prefix| + 1);
    forall p | Start(name, p) && p > |prefix| ensures name[p..] !in allow {
      StartsOfSubdomain(prefix, d, p);
      assert Start(d, p - |prefix| - 1);
    }
  }
}
