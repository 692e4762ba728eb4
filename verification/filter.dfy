/** internal/querylog/db.go: the filter of the query-log search.  The domain is matched with SQL
    LIKE, so the term is escaped first. */
module LogFilter {
  import opened Text
  import opened QueryRecord
  import opened Wrappers

  // ---- LIKE ---------------------------------------------------------------------------

  /** SQLite compares ASCII letters without case. */
  predicate SameChar(a: char, b: char) {
    LowerChar(a) == LowerChar(b)
  }

  /** LIKE with ESCAPE '\': '%' matches any text, '_' one character, and an escaped character
      itself.  A pattern that ends in the escape character matches nothing. */
  predicate Like(p: string, s: string)
    decreases |p|, |s|
  {
    if p == "" then s == ""
    else if p[0] == '%' then Like(p[1..], s) || (s != "" && Like(p, s[1..]))
    else if p[0] == '_' then s != "" && Like(p[1..], s[1..])
    else if p[0] == '\\' then |p| > 1 && s != "" && SameChar(p[1], s[0]) && Like(p[2..], s[1..])
    else s != "" && SameChar(p[0], s[0]) && Like(p[1..], s[1..])
  }

  /** Why the term is escaped: typed as they are, the two wildcards select every name. */
  lemma {:induction false} WildcardsMatchAll(s: string)
    ensures Like("%", s)
    ensures Like("%%%", s)
    ensures Like("%_%", s) <==> s != ""
  {
    if s != "" {
      WildcardsMatchAll(s[1..]);
    }
    assert "%"[1..] == "" && "%%%"[1..] == "%%" && "%%"[1..] == "%" && "%_%"[1..] == "_%" && "_%"[1..] == "%";
    assert Like("%%", s) && (Like("_%", s) <==> s != "");
  }

  /** An escaped character stands for itself alone. */
  lemma EscapedMatchesItself(c: char, s: string)
    ensures Like(['\\', c], s) <==> |s| == 1 && SameChar(c, s[0])
  {
    assert ['\\', c][2..] == "";
  }

  // ---- escapeLike ---------------------------------------------------------------------------

  /** strings.ReplaceAll of one character by the escape character and itself. */
  function Escaped(c: char, s: string): string {
    if s == "" then "" else EscapedChar(c, s[0]) + Escaped(c, s[1..])
  }

  function EscapedChar(c: char, d: char): string {
    if d == c then ['\\', c] else [d]
  }

  /** The three replacements, the escape character first. */
  function EscapeLike(s: string): string {
    Escaped('_', Escaped('%', Escaped('\\', s)))
  }

  predicate Special(c: char) {
    c == '\\' || c == '%' || c == '_'
  }

  /** One pass over the term. */
  function EscapeOnce(s: string): string {
    if s == "" then "" else (if Special(s[0]) then ['\\', s[0]] else [s[0]]) + EscapeOnce(s[1..])
  }

  lemma {:induction false} EscapedConcat(c: char, s: string, t: string)
    ensures Escaped(c, s + t) == Escaped(c, s) + Escaped(c, t)
  {
    if s == "" {
      assert s + t == t;
    } else {
      EscapedConcat(c, s[1..], t);
      assert (s + t)[1..] == s[1..] + t && (s + t)[0] == s[0];
      Associate(EscapedChar(c, s[0]), Escaped(c, s[1..]), Escaped(c, t));
    }
  }

  lemma Associate(a: string, b: string, c: string)
    ensures a + (b + c) == a + b + c
  {
  }

  lemma EscapedOne(c: char, d: char)
    ensures Escaped(c, [d]) == if d == c then ['\\', c] else [d]
  {
    assert [d][1..] == "";
  }

  lemma EscapedTwo(c: char, d: char, e: char)
    ensures Escaped(c, [d, e]) == Escaped(c, [d]) + Escaped(c, [e])
  {
    EscapedConcat(c, [d], [e]);
    assert [d] + [e] == [d, e];
  }

  /** Escaping the escape character first, the three passes equal one: no pass touches what an
      earlier one wrote. */
  lemma {:induction false} EscapeLikeIsOnePass(s: string)
    ensures EscapeLike(s) == EscapeOnce(s)
  {
    if s != "" {
      var (head, tail) := ([s[0]], s[1..]);
      assert s == head + tail;
      EscapeLikeIsOnePass(tail);
      EscapedConcat('\\', head, tail);
      EscapedConcat('%', Escaped('\\', head), Escaped('\\', tail));
      EscapedConcat('_', Escaped('%', Escaped('\\', head)), Escaped('%', Escaped('\\', tail)));
      EscapeHead(s[0]);
    }
  }

  lemma EscapeHead(c: char)
    ensures EscapeLike([c]) == if Special(c) then ['\\', c] else [c]
  {
    EscapedOne('\\', c);
    EscapedOne('%', c);
    EscapedOne('_', c);
    EscapedOne('%', '\\');
    EscapedOne('_', '\\');
    EscapedOne('_', '%');
    EscapedTwo('%', '\\', '\\');
    EscapedTwo('_', '\\', '\\');
    EscapedTwo('_', '\\', '%');
    assert ['\\'] + ['\\'] == ['\\', '\\'] && ['\\'] + ['%'] == ['\\', '%'];
  }

  // ---- Substring search ---------------------------------------------------------------------

  predicate HasAt(term: string, s: string, i: nat) {
    i + |term| <= |s| && s[i..i + |term|] == term
  }

  ghost predicate Substring(term: string, s: string) {
    exists i: nat :: HasAt(term, s, i)
  }

  predicate Lowercase(s: string) {
    forall i :: 0 <= i < |s| ==> !IsUpper(s[i])
  }

  /** An escaped term followed by '%' matches exactly the texts that start with the term. */
  lemma {:induction false} LikePrefix(term: string, s: string)
    requires Lowercase(term) && Lowercase(s)
    ensures Like(EscapeOnce(term) + "%", s) <==> HasPrefix(s, term)
    decreases |term|
  {
    if term == "" {
      assert EscapeOnce(term) + "%" == "%";
      LikeAnything(s);
    } else {
      var p := EscapeOnce(term) + "%";
      var rest := EscapeOnce(term[1..]) + "%";
      var c := term[0];
      if Special(c) {
        assert p == ['\\', c] + rest;
        assert p[2..] == rest;
      } else {
        assert p == [c] + rest;
        assert p[1..] == rest;
      }
      if s != "" {
        LikePrefix(term[1..], s[1..]);
        assert Like(p, s) <==> SameChar(c, s[0]) && Like(rest, s[1..]);
        PrefixStep(term, s);
      }
    }
  }

  lemma PrefixStep(term: string, s: string)
    requires term != "" && s != ""
    ensures HasPrefix(s, term) <==> s[0] == term[0] && HasPrefix(s[1..], term[1..])
  {
    if HasPrefix(s, term) {
      assert s[..|term|][0] == term[0];
      assert s[1..][..|term| - 1] == s[..|term|][1..];
    }
    if s[0] == term[0] && HasPrefix(s[1..], term[1..]) {
      assert s[..|term|] == [s[0]] + s[1..][..|term| - 1];
      assert term == [term[0]] + term[1..];
    }
  }

  lemma {:induction false} LikeAnything(s: string)
    ensures Like("%", s)
    decreases |s|
  {
    assert "%"[1..] == "";
    if s != "" {
      LikeAnything(s[1..]);
    }
  }

  /** A pattern "%" + q matches exactly when q matches from some place on. */
  lemma {:induction false} LikeAnywhere(q: string, s: string)
    ensures Like("%" + q, s) <==> exists i: nat :: i <= |s| && Like(q, s[i..])
    decreases |s|
  {
    var p := "%" + q;
    assert p[1..] == q && s[0..] == s;
    if s != "" {
      LikeAnywhere(q, s[1..]);
      forall i: nat | i <= |s| - 1 ensures s[1..][i..] == s[i + 1..] {
      }
      if i: nat :| i <= |s| && Like(q, s[i..]) {
        assert i > 0 ==> s[1..][i - 1..] == s[i..];
      }
      if i: nat :| i <= |s[1..]| && Like(q, s[1..][i..]) {
        assert Like(q, s[i + 1..]);
      }
    }
  }

  lemma PrefixOfSuffix(term: string, s: string, i: nat)
    requires i <= |s|
    ensures HasPrefix(s[i..], term) <==> HasAt(term, s, i)
  {
    if i + |term| <= |s| {
      assert s[i..][..|term|] == s[i..i + |term|];
    }
  }

  /** The search finds exactly the domains that contain the term, whatever characters it has. */
  lemma SearchIsSubstring(term: string, domain: string)
    requires Lowercase(term) && Lowercase(domain)
    ensures Like("%" + EscapeLike(term) + "%", domain) <==> Substring(term, domain)
  {
    EscapeLikeIsOnePass(term);
    var q := EscapeOnce(term) + "%";
    assert "%" + EscapeLike(term) + "%" == "%" + q;
    LikeAnywhere(q, domain);
    forall i: nat | i <= |domain| ensures Like(q, domain[i..]) <==> HasAt(term, domain, i) {
      LikePrefix(term, domain[i..]);
      PrefixOfSuffix(term, domain, i);
    }
  }

  /** A lowercased ASCII term is lowercase. */
  lemma LoweredIsLowercase(fold: string -> string, term: string)
    requires Ascii(term)
    ensures Lowercase(ToLower(fold, term))
  {
    LowerAsciiAt(term);
  }

  // ---- QueryFilter.where ----------------------------------------------------------------------

  datatype Failure = AnyOutcome | OnlyUnresolved | OnlyUpstreamError

  datatype QueryFilter = QueryFilter(domain: string, client: string, blocked: Option<bool>, outcome: Failure)

  /** One condition of the WHERE clause, with its bound arguments. */
  datatype Condition =
    | DomainLike(pattern: string)
    | ClientIs(client: string)
    | BlockedIs(blocked: bool)
    | SynthesizedWith(rcode: nat)
    | RelayedWith(rcode: nat, other: nat)

  predicate Holds(cond: Condition, r: Record) {
    match cond
    case DomainLike(p) => Like(p, r.domain)
    case ClientIs(c) => r.clientIP == c
    case BlockedIs(b) => r.blocked == b
    case SynthesizedWith(rcode) => r.synthesized && r.rcode == rcode
    case RelayedWith(x, y) => !r.synthesized && (r.rcode == x || r.rcode == y)
  }

  predicate AllHold(conds: seq<Condition>, r: Record) {
    forall i :: 0 <= i < |conds| ==> Holds(conds[i], r)
  }

  /** What a filter means for a stored row. */
  ghost predicate Selects(fold: string -> string, f: QueryFilter, r: Record) {
    && (f.domain == "" || Substring(ToLower(fold, f.domain), r.domain))
    && (f.client == "" || r.clientIP == f.client)
    && (f.blocked.None? || r.blocked == f.blocked.value)
    && (f.outcome.OnlyUnresolved? ==> OutcomeOf(r) == UnresolvedRow)
    && (f.outcome.OnlyUpstreamError? ==> OutcomeOf(r) == UpstreamErrorRow)
  }

  function When(b: bool, cond: Condition): seq<Condition> {
    if b then [cond] else []
  }

  function Where(fold: string -> string, f: QueryFilter): seq<Condition> {
    When(f.domain != "", DomainLike("%" + EscapeLike(ToLower(fold, f.domain)) + "%"))
    + When(f.client != "", ClientIs(f.client))
    + (if f.blocked.Some? then [BlockedIs(f.blocked.value)] else [])
    + (match f.outcome
       case AnyOutcome => []
       case OnlyUnresolved => [SynthesizedWith(SERVFAIL)]
       case OnlyUpstreamError => [RelayedWith(SERVFAIL, REFUSED)])
  }

  lemma AllHoldConcat(a: seq<Condition>, b: seq<Condition>, r: Record)
    ensures AllHold(a + b, r) <==> AllHold(a, r) && AllHold(b, r)
  {
    if AllHold(a + b, r) {
      assert forall i :: 0 <= i < |a| ==> (a + b)[i] == a[i];
      assert forall i :: 0 <= i < |b| ==> (a + b)[|a| + i] == b[i];
    }
  }

  lemma AllHoldOne(cond: Condition, r: Record)
    ensures AllHold([cond], r) <==> Holds(cond, r)
  {
    assert [cond][0] == cond;
  }

  lemma WhenHolds(b: bool, cond: Condition, r: Record)
    ensures AllHold(When(b, cond), r) <==> !b || Holds(cond, r)
  {
    AllHoldOne(cond, r);
  }

  lemma FourParts(a: seq<Condition>, b: seq<Condition>, c: seq<Condition>, d: seq<Condition>, r: Record)
    ensures AllHold(a + b + c + d, r) <==> AllHold(a, r) && AllHold(b, r) && AllHold(c, r) && AllHold(d, r)
  {
    AllHoldConcat(a, b, r);
    AllHoldConcat(a + b, c, r);
    AllHoldConcat(a + b + c, d, r);
  }

  /** The rows on which the outcome filter and the outcome label differ: a blocked row with a
      failure rcode. */
  predicate MixedRow(f: Failure, r: Record) {
    r.blocked && ((f.OnlyUnresolved? && r.Unresolved()) || (f.OnlyUpstreamError? && r.UpstreamError()))
  }

  lemma OutcomeConditions(f: QueryFilter, conds: seq<Condition>, r: Record)
    requires conds == match f.outcome
                      case AnyOutcome => []
                      case OnlyUnresolved => [SynthesizedWith(SERVFAIL)]
                      case OnlyUpstreamError => [RelayedWith(SERVFAIL, REFUSED)]
    ensures AllHold(conds, r) <==>
            || MixedRow(f.outcome, r)
            || ((f.outcome.OnlyUnresolved? ==> OutcomeOf(r) == UnresolvedRow)
                && (f.outcome.OnlyUpstreamError? ==> OutcomeOf(r) == UpstreamErrorRow))
  {
    AllHoldOne(SynthesizedWith(SERVFAIL), r);
    AllHoldOne(RelayedWith(SERVFAIL, REFUSED), r);
  }

  /** The clause selects the rows the filter means, and the mixed rows that meet its other
      conditions. */
  lemma WhereMeans(fold: string -> string, f: QueryFilter, r: Record)
    requires Lowercase(ToLower(fold, f.domain)) && Lowercase(r.domain)
    ensures AllHold(Where(fold, f), r) <==>
            Selects(fold, f, r) || (MixedRow(f.outcome, r) && Selects(fold, f.(outcome := AnyOutcome), r))
  {
    var term := ToLower(fold, f.domain);
    var a := When(f.domain != "", DomainLike("%" + EscapeLike(term) + "%"));
    var b := When(f.client != "", ClientIs(f.client));
    var c := if f.blocked.Some? then [BlockedIs(f.blocked.value)] else [];
    var d := match f.outcome
      case AnyOutcome => []
      case OnlyUnresolved => [SynthesizedWith(SERVFAIL)]
      case OnlyUpstreamError => [RelayedWith(SERVFAIL, REFUSED)];
    FourParts(a, b, c, d, r);
    WhenHolds(f.domain != "", DomainLike("%" + EscapeLike(term) + "%"), r);
    WhenHolds(f.client != "", ClientIs(f.client), r);
    if f.blocked.Some? {
      AllHoldOne(BlockedIs(f.blocked.value), r);
    }
    SearchIsSubstring(term, r.domain);
    OutcomeConditions(f, d, r);
  }

  /** So the clause agrees with the filter exactly on the rows that are not such. */
  lemma WhereAgreesExactly(fold: string -> string, f: QueryFilter, r: Record)
    requires Lowercase(ToLower(fold, f.domain)) && Lowercase(r.domain)
    ensures (AllHold(Where(fold, f), r) <==> Selects(fold, f, r))
            <==> !(MixedRow(f.outcome, r) && Selects(fold, f.(outcome := AnyOutcome), r))
  {
    WhereMeans(fold, f, r);
  }
}
