/** internal/dnsserver/localnames.go: the names that never leave the local network. */
module LocalNames {
  import opened Text

  datatype Class = Public | Localhost | NeverResolved | LanOnly

  const NEVER_RESOLVED: seq<string> := ["invalid.", "onion.", "alt."]

  const LAN_ONLY: seq<string> := [
    "local.", "home.arpa.", "internal.", "test.", "intranet.", "private.", "corp.", "home.", "lan.",
    "localdomain.", "fritz.box."]

  /** underSuffix. */
  predicate Under(name: string, suffix: string) {
    name == suffix || (HasSuffix(name, suffix) && |name| > |suffix| && name[|name| - |suffix| - 1] == '.')
  }

  /** A name is under a suffix exactly when the suffix is one of its label suffixes: "notlan." is
      not under "lan.". */
  lemma UnderIsLabelSuffix(name: string, suffix: string)
    ensures Under(name, suffix) <==> LabelSuffix(suffix, name)
  {
    if name == suffix {
      assert Start(name, 0) && name[0..] == suffix;
    } else if Under(name, suffix) {
      assert Start(name, |name| - |suffix|);
    }
    if LabelSuffix(suffix, name) {
      var p :| Start(name, p) && suffix == name[p..];
      assert p == |name| - |suffix|;
    }
  }

  predicate UnderAny(name: string, suffixes: seq<string>) {
    exists i :: 0 <= i < |suffixes| && Under(name, suffixes[i])
  }

  method FindSuffix(name: string, suffixes: seq<string>) returns (r: bool)
    ensures r <==> UnderAny(name, suffixes)
  {
    for i := 0 to |suffixes|
      invariant forall k :: 0 <= k < i ==> !Under(name, suffixes[k])
    {
      if Under(name, suffixes[i]) {
        return true;
      }
    }
    r := false;
  }

  function SuffixClass(name: string, localDomains: seq<string>): Class {
    if Under(name, "localhost.") then Localhost
    else if UnderAny(name, NEVER_RESOLVED) then NeverResolved
    else if UnderAny(name, LAN_ONLY) || UnderAny(name, localDomains) then LanOnly
    else Public
  }

  /** dns.CountLabel(name) == 1, for a name without escaped dots. */
  predicate SingleLabel(name: string) {
    name != "." && forall i :: 0 <= i < |name| - 1 ==> name[i] != '.'
  }

  /** SOA, NS, DS, DNSKEY, RRSIG, NSEC, NSEC3, NSEC3PARAM, CDS and CDNSKEY. */
  predicate ZoneType(qtype: nat) {
    qtype in {6, 2, 43, 48, 46, 47, 50, 51, 59, 60}
  }

  function Classify(qtype: nat, name: string, localDomains: seq<string>): Class {
    var c := SuffixClass(name, localDomains);
    if c != Public then c
    else if SingleLabel(name) && !ZoneType(qtype) then LanOnly
    else Public
  }

  method ClassifyName(qtype: nat, name: string, localDomains: seq<string>) returns (c: Class)
    ensures c == Classify(qtype, name, localDomains)
  {
    if Under(name, "localhost.") {
      return Localhost;
    }
    var never := FindSuffix(name, NEVER_RESOLVED);
    if never {
      return NeverResolved;
    }
    var lan := FindSuffix(name, LAN_ONLY);
    if lan {
      return LanOnly;
    }
    var local := FindSuffix(name, localDomains);
    if local || (SingleLabel(name) && !ZoneType(qtype)) {
      return LanOnly;
    }
    c := Public;
  }

  // ---- What a class means --------------------------------------------------------

  /** The name is one of the suffixes or below one. */
  ghost predicate BelowOne(name: string, suffixes: seq<string>) {
    exists i :: 0 <= i < |suffixes| && LabelSuffix(suffixes[i], name)
  }

  lemma UnderAnyMeans(name: string, suffixes: seq<string>)
    ensures UnderAny(name, suffixes) <==> BelowOne(name, suffixes)
  {
    forall i | 0 <= i < |suffixes| ensures Under(name, suffixes[i]) <==> LabelSuffix(suffixes[i], name) {
      UnderIsLabelSuffix(name, suffixes[i]);
    }
  }

  /** One label: another one starts nowhere but behind a root dot. */
  ghost predicate OneLabel(name: string) {
    name != "." && forall p :: Start(name, p) ==> p == 0 || p == |name|
  }

  lemma SingleLabelMeans(name: string)
    ensures SingleLabel(name) <==> OneLabel(name)
  {
    if OneLabel(name) {
      forall i | 0 <= i < |name| - 1 ensures name[i] != '.' {
        assert !Start(name, i + 1);
      }
    }
  }

  /** The class of a name, in terms of its label suffixes: localhost before the names that are never
      resolved, these before the local ones, and a single label is local unless a zone is asked for. */
  lemma ClassMeans(qtype: nat, name: string, localDomains: seq<string>)
    ensures
      var c := Classify(qtype, name, localDomains);
      if LabelSuffix("localhost.", name) then c == Localhost
      else if BelowOne(name, NEVER_RESOLVED) then c == NeverResolved
      else if BelowOne(name, LAN_ONLY + localDomains) || (OneLabel(name) && !ZoneType(qtype)) then c == LanOnly
      else c == Public
  {
    UnderIsLabelSuffix(name, "localhost.");
    UnderAnyMeans(name, NEVER_RESOLVED);
    UnderAnyMeans(name, LAN_ONLY);
    UnderAnyMeans(name, localDomains);
    BelowEither(name, LAN_ONLY, localDomains);
    SingleLabelMeans(name);
  }

  lemma BelowEither(name: string, a: seq<string>, b: seq<string>)
    ensures BelowOne(name, a + b) <==> BelowOne(name, a) || BelowOne(name, b)
  {
    if i :| 0 <= i < |a| && LabelSuffix(a[i], name) {
      assert (a + b)[i] == a[i];
    }
    if i :| 0 <= i < |b| && LabelSuffix(b[i], name) {
      assert (a + b)[|a| + i] == b[i];
    }
  }
}
