/** internal/stats/stats.go: the counters of one process and the Top Clients and Top Domains
    tallies, which are cut in half whenever they outgrow their bound. */
module Stats {
  import opened Snapshots

  const MAX_ENTRIES: nat := 4096

  type Tally = map<string, nat>

  function CountOf(m: Tally, k: string): nat {
    if k in m then m[k] else 0
  }

  /** The keys of m, largest count first, ties in any order: what sorting m's entries gives. */
  ghost predicate SortedKeys(m: Tally, keys: seq<string>) {
    && |keys| == |m|
    && (forall i :: 0 <= i < |keys| ==> keys[i] in m)
    && (forall i, j :: 0 <= i < j < |keys| ==> keys[i] != keys[j] && m[keys[i]] >= m[keys[j]])
  }

  /** A pruned tally: half the entries, unchanged, and none dropped with a larger count. */
  ghost predicate Pruned(m: Tally, out: Tally) {
    && |out| == |m| / 2
    && (forall k :: k in out ==> k in m && out[k] == m[k])
    && forall k, d :: k in out && d in m && d !in out ==> m[k] >= m[d]
  }

  /** The entries of the first n keys. */
  function Take(m: Tally, keys: seq<string>, n: nat): Tally
    requires n <= |keys| && forall i :: 0 <= i < |keys| ==> keys[i] in m
  {
    if n == 0 then map[] else Take(m, keys, n - 1)[keys[n - 1] := m[keys[n - 1]]]
  }

  lemma {:induction false} TakeMeans(m: Tally, keys: seq<string>, n: nat)
    requires n <= |keys| && SortedKeys(m, keys)
    ensures forall k :: k in Take(m, keys, n) <==> k in keys[..n]
    ensures forall k :: k in Take(m, keys, n) ==> k in m && Take(m, keys, n)[k] == m[k]
  {
    if n > 0 {
      TakeMeans(m, keys, n - 1);
      assert keys[..n] == keys[..n - 1] + [keys[n - 1]];
    }
  }

  lemma {:induction false} NotTaken(m: Tally, keys: seq<string>, n: nat, i: nat)
    requires n <= i < |keys| && SortedKeys(m, keys)
    ensures keys[i] !in Take(m, keys, n)
  {
    if n > 0 {
      NotTaken(m, keys, n - 1, i);
    }
  }

  lemma {:induction false} TakeSize(m: Tally, keys: seq<string>, n: nat)
    requires n <= |keys| && SortedKeys(m, keys)
    ensures |Take(m, keys, n)| == n
  {
    if n > 0 {
      TakeSize(m, keys, n - 1);
      NotTaken(m, keys, n - 1, n - 1);
      AddOne(Take(m, keys, n - 1), keys[n - 1], m[keys[n - 1]]);
    }
  }

  lemma AddOne(m: Tally, key: string, v: nat)
    ensures |m[key := v]| == |m| + if key in m then 0 else 1
  {
    var m' := m[key := v];
    assert m'.Keys == m.Keys + {key};
    assert |m'| == |m'.Keys| && |m| == |m.Keys|;
  }

  /** Every key of m is among the sorted keys. */
  lemma SortedKeysCover(m: Tally, keys: seq<string>, k: string)
    requires SortedKeys(m, keys) && k in m
    ensures k in keys
  {
    TakeMeans(m, keys, |keys|);
    TakeSize(m, keys, |keys|);
    var all := Take(m, keys, |keys|);
    assert keys[..|keys|] == keys;
    assert all.Keys <= m.Keys && |all.Keys| == |all| && |m.Keys| == |m|;
    if all.Keys != m.Keys {
      SmallerSubset(all.Keys, m.Keys);
    }
  }

  lemma {:induction false} SmallerSubset(a: set<string>, b: set<string>)
    requires a <= b && a != b
    ensures |a| < |b|
  {
    var x :| x in b && x !in a;
    if a != {} {
      var y :| y in a;
      SmallerSubset(a - {y}, b - {y});
    }
  }

  lemma TakeIsPruned(m: Tally, keys: seq<string>)
    requires SortedKeys(m, keys)
    ensures Pruned(m, Take(m, keys, |m| / 2))
  {
    var n := |m| / 2;
    var out := Take(m, keys, n);
    TakeMeans(m, keys, n);
    TakeSize(m, keys, n);
    assert forall j :: 0 <= j < n ==> keys[j] == keys[..n][j] && keys[j] in out;
    forall k, d | k in out && d in m && d !in out ensures m[k] >= m[d] {
      SortedKeysCover(m, keys, d);
      var i :| 0 <= i < n && keys[i] == k;
      var j :| 0 <= j < |keys| && keys[j] == d;
      assert i < j;
    }
  }

  /** pruneBottomHalf, given the sorted keys. */
  method PruneBottomHalf(m: Tally, keys: seq<string>) returns (out: Tally)
    requires SortedKeys(m, keys)
    ensures Pruned(m, out)
  {
    var keep := |keys| / 2;
    out := map[];
    for i := 0 to keep
      invariant out == Take(m, keys, i)
    {
      out := out[keys[i] := m[keys[i]]];
    }
    TakeIsPruned(m, keys);
  }

  // ---- There is a sort ----------------------------------------------------------------------

  lemma {:induction false} LargestExists(m: Tally, keys: set<string>)
    requires keys != {} && keys <= m.Keys
    ensures exists k :: Largest(m, keys, k)
  {
    var x :| x in keys;
    var rest := keys - {x};
    assert keys == rest + {x};
    if rest == {} {
      assert Largest(m, keys, x);
    } else {
      LargestExists(m, rest);
      var y :| Largest(m, rest, y);
      assert Largest(m, keys, if m[y] >= m[x] then y else x);
    }
  }

  ghost predicate Largest(m: Tally, keys: set<string>, k: string)
    requires keys <= m.Keys
  {
    k in keys && forall j :: j in keys ==> m[j] <= m[k]
  }

  /** The keys of a set, largest count first. */
  ghost function SortKeys(m: Tally, keys: set<string>): seq<string>
    requires keys <= m.Keys
    decreases |keys|
  {
    if keys == {} then []
    else
      var k := Pick(m, keys);
      [k] + SortKeys(m, keys - {k})
  }

  ghost function Pick(m: Tally, keys: set<string>): (k: string)
    requires keys != {} && keys <= m.Keys
    ensures Largest(m, keys, k)
  {
    LargestExists(m, keys);
    var k :| Largest(m, keys, k);
    k
  }

  /** All different keys of m, by falling count. */
  ghost predicate Falling(m: Tally, s: seq<string>) {
    forall i, j :: 0 <= i < j < |s| ==> s[i] != s[j] && s[i] in m && s[j] in m && m[s[i]] >= m[s[j]]
  }

  lemma FallingFrom(m: Tally, k: string, rest: seq<string>)
    requires Falling(m, rest) && k in m && forall j :: j in rest ==> j != k && j in m && m[j] <= m[k]
    ensures Falling(m, [k] + rest)
  {
    assert forall j :: 0 <= j < |rest| ==> rest[j] in rest;
  }

  lemma {:induction false} SortKeysSorts(m: Tally, keys: set<string>)
    requires keys <= m.Keys
    ensures
      var s := SortKeys(m, keys);
      |s| == |keys| && (forall k :: k in s <==> k in keys) && Falling(m, s)
    decreases |keys|
  {
    if keys != {} {
      var k := Pick(m, keys);
      SortKeysSorts(m, keys - {k});
      FallingFrom(m, k, SortKeys(m, keys - {k}));
    }
  }

  /** So the sort that counting takes exists. */
  lemma SortExists(m: Tally)
    ensures SortedKeys(m, SortKeys(m, m.Keys))
  {
    SortKeysSorts(m, m.Keys);
    var s := SortKeys(m, m.Keys);
    assert |m.Keys| == |m|;
    forall i | 0 <= i < |s| ensures s[i] in m {
      assert s[i] in s;
    }
  }

  lemma SortFunctionExists() returns (sort: Tally -> seq<string>)
    ensures forall m: Tally :: SortedKeys(m, sort(m))
  {
    sort := (m: Tally) => SortKeys(m, m.Keys);
    forall m: Tally ensures SortedKeys(m, sort(m)) {
      SortExists(m);
    }
  }

  // ---- Counting -----------------------------------------------------------------------------

  /** One tally: bump, then prune when over the bound. */
  method CountKey(m: Tally, key: string, counts: bool, sort: Tally -> seq<string>) returns (out: Tally)
    requires |m| <= MAX_ENTRIES && forall m: Tally :: SortedKeys(m, sort(m))
    ensures |out| <= MAX_ENTRIES && Tallied(m, key, counts, out)
  {
    out := m;
    if counts {
      AddOne(out, key, CountOf(out, key) + 1);
      out := out[key := CountOf(out, key) + 1];
    }
    if |out| > MAX_ENTRIES {
      out := PruneBottomHalf(out, sort(out));
    }
  }

  class Counter {
    var counters: Counters
    var topClients: Tally
    var topDomains: Tally

    ghost predicate Valid()
      reads this
    {
      |topClients| <= MAX_ENTRIES && |topDomains| <= MAX_ENTRIES
    }

    constructor ()
      ensures Valid() && counters == Counters(0, 0, 0, 0, 0, 0, 0, 0)
    {
      counters, topClients, topDomains := Counters(0, 0, 0, 0, 0, 0, 0, 0), map[], map[];
    }

    /** RecordQuery.  sort gives the sorted keys of a tally. */
    method RecordQuery(client: string, domain: string, blocked: bool, sort: Tally -> seq<string>)
      requires Valid() && forall m: Tally :: SortedKeys(m, sort(m))
      modifies this
      ensures Valid()
      ensures counters == if blocked then old(counters).Inc(Total).Inc(Blocked) else old(counters).Inc(Total)
      ensures Tallied(old(topClients), client, client != "", topClients)
      ensures Tallied(old(topDomains), domain, blocked && domain != "", topDomains)
    {
      counters := counters.Inc(Total);
      if blocked {
        counters := counters.Inc(Blocked);
      }
      topClients := CountKey(topClients, client, client != "", sort);
      topDomains := CountKey(topDomains, domain, blocked && domain != "", sort);
    }

    /** The other Record methods: one counter each. */
    method Record(f: Field)
      requires Valid()
      modifies this`counters
      ensures Valid() && counters == old(counters).Inc(f)
    {
      counters := counters.Inc(f);
    }

    method ResetTallies()
      modifies this
      ensures Valid() && topClients == map[] && topDomains == map[] && counters == old(counters)
    {
      topClients, topDomains := map[], map[];
    }
  }

  /** A tally after one query: counted if it is to be, and pruned only when it is over the bound. */
  ghost predicate Tallied(m: Tally, key: string, counts: bool, out: Tally) {
    var m' := if counts then m[key := CountOf(m, key) + 1] else m;
    if |m'| > MAX_ENTRIES then Pruned(m', out) else out == m'
  }

  /** out is a tally that counting the keys one after the other can give. */
  ghost predicate TallyRun(keys: seq<string>, out: Tally)
    decreases |keys|
  {
    if keys == [] then out == map[]
    else
      var n := |keys| - 1;
      var before := keys[..n];
      exists m: Tally :: TallyRun(before, m) && Tallied(m, keys[n], keys[n] != "", out)
  }

  /** Over any run a tally stays within its bound, and a count it shows is never too high. */
  lemma {:induction false} TallyRunBounded(keys: seq<string>, out: Tally)
    requires TallyRun(keys, out)
    ensures |out| <= MAX_ENTRIES
    ensures forall k :: k in out ==> 0 < out[k] <= Occurrences(keys, k)
  {
    if keys != [] {
      var n := |keys| - 1;
      var m: Tally :| TallyRun(keys[..n], m) && Tallied(m, keys[n], keys[n] != "", out);
      TallyRunBounded(keys[..n], m);
      AddOne(m, keys[n], CountOf(m, keys[n]) + 1);
    }
  }

  function Occurrences(keys: seq<string>, k: string): nat {
    if keys == [] then 0 else Occurrences(keys[..|keys| - 1], k) + if keys[|keys| - 1] == k then 1 else 0
  }

  /** The keys that are counted. */
  function Distinct(keys: seq<string>): set<string> {
    set k | k in keys && k != ""
  }

  lemma OccursIn(keys: seq<string>, k: string)
    ensures Occurrences(keys, k) > 0 <==> k in keys
  {
    if keys != [] {
      var n := |keys| - 1;
      OccursIn(keys[..n], k);
      assert keys == keys[..n] + [keys[n]];
    }
  }

  /** While there are no more than 4,096 different keys, the tally is exact. */
  lemma {:induction false} TallyIsExact(keys: seq<string>, out: Tally)
    requires TallyRun(keys, out) && |Distinct(keys)| <= MAX_ENTRIES
    ensures out.Keys == Distinct(keys)
    ensures forall k :: k in out ==> out[k] == Occurrences(keys, k)
  {
    if keys != [] {
      var n := |keys| - 1;
      var m: Tally :| TallyRun(keys[..n], m) && Tallied(m, keys[n], keys[n] != "", out);
      DistinctSnoc(keys);
      SubsetSize(Distinct(keys[..n]), Distinct(keys));
      TallyIsExact(keys[..n], m);
      OneMoreKept(keys, m, out);
      OneMoreExact(keys, m, out);
    }
  }

  lemma DistinctSnoc(keys: seq<string>)
    requires keys != []
    ensures Distinct(keys) ==
            Distinct(keys[..|keys| - 1]) + if keys[|keys| - 1] != "" then {keys[|keys| - 1]} else {}
  {
    assert keys == keys[..|keys| - 1] + [keys[|keys| - 1]];
  }

  lemma SubsetSize(a: set<string>, b: set<string>)
    requires a <= b
    ensures |a| <= |b|
  {
    if a != b {
      SmallerSubset(a, b);
    }
  }

  /** A tally of all keys so far is not pruned by one more. */
  lemma OneMoreKept(keys: seq<string>, m: Tally, out: Tally)
    requires keys != [] && |Distinct(keys)| <= MAX_ENTRIES && m.Keys == Distinct(keys[..|keys| - 1])
    requires Tallied(m, keys[|keys| - 1], keys[|keys| - 1] != "", out)
    ensures
      var key := keys[|keys| - 1];
      out.Keys == Distinct(keys) && out == if key != "" then m[key := CountOf(m, key) + 1] else m
  {
    var key := keys[|keys| - 1];
    DistinctSnoc(keys);
    var m' := if key != "" then m[key := CountOf(m, key) + 1] else m;
    assert m'.Keys == Distinct(keys) && |m'| == |m'.Keys|;
  }

  lemma OneMoreExact(keys: seq<string>, m: Tally, out: Tally)
    requires keys != [] && m.Keys == Distinct(keys[..|keys| - 1])
    requires forall k :: k in m ==> m[k] == Occurrences(keys[..|keys| - 1], k)
    requires var key := keys[|keys| - 1]; out == if key != "" then m[key := CountOf(m, key) + 1] else m
    ensures forall k :: k in out ==> out[k] == Occurrences(keys, k)
  {
    OccursIn(keys[..|keys| - 1], keys[|keys| - 1]);
  }
}
