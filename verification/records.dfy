/** internal/cache/cache.go, the copies: records are shared objects whose TTL is changed in place,
    and the cache copies them on the way in and on the way out.  One section of a message stands
    for the three. */
module SharedRecords {
  import opened Message
  import opened ResponseCache
  import opened Wrappers

  /** A record on the heap. */
  class Shared {
    const head: RR
    var ttl: U32

    constructor (rr: RR)
      ensures Value() == rr
    {
      head, ttl := rr, rr.ttl;
    }

    function Value(): RR
      reads this
    {
      head.(ttl := ttl)
    }
  }

  ghost predicate Distinct(rs: seq<Shared>) {
    forall i, j :: 0 <= i < j < |rs| ==> rs[i] != rs[j]
  }

  /** dns.Msg.Copy, one section: new objects with the same values. */
  method Copy(rs: seq<Shared>) returns (out: seq<Shared>)
    ensures |out| == |rs| && Distinct(out) && fresh(out)
    ensures forall k :: 0 <= k < |rs| ==> out[k].Value() == rs[k].Value()
  {
    out := [];
    for i := 0 to |rs|
      invariant |out| == i && Distinct(out) && fresh(out)
      invariant forall k :: 0 <= k < i ==> out[k].Value() == rs[k].Value()
    {
      var r := new Shared(rs[i].Value());
      out := out + [r];
    }
  }

  /** decrementTTLs in place. */
  method Decrement(rs: seq<Shared>, elapsed: U32)
    requires Distinct(rs)
    modifies rs
    ensures forall k :: 0 <= k < |rs| ==> rs[k].Value() == Aged(old(rs[k].Value()), elapsed)
  {
    for i := 0 to |rs|
      invariant forall k :: 0 <= k < i ==> rs[k].Value() == Aged(old(rs[k].Value()), elapsed)
      invariant forall k :: i <= k < |rs| ==> rs[k].ttl == old(rs[k].ttl)
    {
      var r := rs[i];
      if r.head.rrtype != OPT {
        r.ttl := if r.ttl > elapsed then r.ttl - elapsed else 0;
      }
    }
  }

  /** capTTLs in place. */
  method Lower(rs: seq<Shared>)
    requires Distinct(rs)
    modifies rs
    ensures forall k :: 0 <= k < |rs| ==> rs[k].Value() == Capped(old(rs[k].Value()))
  {
    for i := 0 to |rs|
      invariant forall k :: 0 <= k < i ==> rs[k].Value() == Capped(old(rs[k].Value()))
      invariant forall k :: i <= k < |rs| ==> rs[k].ttl == old(rs[k].ttl)
    {
      var r := rs[i];
      if r.head.rrtype != OPT && r.ttl > MAX_TTL {
        r.ttl := MAX_TTL;
      }
    }
  }

  /** The records that the cache holds, whatever their keys mean. */
  class Shelf {
    var entries: map<string, seq<Shared>>
    /** The records the cache owns. */
    ghost var owned: set<Shared>

    ghost predicate Valid()
      reads this
    {
      forall k, i :: k in entries && 0 <= i < |entries[k]| ==> entries[k][i] in owned
    }

    constructor ()
      ensures Valid() && entries == map[] && owned == {}
    {
      entries, owned := map[], {};
    }

    /** Get changes nothing that existed before: what it returns is new, and the caller's. */
    method Get(k: string, elapsed: U32) returns (out: Option<seq<Shared>>)
      ensures out.Some? <==> k in entries
      ensures out.Some? ==>
                && fresh(out.value) && |out.value| == |entries[k]|
                && forall i :: 0 <= i < |entries[k]| ==> out.value[i].Value() == Aged(entries[k][i].Value(), elapsed)
    {
      if k !in entries {
        return None;
      }
      var copy := Copy(entries[k]);
      Decrement(copy, elapsed);
      out := Some(copy);
    }

    /** Set keeps new records: the caller's stay as they are and are not shared. */
    method Set(k: string, msg: seq<Shared>)
      requires Valid()
      modifies this
      ensures Valid() && fresh(owned - old(owned)) && old(owned) <= owned
      ensures k in entries && entries == old(entries)[k := entries[k]] && |entries[k]| == |msg|
      ensures forall i :: 0 <= i < |msg| ==> fresh(entries[k][i]) && entries[k][i].Value() == Capped(msg[i].Value())
    {
      var stored := Copy(msg);
      Lower(stored);
      entries := entries[k := stored];
      owned := owned + (set i | 0 <= i < |stored| :: stored[i]);
    }
  }

  /** After a Get, whatever the client does to what it got, no record of the cache has changed. */
  method GetThenWrite(c: Shelf, k: string, elapsed: U32, ttl: U32)
    requires c.Valid()
    ensures c.Valid() && c.entries == old(c.entries) && c.owned == old(c.owned)
    ensures forall r :: r in c.owned ==> r.Value() == old(r.Value())
  {
    var out := c.Get(k, elapsed);
    if out.Some? {
      Overwrite(out.value, ttl);
    }
  }

  /** After a Set, whatever the caller does to the message it gave, the cache keeps the records as
      they were when it was called. */
  method SetThenWrite(c: Shelf, k: string, msg: seq<Shared>, ttl: U32)
    requires c.Valid() && forall i :: 0 <= i < |msg| ==> msg[i] !in c.owned
    modifies c, msg
    ensures c.Valid() && k in c.entries && |c.entries[k]| == |msg|
    ensures forall i :: 0 <= i < |msg| ==> c.entries[k][i].Value() == Capped(old(msg[i].Value()))
    ensures forall r :: r in old(c.owned) ==> r.Value() == old(r.Value())
  {
    c.Set(k, msg);
    Overwrite(msg, ttl);
  }

  /** Some change to the TTLs of records. */
  method Overwrite(rs: seq<Shared>, ttl: U32)
    modifies rs
    ensures forall i :: 0 <= i < |rs| ==> rs[i].ttl == ttl
  {
    for i := 0 to |rs|
      invariant forall k :: 0 <= k < i ==> rs[k].ttl == ttl
    {
      rs[i].ttl := ttl;
    }
  }
}
