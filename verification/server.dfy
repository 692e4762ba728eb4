/** internal/dnsserver/handler.go: the handler object, proved to follow the run model. */
module Server {
  import opened Message
  import opened CacheKey
  import opened Wrappers
  import opened QueryRecord
  import opened QueryHandler
  import opened Text
  import Blocklist
  import LocalNames
  import Pipeline
  import ResponseCache
  import ReverseNames
  import Snapshots
  import Stats

  /** lanUpstreams. */
  method FindLanUpstreams(list: seq<string>, lan: set<string>) returns (out: seq<string>)
    ensures out == LanUpstreams(list, lan)
  {
    out := [];
    for i := 0 to |list|
      invariant out == LanUpstreams(list[..i], lan)
    {
      assert list[..i + 1][..i] == list[..i];
      if list[i] in lan {
        out := out + [list[i]];
      }
    }
    assert list[..|list|] == list;
  }

  class Handler {
    const config: Config
    const logMode: Mode
    const store: Blocklist.Store
    const cache: ResponseCache.Cache
    const counter: Stats.Counter
    var log: seq<Record>
    var replies: seq<Msg>

    ghost predicate Valid()
      reads this, store, cache, counter
    {
      && store.fold == config.fold && cache.codes == config.codes && cache.maxSize == config.maxSize
      && "" !in config.zones && counter.Valid()
    }

    ghost function ListsNow(): Lists
      reads this, store
    {
      Lists(store.blocked, store.allowlist)
    }

    ghost function Abs(): Pipeline.State
      reads this, store, cache, counter
    {
      Pipeline.State(ListsNow(), cache.Abs(), counter.counters, log, replies)
    }

    constructor (config: Config, logMode: Mode, store: Blocklist.Store, cache: ResponseCache.Cache,
                 counter: Stats.Counter)
      requires store.fold == config.fold && cache.codes == config.codes && cache.maxSize == config.maxSize
      requires "" !in config.zones && counter.Valid()
      ensures Valid() && log == [] && replies == []
      ensures this.config == config && this.store == store && this.cache == cache && this.counter == counter
    {
      this.config, this.logMode, this.store, this.cache, this.counter := config, logMode, store, cache, counter;
      log, replies := [], [];
    }

    /** recordQuery and tally: the client and the domain reach the tallies only when the query
        log records the query. */
    method RecordQuery(client: string, domain: string, blocked: bool, sort: Stats.Tally -> seq<string>)
      requires counter.Valid() && forall m: Stats.Tally :: Stats.SortedKeys(m, sort(m))
      modifies counter
      ensures counter.Valid()
      ensures counter.counters ==
              Pipeline.Bumped(old(counter.counters),
                              if blocked then [Snapshots.Total, Snapshots.Blocked] else [Snapshots.Total])
      ensures
        var kept := Records(logMode, blocked);
        && Stats.Tallied(old(counter.topClients), client, kept && client != "", counter.topClients)
        && Stats.Tallied(old(counter.topDomains), domain, kept && blocked && domain != "", counter.topDomains)
        && (!kept ==> counter.topClients == old(counter.topClients) && counter.topDomains == old(counter.topDomains))
    {
      var kept := Records(logMode, blocked);
      Pipeline.BumpedMore(counter.counters, Snapshots.Total, Snapshots.Blocked, Snapshots.Total);
      counter.RecordQuery(if kept then client else "", if kept then domain else "", blocked, sort);
    }

    /** Counts, logs and answers a query with the given verdict, in the program's order. */
    method Conclude(v: Verdict, a: Arrival, sort: Stats.Tally -> seq<string>)
      requires Valid() && (Counted(v) ==> |a.req.question| == 1)
      requires forall m: Stats.Tally :: Stats.SortedKeys(m, sort(m))
      modifies this, counter
      ensures Valid() && Abs() == Pipeline.Concluded(config, old(Abs()), old(cache.Abs()), v, a)
    {
      if Counted(v) {
        var domain := ToLower(config.fold, a.req.question[0].name);
        CountVerdict(v, a.client, domain, sort);
        log := log + [RecordOf(config, v, a.client, domain)];
      }
      replies := replies + [ReplyOf(config, v, a.req)];
    }

    /** The total first, then the counter of the outcome. */
    method CountVerdict(v: Verdict, client: string, domain: string, sort: Stats.Tally -> seq<string>)
      requires Valid() && Counted(v)
      requires forall m: Stats.Tally :: Stats.SortedKeys(m, sort(m))
      modifies counter
      ensures counter.Valid() && counter.counters == Pipeline.Bumped(old(counter.counters), Bumps(v))
    {
      var fs := Bumps(v);
      ghost var second := if |fs| > 1 then fs[1] else Snapshots.Total;
      Pipeline.BumpedMore(counter.counters, Snapshots.Total, second, Snapshots.CnameBlocked);
      RecordQuery(client, domain, v.Block?, sort);
      match v
      case Block(source) =>
        if source == ByCname {
          counter.Record(Snapshots.CnameBlocked);
        }
      case LocalPtr => counter.Record(Snapshots.LocalPTR);
      case LocalHost => counter.Record(Snapshots.LocalName);
      case LocalNx => counter.Record(Snapshots.LocalName);
      case Hit(_) => counter.Record(Snapshots.CacheHit);
      case Unresolved => counter.Record(Snapshots.ForwardFailure);
      case Relayed(m) =>
        if m.rcode == SERVFAIL || m.rcode == REFUSED {
          counter.Record(Snapshots.UpstreamError);
        }
    }

    /** chainBlocked. */
    method ChainIsBlocked(domain: string, m: Msg) returns (r: bool)
      requires Valid()
      ensures r <==> ChainBlocked(config, ListsNow(), domain, m)
    {
      if !config.cnameInspection || m.rcode != NOERROR {
        return false;
      }
      var hasCname := false;
      for i := 0 to |m.answer|
        invariant !hasCname && forall k :: 0 <= k < i ==> !m.answer[k].data.Cname?
      {
        if m.answer[i].data.Cname? {
          hasCname := true;
          break;
        }
      }
      var allowed := store.IsAllowlisted(domain);
      if !hasCname || allowed {
        return false;
      }
      for i := 0 to |m.answer|
        invariant forall k :: 0 <= k < i ==> !BadTarget(config, ListsNow(), m.answer[k])
      {
        if m.answer[i].data.Cname? {
          var bad := store.IsBlocked(m.answer[i].data.target);
          if bad {
            return true;
          }
        }
      }
      r := false;
    }

    /** The checks before the cache. */
    method CheckEarly(a: Arrival) returns (r: Option<Verdict>)
      requires Valid()
      ensures r == Early(config, ListsNow(), a)
    {
      if !a.onLan {
        return Some(Refused);
      }
      if |a.req.question| != 1 {
        return Some(Rejected(SERVFAIL));
      }
      if a.req.opcode != 0 {
        return Some(Rejected(NOTIMP));
      }
      if !a.req.rd {
        return Some(Rejected(REFUSED));
      }
      var q := a.req.question[0];
      var domain := ToLower(config.fold, q.name);
      if config.localPTR {
        var private := ReverseNames.IsPrivatePtr(config.fold, config.zones, q.qtype, domain);
        if private || a.ownPtr {
          return Some(LocalPtr);
        }
      }
      var kind := LocalNames.ClassifyName(q.qtype, domain, config.localDomains);
      var upstreams := config.upstreams;
      if kind.LanOnly? {
        upstreams := FindLanUpstreams(config.upstreams, a.lan);
      }
      if kind.Localhost? || kind.NeverResolved? || (kind.LanOnly? && |upstreams| == 0) {
        return Some(if kind.Localhost? then LocalHost else LocalNx);
      }
      var blocked := store.IsBlocked(domain);
      if blocked {
        return Some(Block(ByName));
      }
      r := None;
    }

    /** ServeDNS. */
    method ServeDNS(a: Arrival, sort: Stats.Tally -> seq<string>)
      requires Valid() && forall i :: 0 <= i < |a.order| ==> a.order[i] in cache.entries
      requires forall m: Stats.Tally :: Stats.SortedKeys(m, sort(m))
      modifies this, cache, counter
      ensures Valid() && Abs() == Pipeline.Serve(config, old(Abs()), a)
    {
      CountedIsOneQuestion(config, ListsNow(), cache.entries, a);
      var early := CheckEarly(a);
      if early.Some? {
        Conclude(early.value, a, sort);
        return;
      }
      EarlyIsOneQuestion(config, ListsNow(), a);
      var v := Resolve(a);
      Conclude(v, a, sort);
    }

    /** The cache, then the upstreams; the chain is checked on either answer. */
    method Resolve(a: Arrival) returns (v: Verdict)
      requires Valid() && |a.req.question| == 1 && Early(config, ListsNow(), a) == None
      requires forall i :: 0 <= i < |a.order| ==> a.order[i] in cache.entries
      modifies cache
      ensures v == Late(config, ListsNow(), old(cache.entries), a)
      ensures cache.Abs() == CacheAfter(config, ListsNow(), old(cache.Abs()), a)
    {
      var domain := ToLower(config.fold, a.req.question[0].name);
      if config.cacheOn {
        var cached := cache.Get(a.req, a.t1, a.t2);
        if cached.Some? {
          var blocked := ChainIsBlocked(domain, cached.value);
          return if blocked then Block(ByCname) else Hit(cached.value);
        }
      }
      if !a.forward.Replied? {
        return Unresolved;
      }
      var resp := StripOpt(a.forward.msg);
      if config.cacheOn {
        cache.Set(a.req, resp, a.t3, a.order);
      }
      var blocked := ChainIsBlocked(domain, resp);
      v := if blocked then Block(ByCname) else Relayed(resp);
    }
  }
}
