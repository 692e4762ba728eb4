/** internal/dnsserver/handler.go, cname.go and edns.go: what happens to one query. */
module QueryHandler {
  import opened Message
  import opened CacheKey
  import opened Wrappers
  import opened QueryRecord
  import opened Text
  import Blocklist
  import LocalNames
  import ReverseNames
  import ResponseCache
  import Snapshots

  datatype Config = Config(
    fold: string -> string, upstreams: seq<string>, zones: set<string>, codes: Codes, cacheOn: bool, maxSize: nat,
    nxdomain: bool,
    blockTTL: U32, localPTR: bool, cnameInspection: bool, localDomains: seq<string>)

  /** The block set and the allowlist at the moment of a query. */
  datatype Lists = Lists(blocked: set<string>, allow: set<string>)

  /** What forwarding the query gives: no free slot, no upstream that answers, or a reply. */
  datatype Forward = Limited | NoAnswer | Replied(msg: Msg)

  /** A query and what the outside contributes to it: whether its source is on the LAN, the
      masked client, whether it is a PTR query for an own prefix, the upstreams that are on the LAN
      now, the forward, the clock as Get and Set read it, and the cache map's iteration order. */
  datatype Arrival = Arrival(
    onLan: bool, client: string, req: Msg, ownPtr: bool, lan: set<string>, forward: Forward,
    t1: int, t2: int, t3: int, order: seq<string>)

  // ---- Replies ------------------------------------------------------------------------

  const TYPE_A: nat := 1
  const TYPE_AAAA: nat := 28
  const CLASS_IN: nat := 1
  const LOCALHOST_TTL: U32 := 3600

  /** SetRcode: an empty reply to req. */
  function Blank(req: Msg, rcode: nat): Msg {
    Msg(req.id, true, req.opcode, false, false, req.opcode == 0 && req.rd, req.opcode == 0 && req.cd, false, rcode,
        if |req.question| > 0 then [req.question[0]] else [], [], [], [])
  }

  /** The OPT record for the client: its UDP size and DO bit, no options. */
  function ClientOpt(req: Msg): Option<RR> {
    var i := OptIndex(req.extra);
    if i < 0 then None else Some(EdnsRecord(req.extra[i].rrclass, DnssecOk(req.extra[i])))
  }

  /** send, before the reply is fitted to its transport: the client's ID, an OPT record exactly
      when the query had one, and no extended rcode without one. */
  function Finish(opt: Option<RR>, id: nat, m: Msg): Msg {
    var reply := m.(id := id);
    if opt.Some? then if OptIndex(m.extra) < 0 then reply.(extra := m.extra + [opt.value]) else reply
    else if m.rcode > 0xF then reply.(rcode := SERVFAIL)
    else reply
  }

  function Send(req: Msg, m: Msg): Msg {
    Finish(ClientOpt(req), req.id, m)
  }

  function Zeroes(n: nat): seq<nat> {
    seq(n, _ => 0)
  }

  /** writeSinkhole. */
  function Sinkhole(c: Config, req: Msg, q: Question): Msg {
    var base := Blank(req, if c.nxdomain then NXDOMAIN else NOERROR).(authoritative := true);
    if !c.nxdomain && q.qtype == TYPE_A then base.(answer := [RR(q.name, TYPE_A, CLASS_IN, c.blockTTL, Raw(Zeroes(4)))])
    else if !c.nxdomain && q.qtype == TYPE_AAAA then
      base.(answer := [RR(q.name, TYPE_AAAA, CLASS_IN, c.blockTTL, Raw(Zeroes(16)))])
    else base
  }

  /** writeLocalhost. */
  function Loopback(req: Msg, q: Question): Msg {
    var base := Blank(req, NOERROR).(authoritative := true);
    if q.qtype == TYPE_A then base.(answer := [RR(q.name, q.qtype, CLASS_IN, LOCALHOST_TTL, Raw([127, 0, 0, 1]))])
    else if q.qtype == TYPE_AAAA then
      base.(answer := [RR(q.name, q.qtype, CLASS_IN, LOCALHOST_TTL, Raw(Zeroes(15) + [1]))])
    else base
  }

  // ---- The decision ---------------------------------------------------------------------

  /** The ways a query can end. */
  datatype Verdict =
    | Refused
    | Rejected(rcode: nat)
    | LocalPtr
    | LocalHost
    | LocalNx
    | Block(source: BlockSource)
    | Hit(msg: Msg)
    | Unresolved
    | Relayed(msg: Msg)

  function Domain(c: Config, req: Msg): string
    requires |req.question| == 1
  {
    ToLower(c.fold, req.question[0].name)
  }

  /** lanUpstreams: the upstreams on the LAN, in the order of the list. */
  function LanUpstreams(list: seq<string>, lan: set<string>): (r: seq<string>)
    ensures forall k :: 0 <= k < |r| ==> r[k] in lan && r[k] in list
  {
    if list == [] then []
    else
      var n := |list| - 1;
      var rest := LanUpstreams(list[..n], lan);
      assert list[n] in list && forall u :: u in list[..n] ==> u in list;
      if list[n] in lan then rest + [list[n]] else rest
  }

  /** The upstreams a query may go to. */
  function Targets(c: Config, a: Arrival): seq<string>
    requires |a.req.question| == 1
  {
    if LocalNames.Classify(a.req.question[0].qtype, Domain(c, a.req), c.localDomains).LanOnly?
    then LanUpstreams(c.upstreams, a.lan) else c.upstreams
  }

  /** IsBlocked for a name of the handler. */
  ghost predicate NameBlocked(c: Config, lists: Lists, name: string) {
    Blocklist.Blocks(lists.blocked, lists.allow, Blocklist.Normalize(c.fold, name))
  }

  /** What is decided before the cache and the upstreams come in; None when they decide. */
  ghost function Early(c: Config, lists: Lists, a: Arrival): Option<Verdict> {
    if !a.onLan then Some(Refused)
    else if |a.req.question| != 1 then Some(Rejected(SERVFAIL))
    else if a.req.opcode != 0 then Some(Rejected(NOTIMP))
    else if !a.req.rd then Some(Rejected(REFUSED))
    else
      var q := a.req.question[0];
      var domain := Domain(c, a.req);
      if c.localPTR && (ReverseNames.PrivatePtr(c.fold, c.zones, q.qtype, domain) || a.ownPtr) then Some(LocalPtr)
      else
        var kind := LocalNames.Classify(q.qtype, domain, c.localDomains);
        if kind.Localhost? then Some(LocalHost)
        else if kind.NeverResolved? || (kind.LanOnly? && LanUpstreams(c.upstreams, a.lan) == []) then Some(LocalNx)
        else if NameBlocked(c, lists, domain) then Some(Block(ByName))
        else None
  }

  /** A CNAME record whose target is blocked. */
  ghost predicate BadTarget(c: Config, lists: Lists, rr: RR) {
    rr.data.Cname? && NameBlocked(c, lists, rr.data.target)
  }

  /** chainBlocked: an allowlisted name keeps its answer, wherever its chain leads. */
  ghost predicate ChainBlocked(c: Config, lists: Lists, domain: string, m: Msg) {
    && c.cnameInspection && m.rcode == NOERROR && !SuffixIn(Blocklist.Normalize(c.fold, domain), lists.allow)
    && exists i :: 0 <= i < |m.answer| && BadTarget(c, lists, m.answer[i])
  }

  /** stripOPT. */
  function Stripped(m: Msg): Msg {
    m.(extra := WithoutOpt(m.extra))
  }

  function Cached(c: Config, entries: map<string, ResponseCache.Entry>, a: Arrival): Option<Msg> {
    if c.cacheOn then ResponseCache.Lookup(c.codes, entries, a.req, a.t1, a.t2) else None
  }

  /** The end of a query that the cache or an upstream answers. */
  ghost function Late(c: Config, lists: Lists, entries: map<string, ResponseCache.Entry>, a: Arrival): Verdict
    requires |a.req.question| == 1
  {
    var domain := Domain(c, a.req);
    match Cached(c, entries, a)
    case Some(m) => if ChainBlocked(c, lists, domain, m) then Block(ByCname) else Hit(m)
    case None =>
      match a.forward
      case Limited => Unresolved
      case NoAnswer => Unresolved
      case Replied(m) =>
        if ChainBlocked(c, lists, domain, Stripped(m)) then Block(ByCname) else Relayed(Stripped(m))
  }

  lemma EarlyIsOneQuestion(c: Config, lists: Lists, a: Arrival)
    requires Early(c, lists, a) == None
    ensures a.onLan && |a.req.question| == 1 && a.req.opcode == 0 && a.req.rd
  {
  }

  /** ServeDNS as a decision. */
  ghost function Decide(c: Config, lists: Lists, entries: map<string, ResponseCache.Entry>, a: Arrival): Verdict {
    var early := Early(c, lists, a);
    if early.Some? then early.value else Late(c, lists, entries, a)
  }

  /** The calls a query makes to the cache. */
  ghost function CacheAfter(c: Config, lists: Lists, s: ResponseCache.State, a: Arrival): ResponseCache.State {
    if !c.cacheOn || Early(c, lists, a).Some? then s
    else
      var got := ResponseCache.Next(c.codes, c.maxSize, s, ResponseCache.Get(a.req, a.t1, a.t2));
      if Cached(c, s.entries, a).Some? || !a.forward.Replied? then got
      else
        ResponseCache.Next(c.codes, c.maxSize, got,
                           ResponseCache.Set(a.req, Stripped(a.forward.msg), a.t3, a.order))
  }

  // ---- Counters, record and reply of a verdict --------------------------------------------

  /** The counter steps, in program order. */
  function Bumps(v: Verdict): seq<Snapshots.Field> {
    match v
    case Refused => []
    case Rejected(_) => []
    case LocalPtr => [Snapshots.Total, Snapshots.LocalPTR]
    case LocalHost => [Snapshots.Total, Snapshots.LocalName]
    case LocalNx => [Snapshots.Total, Snapshots.LocalName]
    case Block(s) =>
      if s == ByCname then [Snapshots.Total, Snapshots.Blocked, Snapshots.CnameBlocked]
      else [Snapshots.Total, Snapshots.Blocked]
    case Hit(_) => [Snapshots.Total, Snapshots.CacheHit]
    case Unresolved => [Snapshots.Total, Snapshots.ForwardFailure]
    case Relayed(m) =>
      if m.rcode == SERVFAIL || m.rcode == REFUSED then [Snapshots.Total, Snapshots.UpstreamError]
      else [Snapshots.Total]
  }

  predicate Counted(v: Verdict) {
    !v.Refused? && !v.Rejected?
  }

  /** Every counted query is one of the programs whose interleavings the snapshot is safe for. */
  lemma BumpsAreProgram(v: Verdict)
    requires Counted(v)
    ensures Snapshots.Program(Bumps(v))
  {
  }

  /** The query-log record. */
  function RecordOf(c: Config, v: Verdict, client: string, domain: string): Record
    requires Counted(v)
  {
    match v
    case LocalPtr => Record(client, domain, false, false, NXDOMAIN, true, ByName)
    case LocalHost => Record(client, domain, false, false, NOERROR, true, ByName)
    case LocalNx => Record(client, domain, false, false, NXDOMAIN, true, ByName)
    case Block(s) => Record(client, domain, true, false, if c.nxdomain then NXDOMAIN else NOERROR, true, s)
    case Hit(m) => Record(client, domain, false, true, m.rcode, false, ByName)
    case Unresolved => Record(client, domain, false, false, SERVFAIL, true, ByName)
    case Relayed(m) => Record(client, domain, false, false, m.rcode, false, ByName)
  }

  /** The reply before send finishes it. */
  function Draft(c: Config, v: Verdict, req: Msg): Msg
    requires Counted(v) ==> |req.question| == 1
  {
    match v
    case Refused => Blank(req, REFUSED)
    case Rejected(rcode) => Blank(req, rcode)
    case LocalPtr => Blank(req, NXDOMAIN).(authoritative := true)
    case LocalHost => Loopback(req, req.question[0])
    case LocalNx => Blank(req, NXDOMAIN).(authoritative := true)
    case Block(_) => Sinkhole(c, req, req.question[0])
    case Hit(m) => m
    case Unresolved => Blank(req, SERVFAIL)
    case Relayed(m) => m
  }

  /** The REFUSED to a source outside the LAN does not go through send. */
  function ReplyOf(c: Config, v: Verdict, req: Msg): Msg
    requires Counted(v) ==> |req.question| == 1
  {
    if v.Refused? then Draft(c, v, req) else Send(req, Draft(c, v, req))
  }

  lemma CountedIsOneQuestion(c: Config, lists: Lists, entries: map<string, ResponseCache.Entry>, a: Arrival)
    ensures Counted(Decide(c, lists, entries, a)) <==>
            a.onLan && |a.req.question| == 1 && a.req.opcode == 0 && a.req.rd
  {
  }
}
