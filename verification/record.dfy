/** internal/querylog/logger.go: one query-log entry and the outcomes derived from it. */
module QueryRecord {

  datatype BlockSource = ByName | ByCname

  datatype Record = Record(
    clientIP: string, domain: string, blocked: bool, cacheHit: bool,
    rcode: nat, synthesized: bool, source: BlockSource)
  {
    predicate Unresolved() {
      IsUnresolved(rcode, synthesized)
    }

    predicate UpstreamError() {
      IsUpstreamError(rcode, synthesized)
    }
  }

  const NOERROR: nat := 0
  const SERVFAIL: nat := 2
  const NXDOMAIN: nat := 3
  const NOTIMP: nat := 4
  const REFUSED: nat := 5

  predicate IsUnresolved(rcode: nat, synthesized: bool) {
    synthesized && rcode == SERVFAIL
  }

  predicate IsUpstreamError(rcode: nat, synthesized: bool) {
    !synthesized && (rcode == SERVFAIL || rcode == REFUSED)
  }

  /** query_log.mode. */
  datatype Mode = LogNone | LogBlocked | LogAll

  /** Which queries a mode records. */
  predicate Records(mode: Mode, blocked: bool) {
    mode == LogAll || (mode == LogBlocked && blocked)
  }

  /** What a record of the handler looks like. */
  predicate RecordOk(r: Record) {
    && (r.blocked ==> r.synthesized && !r.cacheHit && (r.rcode == NOERROR || r.rcode == NXDOMAIN))
    && (r.cacheHit ==> !r.synthesized && r.rcode == NOERROR)
    && (r.synthesized ==> r.rcode == NOERROR || r.rcode == NXDOMAIN || r.rcode == SERVFAIL)
  }

  /** QueryRow.Outcome. */
  datatype Outcome = BlockedRow | UnresolvedRow | UpstreamErrorRow | AllowedRow

  function OutcomeOf(r: Record): Outcome {
    if r.blocked then BlockedRow
    else if r.Unresolved() then UnresolvedRow
    else if r.UpstreamError() then UpstreamErrorRow
    else AllowedRow
  }
}
