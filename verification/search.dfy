/** The query-log search over what the handler has written. */
module LogSearch {
  import opened QueryRecord
  import opened LogFilter
  import opened Pipeline
  import opened QueryHandler
  import opened Text

  lemma WellFormedRowsNeverMixed(f: Failure, r: Record)
    requires RecordOk(r)
    ensures !MixedRow(f, r)
  {
  }

  /** Names arrive in presentation form, in which every other byte is escaped. */
  predicate AsciiName(step: Step) {
    step.Query? && |step.a.req.question| == 1 ==> Ascii(step.a.req.question[0].name)
  }

  lemma ServeLogsLowercase(c: Config, s: State, a: Arrival)
    requires AsciiName(Query(a)) && forall i :: 0 <= i < |s.log| ==> Lowercase(s.log[i].domain)
    ensures forall i :: 0 <= i < |Serve(c, s, a).log| ==> Lowercase(Serve(c, s, a).log[i].domain)
  {
    var v := Decide(c, s.lists, s.cache.entries, a);
    CountedIsOneQuestion(c, s.lists, s.cache.entries, a);
    if Counted(v) {
      LoweredIsLowercase(c.fold, a.req.question[0].name);
      assert RecordOf(c, v, a.client, Domain(c, a.req)).domain == Domain(c, a.req);
    }
  }

  /** Every domain that the handler logs is lowercase. */
  lemma {:induction false} LogIsLowercase(c: Config, steps: seq<Step>)
    requires forall i :: 0 <= i < |steps| ==> AsciiName(steps[i])
    ensures forall i :: 0 <= i < |After(c, steps).log| ==> Lowercase(After(c, steps).log[i].domain)
  {
    if steps != [] {
      var n := |steps| - 1;
      LogIsLowercase(c, steps[..n]);
      if steps[n].Query? {
        ServeLogsLowercase(c, After(c, steps[..n]), steps[n].a);
      }
    }
  }

  /** After any run, a search selects exactly the logged queries its filter means: the domain has
      the term as a substring, and the outcome is the one the row is labelled with. */
  lemma SearchIsRight(c: Config, steps: seq<Step>, f: QueryFilter, i: nat)
    requires forall k :: 0 <= k < |steps| ==> AsciiName(steps[k])
    requires i < |After(c, steps).log| && Lowercase(ToLower(c.fold, f.domain))
    ensures var r := After(c, steps).log[i]; AllHold(Where(c.fold, f), r) <==> Selects(c.fold, f, r)
  {
    RunAccounts(c, steps);
    LogIsLowercase(c, steps);
    var r := After(c, steps).log[i];
    WellFormedRowsNeverMixed(f.outcome, r);
    WhereAgreesExactly(c.fold, f, r);
  }
}
