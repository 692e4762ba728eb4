/** internal/querylog/db.go: Log, the writer goroutine (run), flush, Purge and Close as a step
    system.  Log may run between any two steps of the writer.  Entries are identified by their
    position in the order of acceptance; the table is the list of the positions stored, oldest
    row first.  What SQLite does (which rows of a flush survive, which step of a purge fails,
    which rows retention prunes) is an input of the step. */
module QueryWriter {
  import opened QueryRecord

  const FLUSH_BATCH_SIZE: nat := 100
  const QUEUE_SIZE: nat := 1000

  /** What became of a handled entry. */
  datatype Fate = Flushed | Discarded

  /** Where the writer is: at the loop head, discarding the queue for a purge it received when
      mark entries were accepted, running the purge, draining after Close, gone. */
  datatype Phase = Loop | Discarding(mark: nat) | Purging(mark: nat) | Draining | Exited

  datatype State = State(
    accepted: seq<Record>, fates: seq<Fate>, batch: seq<Record>, queue: seq<Record>,
    rows: seq<nat>, phase: Phase, closing: bool, dropped: nat, purged: nat)

  const INITIAL := State([], [], [], [], [], Loop, false, 0, 0)

  datatype Step =
    | Log(rec: Record)
    | Receive(kept: set<nat>)
    | Tick(kept: set<nat>)
    | PurgeReceived
    | DiscardOne
    | DiscardEnd
    | PurgeRun(deleted: bool, ok: bool)
    | Prune(keep: set<nat>)
    | Close
    | DoneSeen
    | DrainOne
    | DrainEnd(kept: set<nat>)

  predicate Enabled(s: State, step: Step) {
    match step
    case Log(_) => true
    case Receive(_) => s.phase == Loop && s.queue != []
    case Tick(_) => s.phase == Loop
    case PurgeReceived => s.phase == Loop
    case DiscardOne => s.phase.Discarding? && s.queue != []
    case DiscardEnd => s.phase.Discarding? && s.queue == []
    case PurgeRun(deleted, ok) => s.phase.Purging? && (ok ==> deleted)
    case Prune(_) => !s.phase.Purging?
    case Close => true
    case DoneSeen => s.phase == Loop && s.closing
    case DrainOne => s.phase == Draining && s.queue != []
    case DrainEnd(_) => s.phase == Draining && s.queue == []
  }

  /** n fates of one kind. */
  function Fates(f: Fate, n: nat): (r: seq<Fate>)
    ensures |r| == n && forall i :: 0 <= i < n ==> r[i] == f
  {
    if n == 0 then [] else Fates(f, n - 1) + [f]
  }

  /** The positions of [lo, hi) that are in keep, in order. */
  function Stored(lo: nat, hi: nat, keep: set<nat>): (r: seq<nat>)
    requires lo <= hi
    ensures forall i :: 0 <= i < |r| ==> lo <= r[i] < hi && r[i] in keep
    ensures forall i, j :: 0 <= i < j < |r| ==> r[i] < r[j]
    decreases hi - lo
  {
    if lo == hi then []
    else Stored(lo, hi - 1, keep) + if hi - 1 in keep then [hi - 1] else []
  }

  function Filter(rows: seq<nat>, keep: set<nat>): (r: seq<nat>)
    ensures forall i :: 0 <= i < |r| ==> r[i] in rows && r[i] in keep
    ensures (forall i, j :: 0 <= i < j < |rows| ==> rows[i] < rows[j]) ==>
            (forall i, j :: 0 <= i < j < |r| ==> r[i] < r[j])
  {
    if rows == [] then []
    else
      var n := |rows| - 1;
      Filter(rows[..n], keep) + if rows[n] in keep then [rows[n]] else []
  }

  lemma {:induction false} StoredHas(lo: nat, hi: nat, keep: set<nat>, p: nat)
    requires lo <= hi
    ensures p in Stored(lo, hi, keep) <==> lo <= p < hi && p in keep
    decreases hi - lo
  {
    if lo < hi {
      StoredHas(lo, hi - 1, keep, p);
    }
  }

  lemma {:induction false} FilterHas(rows: seq<nat>, keep: set<nat>, p: nat)
    ensures p in Filter(rows, keep) <==> p in rows && p in keep
  {
    if rows != [] {
      var n := |rows| - 1;
      FilterHas(rows[..n], keep, p);
      assert rows == rows[..n] + [rows[n]];
    }
  }

  /** flush(batch): every entry is handed over once; the rows that survive are kept. */
  function Flush(s: State, kept: set<nat>): State {
    var h := |s.fates|;
    s.(fates := s.fates + Fates(Flushed, |s.batch|), batch := [],
       rows := s.rows + Stored(h, h + |s.batch|, kept))
  }

  function Apply(mode: Mode, s: State, step: Step): State
    requires Enabled(s, step)
  {
    match step
    case Log(rec) =>
      if !Records(mode, rec.blocked) then s
      else if |s.queue| < QUEUE_SIZE then s.(queue := s.queue + [rec], accepted := s.accepted + [rec])
      else s.(dropped := s.dropped + 1)
    case Receive(kept) =>
      var s' := s.(batch := s.batch + [s.queue[0]], queue := s.queue[1..]);
      if |s'.batch| >= FLUSH_BATCH_SIZE then Flush(s', kept) else s'
    case Tick(kept) => if |s.batch| > 0 then Flush(s, kept) else s
    case PurgeReceived =>
      s.(fates := s.fates + Fates(Discarded, |s.batch|), batch := [], phase := Discarding(|s.accepted|))
    case DiscardOne => s.(fates := s.fates + [Discarded], queue := s.queue[1..])
    case DiscardEnd => s.(phase := Purging(s.phase.mark))
    case PurgeRun(deleted, ok) =>
      s.(phase := Loop, rows := if deleted then [] else s.rows, purged := if ok then s.phase.mark else s.purged)
    case Prune(keep) => s.(rows := Filter(s.rows, keep))
    case Close => s.(closing := true)
    case DoneSeen => s.(phase := Draining)
    case DrainOne => s.(batch := s.batch + [s.queue[0]], queue := s.queue[1..])
    case DrainEnd(kept) => (if |s.batch| > 0 then Flush(s, kept) else s).(phase := Exited)
  }

  ghost predicate Reached(mode: Mode, steps: seq<Step>, s: State) {
    if steps == [] then s == INITIAL
    else
      var n := |steps| - 1;
      exists r :: Reached(mode, steps[..n], r) && Enabled(r, steps[n]) && s == Apply(mode, r, steps[n])
  }

  // ---- The invariant --------------------------------------------------------

  /** The accepted entries are, in order, the handled ones, the batch, the queue. */
  ghost predicate Conserved(s: State) {
    && |s.fates| <= |s.accepted|
    && s.accepted[|s.fates|..] == s.batch + s.queue
  }

  /** The table holds flushed entries only, each at most once and in the order of acceptance. */
  ghost predicate TableOk(s: State) {
    && (forall i :: 0 <= i < |s.rows| ==> s.rows[i] < |s.fates| && s.fates[s.rows[i]] == Flushed)
    && (forall i, j :: 0 <= i < j < |s.rows| ==> s.rows[i] < s.rows[j])
  }

  /** Nothing accepted before the last successful purge was received is in reach. */
  ghost predicate PurgeHolds(s: State) {
    && s.purged <= |s.fates|
    && (forall i :: 0 <= i < |s.rows| ==> s.purged <= s.rows[i])
    && (s.phase.Discarding? ==> s.batch == [] && s.purged <= s.phase.mark <= |s.accepted|)
    && (s.phase.Purging? ==> s.batch == [] && s.purged <= s.phase.mark <= |s.fates|)
  }

  ghost predicate Inv(mode: Mode, s: State) {
    && Conserved(s) && TableOk(s) && PurgeHolds(s)
    && |s.queue| <= QUEUE_SIZE
    && (s.phase == Loop ==> |s.batch| < FLUSH_BATCH_SIZE)
    && (forall i :: 0 <= i < |s.accepted| ==> Records(mode, s.accepted[i].blocked))
  }

  lemma ConservedStep(mode: Mode, s: State, step: Step)
    requires Conserved(s) && Enabled(s, step)
    requires s.phase.Discarding? ==> s.batch == []
    ensures Conserved(Apply(mode, s, step))
  {
    match step
    case Log(rec) => LogConserves(s, rec);
    case Receive(kept) => ReceiveConserves(mode, s, kept);
    case DrainOne => MoveOne(s);
    case Tick(kept) => FlushConserves(s, kept);
    case DrainEnd(kept) => FlushConserves(s, kept);
    case PurgeReceived => BatchGone(s);
    case DiscardOne => HeadGone(s);
    case _ =>
  }

  lemma ReceiveConserves(mode: Mode, s: State, kept: set<nat>)
    requires Conserved(s) && Enabled(s, Receive(kept))
    ensures Conserved(Apply(mode, s, Receive(kept)))
  {
    MoveOne(s);
    FlushConserves(s.(batch := s.batch + [s.queue[0]], queue := s.queue[1..]), kept);
  }

  lemma LogConserves(s: State, rec: Record)
    requires Conserved(s)
    ensures Conserved(s.(queue := s.queue + [rec], accepted := s.accepted + [rec]))
  {
    var h := |s.fates|;
    assert (s.accepted + [rec])[h..] == s.accepted[h..] + [rec];
    assert s.batch + s.queue + [rec] == s.batch + (s.queue + [rec]);
  }

  /** The batch leaves with one fate. */
  lemma BatchGone(s: State)
    requires Conserved(s)
    ensures |s.fates| + |s.batch| <= |s.accepted| && s.accepted[|s.fates| + |s.batch|..] == s.queue == [] + s.queue
  {
    var h, b := |s.fates|, |s.batch|;
    assert s.accepted[h + b..] == s.accepted[h..][b..];
    assert (s.batch + s.queue)[b..] == s.queue;
  }

  lemma HeadGone(s: State)
    requires Conserved(s) && s.batch == [] && s.queue != []
    ensures |s.fates| + 1 <= |s.accepted| && s.accepted[|s.fates| + 1..] == s.queue[1..] == [] + s.queue[1..]
  {
    assert s.batch + s.queue == s.queue;
    assert s.accepted[|s.fates| + 1..] == s.accepted[|s.fates|..][1..];
  }

  lemma MoveOne(s: State)
    requires Conserved(s) && s.queue != []
    ensures Conserved(s.(batch := s.batch + [s.queue[0]], queue := s.queue[1..]))
  {
    assert s.batch + s.queue == s.batch + [s.queue[0]] + s.queue[1..];
  }

  lemma FlushConserves(s: State, kept: set<nat>)
    requires Conserved(s)
    ensures Conserved(Flush(s, kept))
  {
    BatchGone(s);
  }

  lemma FlushKeepsTable(s: State, kept: set<nat>)
    requires TableOk(s) && s.purged <= |s.fates| && forall i :: 0 <= i < |s.rows| ==> s.purged <= s.rows[i]
    ensures TableOk(Flush(s, kept))
    ensures forall i :: 0 <= i < |Flush(s, kept).rows| ==> s.purged <= Flush(s, kept).rows[i]
  {
    var t := Flush(s, kept);
    var h := |s.fates|;
    forall i | 0 <= i < |t.rows| ensures t.rows[i] < |t.fates| && t.fates[t.rows[i]] == Flushed
        && s.purged <= t.rows[i] {
      if i < |s.rows| {
        assert t.rows[i] == s.rows[i] && t.fates[s.rows[i]] == s.fates[s.rows[i]];
      } else {
        assert t.rows[i] == Stored(h, h + |s.batch|, kept)[i - |s.rows|];
      }
    }
  }

  lemma SameRows(s: State, t: State)
    requires TableOk(s) && t.rows == s.rows && s.fates <= t.fates
    ensures TableOk(t)
  {
    assert forall p :: 0 <= p < |s.fates| ==> t.fates[p] == s.fates[p];
  }

  lemma PruneKeepsTable(s: State, keep: set<nat>)
    requires TableOk(s) && forall i :: 0 <= i < |s.rows| ==> s.purged <= s.rows[i]
    ensures var t := s.(rows := Filter(s.rows, keep));
            TableOk(t) && forall i :: 0 <= i < |t.rows| ==> s.purged <= t.rows[i]
  {
  }

  lemma ReceiveKeepsTable(mode: Mode, s: State, kept: set<nat>)
    requires TableOk(s) && s.purged <= |s.fates| && forall i :: 0 <= i < |s.rows| ==> s.purged <= s.rows[i]
    requires Enabled(s, Receive(kept))
    ensures
      var t := Apply(mode, s, Receive(kept));
      TableOk(t) && forall i :: 0 <= i < |t.rows| ==> s.purged <= t.rows[i]
  {
    FlushKeepsTable(s.(batch := s.batch + [s.queue[0]], queue := s.queue[1..]), kept);
  }

  lemma StepKeepsTable(mode: Mode, s: State, step: Step)
    requires Inv(mode, s) && Enabled(s, step)
    ensures TableOk(Apply(mode, s, step))
    ensures forall i :: 0 <= i < |Apply(mode, s, step).rows| ==> s.purged <= Apply(mode, s, step).rows[i]
  {
    match step
    case Receive(kept) => ReceiveKeepsTable(mode, s, kept);
    case Tick(kept) => FlushKeepsTable(s, kept);
    case DrainEnd(kept) => FlushKeepsTable(s, kept);
    case Prune(keep) => PruneKeepsTable(s, keep);
    case PurgeRun(_, _) =>
    case _ => OthersKeepRows(mode, s, step);
  }

  lemma OthersKeepRows(mode: Mode, s: State, step: Step)
    requires TableOk(s) && Enabled(s, step)
    requires !step.Receive? && !step.Tick? && !step.DrainEnd? && !step.Prune? && !step.PurgeRun?
    ensures Apply(mode, s, step).rows == s.rows && TableOk(Apply(mode, s, step))
  {
    SameRows(s, Apply(mode, s, step));
  }

  lemma StepKeepsPurge(mode: Mode, s: State, step: Step)
    requires Inv(mode, s) && Enabled(s, step)
    ensures PurgeHolds(Apply(mode, s, step))
  {
    StepKeepsTable(mode, s, step);
    if step.DiscardEnd? {
      assert s.accepted[|s.fates|..] == [];
    }
  }

  lemma StepKeepsInv(mode: Mode, s: State, step: Step)
    requires Inv(mode, s) && Enabled(s, step)
    ensures Inv(mode, Apply(mode, s, step))
  {
    ConservedStep(mode, s, step);
    StepKeepsTable(mode, s, step);
    StepKeepsPurge(mode, s, step);
  }

  /** In every reachable state: every accepted entry has been handed to flush once, or
      discarded once by a purge, or waits in the batch or the queue, in the order of acceptance;
      the batch is below its limit at the loop head; the table is in order, without duplicates;
      the mode's filter holds for everything accepted. */
  lemma {:induction false} ReachedKeepsInv(mode: Mode, steps: seq<Step>, s: State)
    requires Reached(mode, steps, s)
    ensures Inv(mode, s)
  {
    if steps != [] {
      var n := |steps| - 1;
      var r :| Reached(mode, steps[..n], r) && Enabled(r, steps[n]) && s == Apply(mode, r, steps[n]);
      ReachedKeepsInv(mode, steps[..n], r);
      StepKeepsInv(mode, r, steps[n]);
    }
  }

  // ---- What the writer promises ---------------------------------------------

  /** Right after a successful purge the table and the batch are empty, and the queue holds only
      entries accepted after the writer received the purge. */
  lemma PurgeLeavesNothingOld(mode: Mode, steps: seq<Step>, s: State)
    requires Reached(mode, steps, s) && s.phase.Purging?
    ensures
      var t := Apply(mode, s, PurgeRun(true, true));
      var mark := s.phase.mark;
      && t.rows == [] && t.batch == [] && t.purged == mark
      && mark <= |t.accepted| - |t.queue| && t.queue == t.accepted[|t.accepted| - |t.queue|..]
  {
    ReachedKeepsInv(mode, steps, s);
    assert s.batch + s.queue == s.queue;
  }

  /** And from then on: every row, every entry of the batch and every entry of the queue was
      accepted after the last successful purge was received. */
  lemma PurgeLasts(mode: Mode, steps: seq<Step>, s: State)
    requires Reached(mode, steps, s)
    ensures forall i :: 0 <= i < |s.rows| ==> s.purged <= s.rows[i] < |s.accepted|
    ensures s.purged <= |s.accepted| - |s.queue| - |s.batch|
    ensures s.accepted[|s.accepted| - |s.queue| - |s.batch|..] == s.batch + s.queue
  {
    ReachedKeepsInv(mode, steps, s);
  }

  /** purged only moves forward, and only a successful purge moves it. */
  lemma PurgedMovesForward(mode: Mode, steps: seq<Step>, s: State, step: Step)
    requires Reached(mode, steps, s) && Enabled(s, step)
    ensures var t := Apply(mode, s, step);
            t.purged >= s.purged && (t.purged != s.purged ==> step.PurgeRun? && step.ok)
  {
    ReachedKeepsInv(mode, steps, s);
  }

  /** Close loses nothing: when the writer has gone, every entry accepted before its last look
      at the queue has been flushed or was discarded by a purge. */
  lemma CloseFlushesEverything(mode: Mode, steps: seq<Step>, s: State, kept: set<nat>)
    requires Reached(mode, steps, s) && Enabled(s, DrainEnd(kept))
    ensures
      var t := Apply(mode, s, DrainEnd(kept));
      && |t.fates| == |t.accepted| && t.batch == [] && t.queue == []
      && forall i :: |s.fates| <= i < |t.fates| ==> t.fates[i] == Flushed
  {
    ReachedKeepsInv(mode, steps, s);
    ConservedStep(mode, s, DrainEnd(kept));
  }

  lemma StepExtends(mode: Mode, s: State, step: Step)
    requires Enabled(s, step)
    ensures s.fates <= Apply(mode, s, step).fates && s.accepted <= Apply(mode, s, step).accepted
  {
  }

  /** Over every run a fate, once given, never changes: no entry is flushed twice, or flushed
      after a purge discarded it. */
  lemma {:induction false} FatesAreFinal(mode: Mode, steps: seq<Step>, s: State, n: nat) returns (r: State)
    requires Reached(mode, steps, s) && n <= |steps|
    ensures Reached(mode, steps[..n], r) && r.fates <= s.fates && r.accepted <= s.accepted
    decreases |steps|
  {
    if n == |steps| {
      r := s;
      assert steps[..n] == steps;
    } else {
      var m := |steps| - 1;
      var q :| Reached(mode, steps[..m], q) && Enabled(q, steps[m]) && s == Apply(mode, q, steps[m]);
      StepExtends(mode, q, steps[m]);
      r := FatesAreFinal(mode, steps[..m], q, n);
      assert steps[..m][..n] == steps[..n];
    }
  }

  // ---- What is in the table ---------------------------------------------------

  /** The positions that the step flushes and keeps. */
  ghost predicate Inserts(s: State, t: State, step: Step, p: nat) {
    && |s.fates| <= p < |t.fates| && t.fates[p] == Flushed
    && match step
       case Receive(kept) => p in kept
       case Tick(kept) => p in kept
       case DrainEnd(kept) => p in kept
       case _ => false
  }

  /** The step takes the row away: retention does not keep it, or a purge deletes the table. */
  predicate Removes(step: Step, p: nat) {
    match step
    case Prune(keep) => p !in keep
    case PurgeRun(deleted, _) => deleted
    case _ => false
  }

  lemma FlushInserts(s: State, kept: set<nat>, p: nat)
    ensures
      var t := Flush(s, kept);
      p in t.rows <==> p in s.rows || (|s.fates| <= p < |t.fates| && t.fates[p] == Flushed && p in kept)
  {
    StoredHas(|s.fates|, |s.fates| + |s.batch|, kept, p);
  }

  /** A flushed entry is in the table exactly when its flush kept it, and leaves it only when
      retention drops it or a purge deletes everything. */
  lemma RowsAfterStep(mode: Mode, s: State, step: Step, p: nat)
    requires Enabled(s, step)
    ensures
      var t := Apply(mode, s, step);
      p in t.rows <==> (p in s.rows && !Removes(step, p)) || Inserts(s, t, step, p)
  {
    match step
    case Receive(kept) => FlushInserts(s.(batch := s.batch + [s.queue[0]], queue := s.queue[1..]), kept, p);
    case Tick(kept) => FlushInserts(s, kept, p);
    case DrainEnd(kept) => FlushInserts(s, kept, p);
    case Prune(keep) => FilterHas(s.rows, keep, p);
    case _ =>
  }

  /** The flushes and the prunes of the run keep the first n entries, and no purge deletes the table. */
  ghost predicate Keeping(steps: seq<Step>, n: nat) {
    forall i :: 0 <= i < |steps| ==> KeepsFirst(steps[i], n)
  }

  ghost predicate KeepsFirst(step: Step, n: nat) {
    match step
    case Receive(kept) => forall p: nat :: p < n ==> p in kept
    case Tick(kept) => forall p: nat :: p < n ==> p in kept
    case DrainEnd(kept) => forall p: nat :: p < n ==> p in kept
    case Prune(keep) => forall p: nat :: p < n ==> p in keep
    case PurgeRun(deleted, _) => !deleted
    case _ => true
  }

  /** Then the table is exactly the flushed entries. */
  lemma {:induction false} KeptRowsAreFlushed(mode: Mode, steps: seq<Step>, s: State, n: nat)
    requires Reached(mode, steps, s) && |s.accepted| <= n && Keeping(steps, n)
    ensures forall p: nat :: p in s.rows <==> p < |s.fates| && s.fates[p] == Flushed
  {
    if steps != [] {
      var m := |steps| - 1;
      var r :| Reached(mode, steps[..m], r) && Enabled(r, steps[m]) && s == Apply(mode, r, steps[m]);
      StepExtends(mode, r, steps[m]);
      KeptRowsAreFlushed(mode, steps[..m], r, n);
      ReachedKeepsInv(mode, steps, s);
      forall p: nat ensures p in s.rows <==> p < |s.fates| && s.fates[p] == Flushed {
        RowAfterKeeping(mode, r, steps[m], n, p);
      }
    }
  }

  lemma RowAfterKeeping(mode: Mode, s: State, step: Step, n: nat, p: nat)
    requires Enabled(s, step) && KeepsFirst(step, n) && s.fates <= Apply(mode, s, step).fates
    requires |Apply(mode, s, step).fates| <= n
    requires p in s.rows <==> p < |s.fates| && s.fates[p] == Flushed
    ensures
      var t := Apply(mode, s, step);
      p in t.rows <==> p < |t.fates| && t.fates[p] == Flushed
  {
    RowsAfterStep(mode, s, step, p);
  }

  lemma {:induction false} NoPurgeNoDiscard(mode: Mode, steps: seq<Step>, s: State)
    requires Reached(mode, steps, s) && PurgeReceived !in steps
    ensures !s.phase.Discarding? && !s.phase.Purging?
    ensures forall p :: 0 <= p < |s.fates| ==> s.fates[p] == Flushed
  {
    if steps != [] {
      var m := |steps| - 1;
      var r :| Reached(mode, steps[..m], r) && Enabled(r, steps[m]) && s == Apply(mode, r, steps[m]);
      assert steps[m] in steps && forall x :: x in steps[..m] ==> x in steps;
      NoPurgeNoDiscard(mode, steps[..m], r);
      StepDiscardsNothing(mode, r, steps[m]);
    }
  }

  lemma StepDiscardsNothing(mode: Mode, s: State, step: Step)
    requires Enabled(s, step) && step != PurgeReceived && !s.phase.Discarding? && !s.phase.Purging?
    requires forall p :: 0 <= p < |s.fates| ==> s.fates[p] == Flushed
    ensures
      var t := Apply(mode, s, step);
      !t.phase.Discarding? && !t.phase.Purging? && forall p :: 0 <= p < |t.fates| ==> t.fates[p] == Flushed
  {
  }

  /** The writer loses nothing: in a run without purges whose flushes and prunes keep what they are
      given, the table is every accepted entry but those still in the batch or the queue. */
  lemma NothingIsLost(mode: Mode, steps: seq<Step>, s: State)
    requires Reached(mode, steps, s) && PurgeReceived !in steps && Keeping(steps, |s.accepted|)
    ensures forall p: nat :: p in s.rows <==> p < |s.accepted| - |s.queue| - |s.batch|
  {
    ReachedKeepsInv(mode, steps, s);
    KeptRowsAreFlushed(mode, steps, s, |s.accepted|);
    NoPurgeNoDiscard(mode, steps, s);
    assert |s.accepted[|s.fates|..]| == |s.batch + s.queue|;
  }

  // ---- What is accepted, and when it is handled ---------------------------------

  /** What Log was called with, as far as the mode records it. */
  function Recorded(mode: Mode, steps: seq<Step>): seq<Record> {
    if steps == [] then []
    else
      var last := steps[|steps| - 1];
      Recorded(mode, steps[..|steps| - 1]) + if last.Log? && Records(mode, last.rec.blocked) then [last.rec] else []
  }

  /** Every entry that the mode records is accepted or counted as dropped; while none is dropped,
      the accepted ones are exactly those, in order. */
  lemma {:induction false} RunLedger(mode: Mode, steps: seq<Step>, s: State)
    requires Reached(mode, steps, s)
    ensures |s.accepted| + s.dropped == |Recorded(mode, steps)|
    ensures s.dropped == 0 ==> s.accepted == Recorded(mode, steps)
  {
    if steps != [] {
      var m := |steps| - 1;
      var r :| Reached(mode, steps[..m], r) && Enabled(r, steps[m]) && s == Apply(mode, r, steps[m]);
      RunLedger(mode, steps[..m], r);
      StepLedger(mode, r, steps[m]);
    }
  }

  /** The writer is asked to stop, and stops, only once Close has been called. */
  lemma {:induction false} StopsAfterClose(mode: Mode, steps: seq<Step>, s: State)
    requires Reached(mode, steps, s)
    ensures s.closing <==> Close in steps
    ensures s.phase == Draining || s.phase == Exited ==> Close in steps
  {
    if steps != [] {
      var m := |steps| - 1;
      var r :| Reached(mode, steps[..m], r) && Enabled(r, steps[m]) && s == Apply(mode, r, steps[m]);
      StopsAfterClose(mode, steps[..m], r);
      assert steps == steps[..m] + [steps[m]];
      StepCloses(mode, r, steps[m]);
    }
  }

  lemma StepCloses(mode: Mode, s: State, step: Step)
    requires Enabled(s, step)
    ensures
      var t := Apply(mode, s, step);
      && t.closing == (s.closing || step.Close?)
      && (t.phase == Draining || t.phase == Exited ==> s.closing || s.phase == Draining || s.phase == Exited)
  {
  }

  lemma StepLedger(mode: Mode, s: State, step: Step)
    requires Enabled(s, step)
    ensures
      var t := Apply(mode, s, step);
      if step.Log? && Records(mode, step.rec.blocked) then
        || (t.dropped == s.dropped && t.accepted == s.accepted + [step.rec])
        || (t.dropped == s.dropped + 1 && t.accepted == s.accepted)
      else t.dropped == s.dropped && t.accepted == s.accepted
  {
  }

  /** An entry is dropped exactly when the mode records it and a thousand are waiting. */
  lemma DroppedWhenFull(mode: Mode, steps: seq<Step>, s: State, step: Step)
    requires Reached(mode, steps, s) && Enabled(s, step)
    ensures Apply(mode, s, step).dropped > s.dropped
            <==> step.Log? && Records(mode, step.rec.blocked) && |s.queue| == QUEUE_SIZE
  {
    ReachedKeepsInv(mode, steps, s);
  }

  /** A tick hands over everything received so far; a receive hands over exactly when the batch has
      reached its size. */
  lemma HandedOver(mode: Mode, steps: seq<Step>, s: State, kept: set<nat>)
    requires Reached(mode, steps, s) && s.phase == Loop
    ensures
      var t := Apply(mode, s, Tick(kept));
      t.batch == [] && t.fates == s.fates + Fates(Flushed, |s.batch|) && |t.fates| + |t.queue| == |t.accepted|
    ensures s.queue != [] ==>
      var t := Apply(mode, s, Receive(kept));
      |t.batch| == (|s.batch| + 1) % FLUSH_BATCH_SIZE && |t.fates| + |t.batch| + |t.queue| == |t.accepted|
  {
    ReachedKeepsInv(mode, steps, s);
    assert |s.accepted[|s.fates|..]| == |s.batch + s.queue|;
    if s.batch == [] {
      assert s.fates + Fates(Flushed, 0) == s.fates;
    }
  }

  // ---- The writer always gets there ----------------------------------------------

  lemma Extend(mode: Mode, steps: seq<Step>, s: State, step: Step)
    requires Reached(mode, steps, s) && Enabled(s, step)
    ensures Reached(mode, steps + [step], Apply(mode, s, step))
  {
    assert (steps + [step])[..|steps|] == steps;
  }

  /** A run goes on from one state to another without a Log. */
  ghost predicate Leads(mode: Mode, steps: seq<Step>, more: seq<Step>, s: State, t: State) {
    steps <= more && Reached(mode, more, t) && t.accepted == s.accepted
  }

  lemma {:induction false} CanDrain(mode: Mode, steps: seq<Step>, s: State) returns (more: seq<Step>, t: State)
    requires Reached(mode, steps, s) && s.phase == Draining
    ensures Leads(mode, steps, more, s, t) && t.phase == Exited && |t.fates| == |t.accepted|
    decreases |s.queue|
  {
    if s.queue == [] {
      CloseFlushesEverything(mode, steps, s, {});
      Extend(mode, steps, s, DrainEnd({}));
      more, t := steps + [DrainEnd({})], Apply(mode, s, DrainEnd({}));
    } else {
      Extend(mode, steps, s, DrainOne);
      more, t := CanDrain(mode, steps + [DrainOne], Apply(mode, s, DrainOne));
    }
  }

  lemma {:induction false} CanDiscard(mode: Mode, steps: seq<Step>, s: State) returns (more: seq<Step>, t: State)
    requires Reached(mode, steps, s) && s.phase.Discarding?
    ensures Leads(mode, steps, more, s, t) && t.phase == Loop && t.closing == s.closing
    ensures t.rows == [] && t.batch == [] && t.queue == [] && t.purged == s.phase.mark
    decreases |s.queue|
  {
    ReachedKeepsInv(mode, steps, s);
    if s.queue == [] {
      Extend(mode, steps, s, DiscardEnd);
      var u := Apply(mode, s, DiscardEnd);
      Extend(mode, steps + [DiscardEnd], u, PurgeRun(true, true));
      more, t := steps + [DiscardEnd] + [PurgeRun(true, true)], Apply(mode, u, PurgeRun(true, true));
    } else {
      Extend(mode, steps, s, DiscardOne);
      more, t := CanDiscard(mode, steps + [DiscardOne], Apply(mode, s, DiscardOne));
    }
  }

  /** A purge that the loop receives can always run to its end, and then nothing accepted before it
      is left anywhere. */
  lemma PurgeCompletes(mode: Mode, steps: seq<Step>, s: State) returns (more: seq<Step>, t: State)
    requires Reached(mode, steps, s) && s.phase == Loop
    ensures Leads(mode, steps, more, s, t) && t.phase == Loop
    ensures t.rows == [] && t.batch == [] && t.queue == [] && t.purged == |s.accepted|
  {
    Extend(mode, steps, s, PurgeReceived);
    more, t := CanDiscard(mode, steps + [PurgeReceived], Apply(mode, s, PurgeReceived));
  }

  /** Once Close has been called, the writer can always come to its end, whatever it is doing, and
      then every accepted entry has been flushed or was discarded by a purge. */
  lemma CloseCompletes(mode: Mode, steps: seq<Step>, s: State) returns (more: seq<Step>, t: State)
    requires Reached(mode, steps, s) && Close in steps && s.phase != Exited
    ensures Leads(mode, steps, more, s, t) && t.phase == Exited && |t.fates| == |t.accepted|
  {
    StopsAfterClose(mode, steps, s);
    more, t := steps, s;
    if s.phase.Purging? {
      Extend(mode, more, t, PurgeRun(true, true));
      more, t := more + [PurgeRun(true, true)], Apply(mode, t, PurgeRun(true, true));
    } else if s.phase.Discarding? {
      more, t := CanDiscard(mode, more, t);
    }
    if t.phase == Loop {
      Extend(mode, more, t, DoneSeen);
      more, t := more + [DoneSeen], Apply(mode, t, DoneSeen);
    }
    more, t := CanDrain(mode, more, t);
  }

  /** Log and Close never wait, and retention waits for a purge alone. */
  lemma CallersNeverWait(s: State, rec: Record, keep: set<nat>)
    ensures Enabled(s, Log(rec)) && Enabled(s, Close) && (Enabled(s, Prune(keep)) <==> !s.phase.Purging?)
  {
  }
}
