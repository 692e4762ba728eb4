/** cmd/s-hole/main.go, newReloadFn: the single-flight reload gate.  Any number of callers
    request reloads while worker goroutines run passes.  A critical section is two steps: it
    looks at closed and at the context with the mutex held, and then it acts and unlocks.  The
    cancellation of the context does not take the mutex, so it can fall between the two.  The
    trace records what happened, in order. */
module ReloadGate {

  /** Where a worker goroutine is: about to call work, inside it, back from it and about to
      take the mutex, past the loop and about to call wg.Done, gone. */
  datatype Worker = Starting | Passing | Checking | Leaving | Gone

  datatype Answer = Started | Queued | Refused

  datatype Event =
    | Looked(open: bool) | Requested(answer: Answer) | PassBegan | PassEnded | Checked(again: bool)
    | Stopped | Cancelled

  /** Who holds the mutex, with what its look found. */
  datatype Section = Free | Requester(open: bool) | Checker(w: nat, again: bool)

  datatype State = State(
    running: bool, queued: bool, closed: bool, cancelled: bool, section: Section,
    wg: nat, workers: seq<Worker>, trace: seq<Event>)

  const INITIAL := State(false, false, false, false, Free, 0, [], [])

  datatype Step =
    | LookRequest | ActRequest | LookCheck(w: nat) | ActCheck | Stop | Cancel
    | Begin(w: nat) | End(w: nat) | Done(w: nat)

  predicate Enabled(s: State, step: Step) {
    match step
    case LookRequest => s.section == Free
    case ActRequest => s.section.Requester?
    case LookCheck(w) => s.section == Free && w < |s.workers| && s.workers[w] == Checking
    case ActCheck => s.section.Checker? && s.section.w < |s.workers|
    case Stop => s.section == Free
    case Cancel => true
    case Begin(w) => w < |s.workers| && s.workers[w] == Starting
    case End(w) => w < |s.workers| && s.workers[w] == Passing
    case Done(w) => w < |s.workers| && s.workers[w] == Leaving && s.wg > 0
  }

  function Apply(s: State, step: Step): State
    requires Enabled(s, step)
  {
    var open := !s.closed && !s.cancelled;
    match step
    case LookRequest => s.(section := Requester(open), trace := s.trace + [Looked(open)])
    case ActRequest =>
      if !s.section.open then s.(section := Free, trace := s.trace + [Requested(Refused)])
      else if s.running then s.(section := Free, queued := true, trace := s.trace + [Requested(Queued)])
      else s.(section := Free, running := true, wg := s.wg + 1, workers := s.workers + [Starting],
              trace := s.trace + [Requested(Started)])
    case LookCheck(w) => s.(section := Checker(w, s.queued && open), trace := s.trace + [Looked(open)])
    case ActCheck =>
      var again := s.section.again;
      s.(section := Free, queued := false, running := s.running && again,
         workers := s.workers[s.section.w := if again then Starting else Leaving],
         trace := s.trace + [Checked(again)])
    case Stop => s.(closed := true, trace := s.trace + [Stopped])
    case Cancel => s.(cancelled := true, trace := s.trace + [Cancelled])
    case Begin(w) => s.(workers := s.workers[w := Passing], trace := s.trace + [PassBegan])
    case End(w) => s.(workers := s.workers[w := Checking], trace := s.trace + [PassEnded])
    case Done(w) => s.(wg := s.wg - 1, workers := s.workers[w := Gone])
  }

  /** s is reached from the initial state by some steps. */
  ghost predicate Reached(steps: seq<Step>, s: State) {
    if steps == [] then s == INITIAL
    else
      var n := |steps| - 1;
      exists r :: Reached(steps[..n], r) && Enabled(r, steps[n]) && s == Apply(r, steps[n])
  }

  // ---- A trace is what the steps did -----------------------------------------

  /** The steps that leave an event. */
  function Visible(steps: seq<Step>): seq<Step> {
    if steps == [] then []
    else
      var last := steps[|steps| - 1];
      Visible(steps[..|steps| - 1]) + if last.Done? then [] else [last]
  }

  /** The event is of the step's kind. */
  predicate Records(step: Step, e: Event) {
    match step
    case LookRequest => e.Looked?
    case ActRequest => e.Requested?
    case LookCheck(_) => e.Looked?
    case ActCheck => e.Checked?
    case Stop => e == Stopped
    case Cancel => e == Cancelled
    case Begin(_) => e == PassBegan
    case End(_) => e == PassEnded
    case Done(_) => false
  }

  /** The trace of a run has one event for each of its steps but the last ones of the workers, in
      order and of its kind: what is proved of traces is about what the callers did. */
  lemma {:induction false} TraceOfRun(steps: seq<Step>, s: State)
    requires Reached(steps, s)
    ensures |s.trace| == |Visible(steps)|
    ensures forall i :: 0 <= i < |s.trace| ==> Records(Visible(steps)[i], s.trace[i])
  {
    if steps != [] {
      var n := |steps| - 1;
      var r :| Reached(steps[..n], r) && Enabled(r, steps[n]) && s == Apply(r, steps[n]);
      TraceOfRun(steps[..n], r);
      StepRecords(r, steps[n]);
    }
  }

  lemma StepRecords(s: State, step: Step)
    requires Enabled(s, step)
    ensures
      var t := Apply(s, step);
      if step.Done? then t.trace == s.trace
      else |t.trace| == |s.trace| + 1 && s.trace <= t.trace && Records(step, t.trace[|s.trace|])
  {
  }

  // ---- What a trace says ----------------------------------------------------

  /** A pass is committed by a request that starts a worker, or by a check that goes again. */
  predicate Commits(e: Event) {
    e == Requested(Started) || e == Checked(true)
  }

  predicate Accepted(e: Event) {
    e == Requested(Started) || e == Requested(Queued)
  }

  /** A trace in summary: passes begun, ended and committed; whether a committed pass has not come
      to its last check (busy), a request was queued since the last check, a section has looked
      and not acted, what the last look found, whether an accepted request has not been followed
      by the start of a pass, and whether the gate was stopped or the context cancelled. */
  datatype History = History(
    began: nat, ended: nat, committed: nat, busy: bool, queued: bool, inSection: bool, open: bool,
    unserved: bool, stopped: bool, cancelled: bool)
  {
    predicate Shut() {
      stopped || cancelled
    }

    function Then(e: Event): History {
      History(
        began + (if e.PassBegan? then 1 else 0),
        ended + (if e.PassEnded? then 1 else 0),
        committed + (if Commits(e) then 1 else 0),
        Commits(e) || (busy && !e.Checked?),
        e == Requested(Queued) || (queued && !e.Checked?),
        e.Looked? || (inSection && !e.Requested? && !e.Checked? && !e.Stopped?),
        if e.Looked? then e.open else open,
        Accepted(e) || (unserved && !e.PassBegan?),
        stopped || e.Stopped?,
        cancelled || e.Cancelled?)
    }
  }

  const NOTHING := History(0, 0, 0, false, false, false, false, false, false, false)

  /** The histories before each event, and the one after all. */
  function Histories(tr: seq<Event>): (hs: seq<History>)
    ensures |hs| == |tr| + 1
  {
    if tr == [] then [NOTHING]
    else
      var n := |tr| - 1;
      var rest := Histories(tr[..n]);
      rest + [rest[n].Then(tr[n])]
  }

  function Summary(tr: seq<Event>): History {
    Histories(tr)[|tr|]
  }

  lemma HistoriesSnoc(tr: seq<Event>, e: Event)
    ensures Histories(tr + [e]) == Histories(tr) + [Summary(tr).Then(e)]
  {
    assert (tr + [e])[..|tr|] == tr;
  }

  /** An event is explained by the ones before it: a look finds the gate as it is then; a request
      is refused, starts a worker or is queued by what its section's look found and by whether a
      worker is active; a check goes again exactly when a request is queued and its look found
      the gate open. */
  predicate EventOk(h: History, e: Event) {
    match e
    case Looked(open) => open <==> !h.Shut()
    case Requested(answer) =>
      h.inSection && answer == if !h.open then Refused else if h.busy then Queued else Started
    case Checked(again) => h.inSection && h.busy && (again <==> h.queued && h.open)
    case PassBegan => h.busy
    case Stopped => !h.inSection
    case _ => true
  }

  predicate Link(h: History, e: Event, next: History) {
    EventOk(h, e) && next == h.Then(e)
  }

  /** hs are the histories of a trace in which every event is explained. */
  ghost predicate Chain(tr: seq<Event>, hs: seq<History>) {
    && |hs| == |tr| + 1 && hs[0] == NOTHING
    && forall i :: 0 <= i < |tr| ==> Link(hs[i], tr[i], hs[i + 1])
  }

  ghost predicate Explained(tr: seq<Event>) {
    Chain(tr, Histories(tr))
  }

  // ---- Counting workers -------------------------------------------------------

  predicate Active(w: Worker) {
    w == Starting || w == Passing || w == Checking
  }

  function Count(ws: seq<Worker>, p: Worker -> bool): nat {
    if ws == [] then 0 else Count(ws[..|ws| - 1], p) + if p(ws[|ws| - 1]) then 1 else 0
  }

  lemma {:induction false} CountUpdate(ws: seq<Worker>, i: nat, w: Worker, p: Worker -> bool)
    requires i < |ws|
    ensures Count(ws[i := w], p) + (if p(ws[i]) then 1 else 0) == Count(ws, p) + if p(w) then 1 else 0
  {
    var n := |ws| - 1;
    if i < n {
      CountUpdate(ws[..n], i, w, p);
      assert ws[i := w][..n] == ws[..n][i := w];
    } else {
      assert ws[i := w][..n] == ws[..n];
    }
  }

  lemma {:induction false} CountTwo(ws: seq<Worker>, i: nat, j: nat, p: Worker -> bool)
    requires i < j < |ws| && p(ws[i]) && p(ws[j])
    ensures Count(ws, p) >= 2
  {
    var n := |ws| - 1;
    if j < n {
      CountTwo(ws[..n], i, j, p);
    } else {
      CountOne(ws[..n], i, p);
    }
  }

  lemma {:induction false} CountOne(ws: seq<Worker>, i: nat, p: Worker -> bool)
    requires i < |ws| && p(ws[i])
    ensures Count(ws, p) >= 1
  {
    var n := |ws| - 1;
    if i < n {
      CountOne(ws[..n], i, p);
    }
  }

  const IsActive: Worker -> bool := w => Active(w)
  const IsStarting: Worker -> bool := w => w == Starting
  const IsPassing: Worker -> bool := w => w == Passing
  const IsLive: Worker -> bool := w => w != Gone

  // ---- The invariant --------------------------------------------------------

  /** The workers and the wait group against the trace. */
  ghost predicate WorkersOk(s: State, h: History) {
    && Count(s.workers, IsActive) == (if s.running then 1 else 0)
    && Count(s.workers, IsLive) == s.wg
    && h.began == h.ended + Count(s.workers, IsPassing)
    && h.committed == h.began + Count(s.workers, IsStarting)
  }

  /** The flags and the section against the trace. */
  ghost predicate FlagsOk(s: State, h: History) {
    && s.closed == h.stopped && s.cancelled == h.cancelled
    && s.running == h.busy && s.queued == h.queued && (s.queued ==> s.running)
    && (s.section != Free <==> h.inSection)
    && (s.section.Requester? ==> s.section.open == h.open)
    && (s.section.Checker? ==>
          && s.section.w < |s.workers| && s.workers[s.section.w] == Checking
          && s.section.again == (s.queued && h.open))
    && (h.inSection && !h.open ==> h.Shut())
  }

  /** No accepted request is forgotten while the gate is open. */
  ghost predicate ServiceOk(s: State, h: History) {
    h.unserved && !h.Shut() ==> s.queued || Starting in s.workers
  }

  ghost predicate StateOk(s: State, h: History) {
    WorkersOk(s, h) && FlagsOk(s, h) && ServiceOk(s, h)
  }

  ghost predicate Inv(s: State) {
    StateOk(s, Summary(s.trace)) && Explained(s.trace)
  }

  lemma ChainSnoc(tr: seq<Event>, hs: seq<History>, e: Event)
    requires Chain(tr, hs) && EventOk(hs[|tr|], e)
    ensures Chain(tr + [e], hs + [hs[|tr|].Then(e)])
  {
    var (all, more) := (tr + [e], hs + [hs[|tr|].Then(e)]);
    forall i | 0 <= i < |all| ensures Link(more[i], all[i], more[i + 1]) {
      if i < |tr| {
        assert Link(hs[i], tr[i], hs[i + 1]);
      }
    }
  }

  /** A step that writes e keeps the invariant when the new state fits the longer trace. */
  lemma Extend(s: State, t: State, e: Event)
    requires Inv(s) && t.trace == s.trace + [e]
    requires EventOk(Summary(s.trace), e) && StateOk(t, Summary(s.trace).Then(e))
    ensures Inv(t)
  {
    HistoriesSnoc(s.trace, e);
    ChainSnoc(s.trace, Histories(s.trace), e);
  }

  /** While a worker is between its check and its start of work, no other is active. */
  lemma OnlyActive(s: State, i: nat, j: nat)
    requires Count(s.workers, IsActive) <= 1 && i < |s.workers| && j < |s.workers|
    requires Active(s.workers[i]) && Active(s.workers[j])
    ensures i == j
  {
    if i < j { CountTwo(s.workers, i, j, IsActive); }
    if j < i { CountTwo(s.workers, j, i, IsActive); }
  }

  /** An active worker keeps running set. */
  lemma ActiveMeansRunning(s: State, w: nat)
    requires Count(s.workers, IsActive) == (if s.running then 1 else 0) && w < |s.workers| && Active(s.workers[w])
    ensures s.running
  {
    CountOne(s.workers, w, IsActive);
  }

  /** With a committed pass about to start, the active worker is the one that starts it. */
  lemma StartingIsOnly(s: State, w: nat)
    requires Count(s.workers, IsActive) <= 1 && w < |s.workers| && Active(s.workers[w]) && Starting in s.workers
    ensures s.workers[w] == Starting
  {
    var i :| 0 <= i < |s.workers| && s.workers[i] == Starting;
    OnlyActive(s, i, w);
  }

  /** The counts after worker w has moved to v. */
  lemma WorkerMoves(s: State, w: nat, v: Worker)
    requires w < |s.workers|
    ensures
      var (ws, u) := (s.workers[w := v], s.workers[w]);
      && Count(ws, IsActive) + (if Active(u) then 1 else 0) == Count(s.workers, IsActive) + (if Active(v) then 1 else 0)
      && Count(ws, IsStarting) + (if u == Starting then 1 else 0)
          == Count(s.workers, IsStarting) + (if v == Starting then 1 else 0)
      && Count(ws, IsPassing) + (if u == Passing then 1 else 0)
          == Count(s.workers, IsPassing) + (if v == Passing then 1 else 0)
      && Count(ws, IsLive) + (if u != Gone then 1 else 0) == Count(s.workers, IsLive) + (if v != Gone then 1 else 0)
  {
    CountUpdate(s.workers, w, v, IsActive);
    CountUpdate(s.workers, w, v, IsStarting);
    CountUpdate(s.workers, w, v, IsPassing);
    CountUpdate(s.workers, w, v, IsLive);
  }

  /** The event a step writes. */
  function EventOf(s: State, step: Step): Event
    requires Enabled(s, step) && !step.Done?
  {
    Apply(s, step).trace[|s.trace|]
  }

  /** The event of the step is explained, and the new state fits the longer history. */
  ghost predicate StepOk(s: State, h: History, step: Step)
    requires Enabled(s, step) && !step.Done?
  {
    EventOk(h, EventOf(s, step)) && StateOk(Apply(s, step), h.Then(EventOf(s, step)))
  }

  lemma RequestOk(s: State, h: History)
    requires StateOk(s, h) && Enabled(s, ActRequest)
    ensures StepOk(s, h, ActRequest)
  {
    var t := Apply(s, ActRequest);
    if s.section.open && !s.running {
      assert t.workers[..|s.workers|] == s.workers;
      assert t.workers[|s.workers|] == Starting;
    }
  }

  lemma BeginOk(s: State, h: History, w: nat)
    requires StateOk(s, h) && Enabled(s, Begin(w))
    ensures StepOk(s, h, Begin(w))
  {
    WorkerMoves(s, w, Passing);
    ActiveMeansRunning(s, w);
  }

  lemma EndOk(s: State, h: History, w: nat)
    requires StateOk(s, h) && Enabled(s, End(w))
    ensures StepOk(s, h, End(w))
  {
    WorkerMoves(s, w, Checking);
    if Starting in s.workers {
      StartingIsOnly(s, w);
    }
  }

  lemma CheckOk(s: State, h: History)
    requires StateOk(s, h) && Enabled(s, ActCheck)
    ensures StepOk(s, h, ActCheck)
  {
    var t, w := Apply(s, ActCheck), s.section.w;
    WorkerMoves(s, w, t.workers[w]);
    ActiveMeansRunning(s, w);
    if Starting in s.workers {
      StartingIsOnly(s, w);
    }
    assert s.section.again ==> t.workers[w] == Starting;
  }

  lemma QuietOk(s: State, h: History, step: Step)
    requires StateOk(s, h) && Enabled(s, step)
    requires step.LookRequest? || step.LookCheck? || step.Stop? || step.Cancel?
    ensures StepOk(s, h, step)
  {
  }

  lemma DoneOk(s: State, h: History, w: nat)
    requires StateOk(s, h) && Enabled(s, Done(w))
    ensures StateOk(Apply(s, Done(w)), h)
  {
    var t := Apply(s, Done(w));
    WorkerMoves(s, w, Gone);
    if Starting in s.workers {
      var i :| 0 <= i < |s.workers| && s.workers[i] == Starting;
      assert t.workers[i] == Starting;
    }
  }

  lemma StepKeepsOk(s: State, h: History, step: Step)
    requires StateOk(s, h) && Enabled(s, step) && !step.Done?
    ensures StepOk(s, h, step)
  {
    match step
    case ActRequest => RequestOk(s, h);
    case ActCheck => CheckOk(s, h);
    case Begin(w) => BeginOk(s, h, w);
    case End(w) => EndOk(s, h, w);
    case _ => QuietOk(s, h, step);
  }

  lemma StepKeepsInv(s: State, step: Step)
    requires Inv(s) && Enabled(s, step)
    ensures Inv(Apply(s, step))
  {
    if step.Done? {
      DoneOk(s, Summary(s.trace), step.w);
    } else {
      StepKeepsOk(s, Summary(s.trace), step);
      Extend(s, Apply(s, step), EventOf(s, step));
    }
  }

  lemma {:induction false} ReachedKeepsInv(steps: seq<Step>, s: State)
    requires Reached(steps, s)
    ensures Inv(s)
  {
    if steps != [] {
      var n := |steps| - 1;
      var r :| Reached(steps[..n], r) && Enabled(r, steps[n]) && s == Apply(r, steps[n]);
      ReachedKeepsInv(steps[..n], r);
      StepKeepsInv(r, steps[n]);
    }
  }

  // ---- One pass at a time -----------------------------------------------------

  /** Two passes never overlap, and the wait group counts exactly the live goroutines. */
  lemma PassesNeverOverlap(steps: seq<Step>, s: State)
    requires Reached(steps, s)
    ensures var h := Summary(s.trace); h.ended <= h.began <= h.ended + 1
    ensures forall i, j :: 0 <= i < j < |s.workers| && s.workers[i] == Passing ==> s.workers[j] != Passing
    ensures s.wg == Count(s.workers, IsLive)
  {
    ReachedKeepsInv(steps, s);
    PassingAtMostActive(s.workers);
    forall i, j | 0 <= i < j < |s.workers| && s.workers[i] == Passing ensures s.workers[j] != Passing {
      if s.workers[j] == Passing { OnlyActive(s, i, j); }
    }
  }

  lemma {:induction false} PassingAtMostActive(ws: seq<Worker>)
    ensures Count(ws, IsPassing) <= Count(ws, IsActive) && Count(ws, IsStarting) <= Count(ws, IsActive)
  {
    if ws != [] { PassingAtMostActive(ws[..|ws| - 1]); }
  }

  // ---- Bursts -----------------------------------------------------------------

  /** Every pass has a commit of its own: the commits are the passes begun and the one, if any,
      about to begin. */
  lemma CommitsArePasses(steps: seq<Step>, s: State)
    requires Reached(steps, s)
    ensures var h := Summary(s.trace);
            h.committed == h.began + Count(s.workers, IsStarting) && h.began <= h.committed <= h.began + 1
  {
    ReachedKeepsInv(steps, s);
    PassingAtMostActive(s.workers);
  }

  /** While a worker is active a request starts no other: it is queued or refused. */
  lemma NoSecondWorker(steps: seq<Step>, s: State, w: nat)
    requires Reached(steps, s) && w < |s.workers| && Active(s.workers[w]) && Enabled(s, ActRequest)
    ensures
      var t := Apply(s, ActRequest);
      && t.workers == s.workers && t.wg == s.wg
      && t.trace == s.trace + [Requested(if s.section.open then Queued else Refused)]
  {
    ReachedKeepsInv(steps, s);
    ActiveMeansRunning(s, w);
  }

  /** While a worker is active, nothing but a check can commit. */
  lemma EventWhileBusy(h: History, e: Event)
    requires EventOk(h, e) && h.busy && !e.Checked?
    ensures h.Then(e).busy && h.Then(e).committed == h.committed && !Commits(e)
  {
  }

  /** The start of a pass commits nothing either, and a worker is active after it. */
  lemma EventOfPass(h: History, e: Event)
    requires EventOk(h, e) && e.PassBegan?
    ensures h.Then(e).busy && h.Then(e).committed == h.committed
  {
  }

  /** Busy lasts from the start of a pass to its check, and nothing is committed meanwhile. */
  lemma {:induction false} PassCommitsNothing(tr: seq<Event>, hs: seq<History>, b: nat, n: nat)
    requires Chain(tr, hs) && b < n <= |tr| && tr[b].PassBegan?
    requires forall j :: b < j < n ==> !tr[j].Checked?
    ensures hs[n].busy && hs[n].committed == hs[b].committed
    ensures n < |tr| && !tr[n].Checked? ==> !Commits(tr[n])
    decreases n
  {
    var m := n - 1;
    assert Link(hs[m], tr[m], hs[m + 1]);
    if m > b {
      PassCommitsNothing(tr, hs, b, m);
      EventWhileBusy(hs[m], tr[m]);
    } else {
      EventOfPass(hs[m], tr[m]);
    }
    if n < |tr| && !tr[n].Checked? {
      assert Link(hs[n], tr[n], hs[n + 1]);
      EventWhileBusy(hs[n], tr[n]);
    }
  }

  /** One burst, one follow-up: from the start of a pass to its check any number of requests
      commit nothing, and the check commits one pass exactly when a request is queued and the
      check's look found the gate open. */
  lemma BurstsCollapse(steps: seq<Step>, s: State, b: nat, c: nat)
    requires Reached(steps, s) && b < c < |s.trace| && s.trace[b].PassBegan? && s.trace[c].Checked?
    requires forall j :: b < j < c ==> !s.trace[j].Checked?
    ensures forall j :: b < j < c ==> !Commits(s.trace[j])
    ensures
      var hs := Histories(s.trace);
      && (Commits(s.trace[c]) <==> hs[c].queued && hs[c].open)
      && hs[c + 1].committed == hs[b].committed + if hs[c].queued && hs[c].open then 1 else 0
  {
    ReachedKeepsInv(steps, s);
    var hs := Histories(s.trace);
    forall j | b < j < c ensures !Commits(s.trace[j]) {
      PassCommitsNothing(s.trace, hs, b, j);
    }
    PassCommitsNothing(s.trace, hs, b, c);
    assert Link(hs[c], s.trace[c], hs[c + 1]);
  }

  // ---- Shutting down ------------------------------------------------------------

  /** No section has looked or acted, and no stop has come, strictly between l and j. */
  predicate Quiet(tr: seq<Event>, l: int, j: int)
    requires j <= |tr|
  {
    forall k :: 0 <= k && l < k < j ==> !tr[k].Looked? && !tr[k].Stopped? && !tr[k].Requested? && !tr[k].Checked?
  }

  /** stopped and cancelled say what came before. */
  lemma {:induction false} HistoryHas(tr: seq<Event>, hs: seq<History>, n: nat)
    requires Chain(tr, hs) && n <= |tr|
    ensures hs[n].stopped <==> Stopped in tr[..n]
    ensures hs[n].cancelled <==> Cancelled in tr[..n]
  {
    if n > 0 {
      HistoryHas(tr, hs, n - 1);
      assert Link(hs[n - 1], tr[n - 1], hs[n]);
      assert tr[..n] == tr[..n - 1] + [tr[n - 1]];
    }
  }

  /** The look of the section that history n is in. */
  lemma {:induction false} LookOf(tr: seq<Event>, hs: seq<History>, n: nat) returns (l: nat)
    requires Chain(tr, hs) && n <= |tr| && hs[n].inSection
    ensures l < n && tr[l] == Looked(hs[n].open) && Quiet(tr, l, n)
    decreases n
  {
    assert n > 0;
    assert Link(hs[n - 1], tr[n - 1], hs[n]);
    l := n - 1;
    if !tr[l].Looked? {
      l := LookOf(tr, hs, n - 1);
    }
  }

  /** What the look of an act found: the gate open exactly when neither a stop nor a cancellation
      had come before it. */
  lemma ActLook(tr: seq<Event>, hs: seq<History>, j: nat) returns (l: nat)
    requires Chain(tr, hs) && j < |tr| && (tr[j].Requested? || tr[j].Checked?)
    ensures l < j && tr[l] == Looked(hs[j].open) && Quiet(tr, l, j)
    ensures hs[j].open <==> Stopped !in tr[..l] && Cancelled !in tr[..l]
  {
    assert Link(hs[j], tr[j], hs[j + 1]);
    l := LookOf(tr, hs, j);
    assert Link(hs[l], tr[l], hs[l + 1]);
    HistoryHas(tr, hs, l);
  }

  /** The event commits a pass or accepts a request. */
  predicate GoesAhead(e: Event) {
    Commits(e) || Accepted(e)
  }

  /** What goes ahead at j had a look l that found the gate open, with no other section and no
      stop in between, and no stop or cancellation before it. */
  lemma LookBefore(tr: seq<Event>, j: nat) returns (l: nat)
    requires Explained(tr) && j < |tr| && GoesAhead(tr[j])
    ensures l < j && tr[l] == Looked(true) && Quiet(tr, l, j)
    ensures forall k :: 0 <= k < l ==> tr[k] != Stopped && tr[k] != Cancelled
  {
    var hs := Histories(tr);
    assert Link(hs[j], tr[j], hs[j + 1]);
    l := ActLook(tr, hs, j);
    assert forall k :: 0 <= k < l ==> tr[k] == tr[..l][k] && tr[k] in tr[..l];
  }

  lemma StopEndsAll(tr: seq<Event>, i: nat, j: nat)
    requires Explained(tr) && i < j < |tr| && tr[i] == Stopped
    ensures !GoesAhead(tr[j])
  {
    if GoesAhead(tr[j]) {
      var l := LookBefore(tr, j);
    }
  }

  /** After stop nothing goes ahead: no request starts a worker (so no wg.Add) or is queued, and
      no check goes again. */
  lemma NothingCommittedAfterStop(steps: seq<Step>, s: State, i: nat, j: nat)
    requires Reached(steps, s) && i < j < |s.trace| && s.trace[i] == Stopped
    ensures !GoesAhead(s.trace[j])
  {
    ReachedKeepsInv(steps, s);
    StopEndsAll(s.trace, i, j);
  }

  /** After a cancellation only the one section that was already past its look can still go
      ahead: what goes ahead at j looked before i, and nothing goes ahead after it. */
  lemma OneSectionAfterCancel(steps: seq<Step>, s: State, i: nat, j: nat) returns (l: nat)
    requires Reached(steps, s) && i < j < |s.trace| && s.trace[i] == Cancelled && GoesAhead(s.trace[j])
    ensures l < i && s.trace[l] == Looked(true) && Quiet(s.trace, l, j)
    ensures forall k :: j < k < |s.trace| ==> !GoesAhead(s.trace[k])
  {
    ReachedKeepsInv(steps, s);
    l := LookBefore(s.trace, j);
    forall k | j < k < |s.trace| ensures !GoesAhead(s.trace[k]) {
      if GoesAhead(s.trace[k]) {
        var m := LookBefore(s.trace, k);
      }
    }
  }

  /** The exact rule for requests: one goes ahead exactly when neither a stop nor a cancellation
      came before the look of its section, however much later it acts. */
  lemma RequestGoesAheadExactly(steps: seq<Step>, s: State, j: nat) returns (l: nat)
    requires Reached(steps, s) && j < |s.trace| && s.trace[j].Requested?
    ensures l < j && s.trace[l].Looked? && Quiet(s.trace, l, j)
    ensures GoesAhead(s.trace[j]) <==> Stopped !in s.trace[..l] && Cancelled !in s.trace[..l]
  {
    ReachedKeepsInv(steps, s);
    var hs := Histories(s.trace);
    assert Link(hs[j], s.trace[j], hs[j + 1]);
    l := ActLook(s.trace, hs, j);
  }

  /** And for checks, which also need a queued request. */
  lemma CheckGoesAheadExactly(steps: seq<Step>, s: State, j: nat) returns (l: nat)
    requires Reached(steps, s) && j < |s.trace| && s.trace[j].Checked?
    ensures l < j && s.trace[l].Looked? && Quiet(s.trace, l, j)
    ensures GoesAhead(s.trace[j]) <==>
            Stopped !in s.trace[..l] && Cancelled !in s.trace[..l] && Histories(s.trace)[j].queued
  {
    ReachedKeepsInv(steps, s);
    var hs := Histories(s.trace);
    assert Link(hs[j], s.trace[j], hs[j + 1]);
    l := ActLook(s.trace, hs, j);
  }

  /** And it can: a request can add to the wait group after the cancellation, which is why stop
      takes the mutex. */
  lemma CancelCanRace() returns (steps: seq<Step>, s: State)
    ensures Reached(steps, s) && s.trace == [Looked(true), Cancelled, Requested(Started)] && s.wg == 1
  {
    steps := [LookRequest, Cancel, ActRequest];
    var s1 := Apply(INITIAL, LookRequest);
    var s2 := Apply(s1, Cancel);
    s := Apply(s2, ActRequest);
    assert steps[..2] == [LookRequest, Cancel] && [LookRequest, Cancel][..1] == [LookRequest]
           && [LookRequest][..0] == [];
    assert Reached([], INITIAL);
    assert Reached([LookRequest], s1);
    assert Reached([LookRequest, Cancel], s2);
  }

  // ---- No request is lost -----------------------------------------------------------

  /** When the workers are idle and the gate was never shut, every request that has its answer
      has been followed by the start of a pass. */
  lemma EveryRequestServed(steps: seq<Step>, s: State, i: nat)
    requires Reached(steps, s) && Stopped !in s.trace && Cancelled !in s.trace
    requires forall w :: 0 <= w < |s.workers| ==> !Active(s.workers[w])
    requires i < |s.trace| && s.trace[i].Requested?
    ensures exists j :: i < j < |s.trace| && s.trace[j].PassBegan?
  {
    ReachedKeepsInv(steps, s);
    NoneActive(s.workers);
    var hs := Histories(s.trace);
    HistoryHas(s.trace, hs, |s.trace|);
    assert s.trace[..|s.trace|] == s.trace;
    AnsweredMeansAccepted(s.trace, hs, i);
    ServedMeans(s.trace, hs, i, |s.trace|);
  }

  /** With the gate never shut no request is refused. */
  lemma AnsweredMeansAccepted(tr: seq<Event>, hs: seq<History>, i: nat)
    requires Chain(tr, hs) && i < |tr| && tr[i].Requested? && Stopped !in tr && Cancelled !in tr
    ensures Accepted(tr[i])
  {
    assert Link(hs[i], tr[i], hs[i + 1]);
    var l := ActLook(tr, hs, i);
  }

  lemma {:induction false} NoneActive(ws: seq<Worker>)
    requires forall w :: 0 <= w < |ws| ==> !Active(ws[w])
    ensures Count(ws, IsActive) == 0 && Starting !in ws
  {
    if ws != [] { NoneActive(ws[..|ws| - 1]); }
  }

  lemma {:induction false} ServedMeans(tr: seq<Event>, hs: seq<History>, i: nat, n: nat)
    requires Chain(tr, hs) && i < n <= |tr| && Accepted(tr[i]) && !hs[n].unserved
    ensures exists j :: i < j < n && tr[j].PassBegan?
    decreases n
  {
    assert Link(hs[n - 1], tr[n - 1], hs[n]);
    if !tr[n - 1].PassBegan? {
      ServedMeans(tr, hs, i, n - 1);
    }
  }

  /** How many of its own steps the active worker w is from starting the pass an unserved request
      waits for: end the pass, look, act, begin. */
  function Distance(s: State, w: nat): nat
    requires w < |s.workers|
  {
    match s.workers[w]
    case Starting => 1
    case Checking => if s.section.Checker? then 2 else 3
    case Passing => 4
    case _ => 0
  }

  /** The active worker's own steps. */
  predicate WorkerStep(step: Step) {
    step.Begin? || step.End? || step.LookCheck? || step.ActCheck?
  }

  /** An accepted request waits for its pass, and the gate is open. */
  predicate Awaited(s: State) {
    Summary(s.trace).unserved && !s.closed && !s.cancelled
  }

  lemma {:induction false} ActiveWorker(ws: seq<Worker>) returns (i: nat)
    requires Count(ws, IsActive) >= 1
    ensures i < |ws| && Active(ws[i])
  {
    i := |ws| - 1;
    if !Active(ws[i]) {
      i := ActiveWorker(ws[..|ws| - 1]);
    }
  }

  /** An unserved request waits for an active worker, at most four of whose steps away. */
  lemma UnservedHasWorker(steps: seq<Step>, s: State) returns (a: nat)
    requires Reached(steps, s)
    ensures Awaited(s) ==> a < |s.workers| && Active(s.workers[a]) && 1 <= Distance(s, a) <= 4
  {
    ReachedKeepsInv(steps, s);
    a := 0;
    if Awaited(s) {
      if !s.running {
        var i :| 0 <= i < |s.workers| && s.workers[i] == Starting;
        CountOne(s.workers, i, IsActive);
      }
      a := ActiveWorker(s.workers);
    }
  }

  /** What a step other than the start of the pass does to the active worker. */
  lemma StepMovesWorker(s: State, h: History, a: nat, step: Step)
    requires StateOk(s, h) && Enabled(s, step) && h.unserved && !h.Shut() && !step.Begin?
    requires a < |s.workers| && Active(s.workers[a])
    ensures
      var t := Apply(s, step);
      && a < |t.workers| && Active(t.workers[a])
      && if WorkerStep(step) then Distance(t, a) < Distance(s, a) else Distance(t, a) == Distance(s, a)
  {
    match step
    case End(w) => OnlyActive(s, w, a);
    case LookCheck(w) => OnlyActive(s, w, a);
    case ActCheck =>
      OnlyActive(s, s.section.w, a);
      if !s.queued { StartingIsOnly(s, a); }
    case _ =>
  }

  /** Progress: the active worker's steps bring the request nearer and no other step takes it
      farther, until the pass starts or the gate is shut. */
  lemma UnservedComesNearer(steps: seq<Step>, s: State, a: nat, step: Step)
    requires Reached(steps, s) && Enabled(s, step)
    requires a < |s.workers| && Active(s.workers[a])
    ensures
      var t := Apply(s, step);
      Awaited(s) && Awaited(t) ==>
        && a < |t.workers| && Active(t.workers[a])
        && if WorkerStep(step) then Distance(t, a) < Distance(s, a) else Distance(t, a) == Distance(s, a)
  {
    ReachedKeepsInv(steps, s);
    if step.Begin? {
      HistoriesSnoc(s.trace, PassBegan);
    } else if Awaited(s) {
      StepMovesWorker(s, Summary(s.trace), a, step);
    }
  }

  /** Nor is it ever stuck: the section that holds the mutex can act, or the worker can move. */
  lemma UnservedNeverStuck(steps: seq<Step>, s: State, a: nat) returns (step: Step)
    requires Reached(steps, s) && a < |s.workers| && Active(s.workers[a])
    ensures Enabled(s, step) && (WorkerStep(step) || step == ActRequest)
  {
    ReachedKeepsInv(steps, s);
    step :=
      if s.section.Requester? then ActRequest
      else if s.section.Checker? then ActCheck
      else match s.workers[a] case Starting => Begin(a) case Passing => End(a) case _ => LookCheck(a);
  }
}
