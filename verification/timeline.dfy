/** internal/stats/timeline.go: the per-minute graph, a ring of 1,440 slots, against the
    unbounded log of the events it stands for. */
module MinuteRing {
  import opened QueryRecord

  const MINUTES: nat := 1440

  datatype Kind = Total | Blocked | Cached | Unresolved | UpstreamFailed

  datatype Counts = Counts(total: nat, blocked: nat, cached: nat, unresolved: nat, upstreamError: nat)
  {
    function Get(f: Kind): nat {
      match f
      case Total => total
      case Blocked => blocked
      case Cached => cached
      case Unresolved => unresolved
      case UpstreamFailed => upstreamError
    }

    /** What one event adds, field by field. */
    function Add(e: Event): (c: Counts)
      ensures forall f: Kind :: c.Get(f) == Get(f) + Adds(e, f)
    {
      match e
      case Query(b) => this.(total := total + 1, blocked := if b then blocked + 1 else blocked)
      case CacheHit => this.(cached := cached + 1)
      case ForwardFailure => this.(unresolved := unresolved + 1)
      case UpstreamFailure => this.(upstreamError := upstreamError + 1)
    }

    function Plus(d: Counts): (c: Counts)
      ensures forall f: Kind :: c.Get(f) == Get(f) + d.Get(f)
    {
      Counts(total + d.total, blocked + d.blocked, cached + d.cached,
             unresolved + d.unresolved, upstreamError + d.upstreamError)
    }
  }

  const ZERO := Counts(0, 0, 0, 0, 0)

  /** The calls that reach the graph. */
  datatype Event = Query(blocked: bool) | CacheHit | ForwardFailure | UpstreamFailure

  datatype Entry = Entry(minute: nat, event: Event)

  /** Whether the graph records the event (graphs): only a query can be blocked. */
  predicate Admitted(mode: Mode, e: Event) {
    Records(mode, e.Query? && e.blocked)
  }

  /** The fields an event counts in. */
  function Adds(e: Event, f: Kind): nat {
    match f
    case Total => if e.Query? then 1 else 0
    case Blocked => if e.Query? && e.blocked then 1 else 0
    case Cached => if e.CacheHit? then 1 else 0
    case Unresolved => if e.ForwardFailure? then 1 else 0
    case UpstreamFailed => if e.UpstreamFailure? then 1 else 0
  }

  /** The reference: the admitted events of the log of kind f with a minute in [lo, hi). */
  function Tally(mode: Mode, log: seq<Entry>, f: Kind, lo: int, hi: int): nat {
    if log == [] then 0
    else
      var last := log[|log| - 1];
      Tally(mode, log[..|log| - 1], f, lo, hi)
      + if Admitted(mode, last.event) && lo <= last.minute < hi then Adds(last.event, f) else 0
  }

  /** What the query-log mode shows: nothing, the blocked queries alone, or everything. */
  lemma {:induction false} ModeMeans(log: seq<Entry>, f: Kind, lo: int, hi: int)
    ensures Tally(LogNone, log, f, lo, hi) == 0
    ensures Tally(LogBlocked, log, f, lo, hi) ==
            if f == Total || f == Blocked then Tally(LogAll, log, Blocked, lo, hi) else 0
    ensures log != [] ==>
              var last := log[|log| - 1];
              Tally(LogAll, log, f, lo, hi) ==
                Tally(LogAll, log[..|log| - 1], f, lo, hi) + if lo <= last.minute < hi then Adds(last.event, f) else 0
  {
    if log != [] {
      ModeMeans(log[..|log| - 1], f, lo, hi);
    }
  }

  /** All five counts of the range at once. */
  ghost predicate Counted(c: Counts, mode: Mode, log: seq<Entry>, lo: int, hi: int) {
    forall f: Kind :: c.Get(f) == Tally(mode, log, f, lo, hi)
  }

  lemma {:induction false} TallySplit(mode: Mode, log: seq<Entry>, f: Kind, lo: int, mid: int, hi: int)
    requires lo <= mid <= hi
    ensures Tally(mode, log, f, lo, hi) == Tally(mode, log, f, lo, mid) + Tally(mode, log, f, mid, hi)
  {
    if log != [] {
      TallySplit(mode, log[..|log| - 1], f, lo, mid, hi);
    }
  }

  lemma {:induction false} TallyNone(mode: Mode, log: seq<Entry>, f: Kind, lo: int, hi: int)
    requires forall k :: 0 <= k < |log| && Admitted(mode, log[k].event) ==> !(lo <= log[k].minute < hi)
    ensures Tally(mode, log, f, lo, hi) == 0
  {
    if log != [] {
      TallyNone(mode, log[..|log| - 1], f, lo, hi);
    }
  }

  lemma {:induction false} CountedNone(mode: Mode, log: seq<Entry>, lo: int, hi: int)
    requires forall k :: 0 <= k < |log| && Admitted(mode, log[k].event) ==> !(lo <= log[k].minute < hi)
    ensures Counted(ZERO, mode, log, lo, hi)
  {
    forall f: Kind ensures ZERO.Get(f) == Tally(mode, log, f, lo, hi) {
      TallyNone(mode, log, f, lo, hi);
    }
  }

  lemma {:induction false} CountedPlus(c: Counts, d: Counts, mode: Mode, log: seq<Entry>, lo: int, mid: int, hi: int)
    requires lo <= mid <= hi
    requires Counted(c, mode, log, lo, mid) && Counted(d, mode, log, mid, hi)
    ensures Counted(c.Plus(d), mode, log, lo, hi)
  {
    forall f: Kind ensures c.Plus(d).Get(f) == Tally(mode, log, f, lo, hi) {
      TallySplit(mode, log, f, lo, mid, hi);
    }
  }

  /** One more event, in the range or not. */
  lemma {:induction false} CountedSnoc(c: Counts, mode: Mode, log: seq<Entry>, e: Entry, lo: int, hi: int)
    requires Counted(c, mode, log, lo, hi)
    ensures
      var d := if Admitted(mode, e.event) && lo <= e.minute < hi then c.Add(e.event) else c;
      Counted(d, mode, log + [e], lo, hi)
  {
    assert (log + [e])[..|log|] == log;
  }

  datatype Slot = Slot(minute: nat, counts: Counts)

  /** The slot of residue i against the log: it holds the counts of the last minute of its
      residue that had an admitted event. */
  ghost predicate SlotOk(s: Slot, i: nat, mode: Mode, log: seq<Entry>, latest: nat) {
    && s.minute <= latest
    && (Residue(s.minute) == i || (s.minute == 0 && s.counts == ZERO))
    && (Residue(s.minute) == i ==> Counted(s.counts, mode, log, s.minute, s.minute + 1))
    && forall k :: 0 <= k < |log| && Admitted(mode, log[k].event) && Residue(log[k].minute) == i ==>
         log[k].minute <= s.minute
  }

  function Residue(m: nat): nat {
    m % MINUTES
  }

  ghost predicate RingOk(slots: seq<Slot>, mode: Mode, log: seq<Entry>, latest: nat) {
    && |slots| == MINUTES
    && (forall i :: 0 <= i < MINUTES ==> SlotOk(slots[i], i, mode, log, latest))
    && forall k :: 0 <= k < |log| ==> log[k].minute <= latest
  }

  /** Two minutes of one residue are equal or a ring apart. */
  lemma SameResidue(a: nat, b: nat)
    requires a < b && Residue(a) == Residue(b)
    ensures b - a >= MINUTES
  {
  }

  /** What Timeline reads for minute m from its slot: within the last 1,440 minutes, exactly the
      log's counts. */
  lemma {:induction false} SlotReadsLog(s: Slot, mode: Mode, log: seq<Entry>, latest: nat, now: nat, m: nat)
    requires SlotOk(s, Residue(m), mode, log, latest) && latest <= now
    requires now - MINUTES < m <= now
    ensures Counted(if s.minute == m then s.counts else ZERO, mode, log, m, m + 1)
  {
    if s.minute != m {
      forall k | 0 <= k < |log| && Admitted(mode, log[k].event) ensures log[k].minute != m {
        if log[k].minute == m {
          SameResidue(m, s.minute);
        }
      }
      CountedNone(mode, log, m, m + 1);
    }
  }

  /** The slot after an admitted event of its residue in minute m, the latest so far: claimed
      and zeroed when it still holds an older minute, then incremented. */
  function Bumped(s: Slot, e: Entry): Slot {
    Slot(e.minute, (if s.minute == e.minute then s.counts else ZERO).Add(e.event))
  }

  lemma {:induction false} SlotBumped(s: Slot, mode: Mode, log: seq<Entry>, latest: nat, e: Entry)
    requires SlotOk(s, Residue(e.minute), mode, log, latest) && latest <= e.minute
    requires Admitted(mode, e.event)
    ensures SlotOk(Bumped(s, e), Residue(e.minute), mode, log + [e], e.minute)
  {
    var c := if s.minute == e.minute then s.counts else ZERO;
    if s.minute != e.minute {
      CountedNone(mode, log, e.minute, e.minute + 1);
    }
    CountedSnoc(c, mode, log, e, e.minute, e.minute + 1);
  }

  lemma {:induction false} SlotUntouched(s: Slot, i: nat, mode: Mode, log: seq<Entry>, latest: nat, e: Entry)
    requires SlotOk(s, i, mode, log, latest) && latest <= e.minute
    requires !Admitted(mode, e.event) || Residue(e.minute) != i
    ensures SlotOk(s, i, mode, log + [e], e.minute)
  {
    if Residue(s.minute) == i {
      CountedSnoc(s.counts, mode, log, e, s.minute, s.minute + 1);
    }
  }

  /** The ring after one event. */
  lemma {:induction false} RingAfterEvent(slots: seq<Slot>, mode: Mode, log: seq<Entry>, latest: nat, e: Entry)
    requires RingOk(slots, mode, log, latest) && latest <= e.minute
    ensures
      var i := Residue(e.minute);
      RingOk(if Admitted(mode, e.event) then slots[i := Bumped(slots[i], e)] else slots, mode, log + [e], e.minute)
  {
    var i := Residue(e.minute);
    var slots' := if Admitted(mode, e.event) then slots[i := Bumped(slots[i], e)] else slots;
    forall j | 0 <= j < MINUTES ensures SlotOk(slots'[j], j, mode, log + [e], e.minute) {
      if j == i && Admitted(mode, e.event) {
        SlotBumped(slots[i], mode, log, latest, e);
      } else {
        SlotUntouched(slots[j], j, mode, log, latest, e);
      }
    }
  }

  /** One point of the series. */
  datatype Point = Point(start: int, counts: Counts)

  /** A point starting at minute start and bm minutes wide counts exactly the admitted events of
      its minutes among the last 1,440. */
  ghost predicate PointOk(p: Point, mode: Mode, log: seq<Entry>, nowMin: nat, start: int, bm: int) {
    p.start == start * 60 && Counted(p.counts, mode, log, Max(start, nowMin - MINUTES + 1), start + bm)
  }

  class Timeline {
    const mode: Mode
    const buckets: array<Slot>
    /** Every event since the last reset, and the latest minute seen. */
    ghost var log: seq<Entry>
    ghost var latest: nat

    ghost predicate Valid()
      reads this, buckets
    {
      buckets.Length == MINUTES && RingOk(buckets[..], mode, log, latest)
    }

    constructor (mode: Mode)
      ensures Valid() && this.mode == mode && fresh(buckets) && log == [] && latest == 0
    {
      this.mode := mode;
      buckets := new Slot[MINUTES](_ => Slot(0, ZERO));
      log, latest := [], 0;
    }

    /** at: the slot for the minute of now (Unix seconds), claimed and zeroed when it holds an
        older minute. */
    method At(now: nat) returns (i: nat)
      requires buckets.Length == MINUTES
      modifies buckets
      ensures i == Residue(now / 60)
      ensures
        var (m, s) := (now / 60, old(buckets[..]));
        buckets[..] == s[i := Slot(m, if s[i].minute == m then s[i].counts else ZERO)]
    {
      var m := now / 60;
      i := m % MINUTES;
      if buckets[i].minute != m {
        buckets[i] := Slot(m, ZERO);
      }
    }

    /** RecordQuery, RecordCacheHit, RecordForwardFailure and RecordUpstreamError, as far as the
        graph is concerned. */
    method Record(now: nat, e: Event)
      requires Valid() && latest <= now / 60
      modifies this, buckets
      ensures Valid() && latest == now / 60
      ensures log == old(log) + [Entry(now / 60, e)]
    {
      ghost var entry := Entry(now / 60, e);
      RingAfterEvent(buckets[..], mode, log, latest, entry);
      if Admitted(mode, e) {
        var i := At(now);
        buckets[i] := Slot(buckets[i].minute, buckets[i].counts.Add(e));
        assert buckets[..] == old(buckets[..])[i := Bumped(old(buckets[i]), entry)];
      }
      log, latest := log + [entry], now / 60;
    }

    /** reset: a purge empties every slot. */
    method Reset()
      requires Valid()
      modifies this, buckets
      ensures Valid() && log == [] && latest == old(latest)
    {
      for i := 0 to buckets.Length
        invariant forall k :: 0 <= k < i ==> buckets[k] == Slot(0, ZERO)
        invariant latest == old(latest)
      {
        buckets[i] := Slot(0, ZERO);
      }
      log := [];
    }

    /** The inner loop: the counts of the minutes [from, to) within the last 1,440. */
    method SumMinutes(from: int, to: int, nowMin: nat) returns (sum: Counts)
      requires Valid() && latest <= nowMin && 0 <= from <= to && from <= nowMin
      ensures Counted(sum, mode, log, Max(from, nowMin - MINUTES + 1), to)
    {
      sum := ZERO;
      var m := from;
      ghost var lo := Max(from, nowMin - MINUTES + 1);
      CountedNone(mode, log, lo, from);
      while m < to && m <= nowMin
        invariant from <= m <= to && m <= nowMin + 1
        invariant Counted(sum, mode, log, lo, m)
        decreases nowMin + 1 - m
      {
        if nowMin - m < MINUTES {
          var b := buckets[m % MINUTES];
          ReadAdds(sum, b, mode, log, latest, nowMin, lo, m);
          if b.minute == m {
            sum := sum.Plus(b.counts);
          }
        } else {
          CountedEmpty(sum, mode, log, lo, m, m + 1);
        }
        m := m + 1;
      }
      CountedLater(sum, mode, log, lo, m, to);
    }

    /** Timeline: window and bucket in nanoseconds, now in Unix seconds.  The series must not
        start before the epoch, where the ring index would be negative. */
    method Series(window: int, bucket: int, now: nat) returns (out: seq<Point>)
      requires Valid() && latest <= now / 60
      requires 0 <= FirstMinute(window, bucket, now / 60)
      ensures
        var nowMin := now / 60;
        var bm := BucketMinutes(bucket);
        var n := Points(window, bm);
        && |out| == n
        && forall k :: 0 <= k < n ==> PointOk(out[k], mode, log, nowMin, StartOf(nowMin / bm, bm, n, k), bm)
    {
      var w := if window > MINUTES * MINUTE then MINUTES * MINUTE else window;
      var bm := bucket / MINUTE;
      if bm < 1 {
        bm := 1;
      }
      var n := w / MINUTE / bm;
      if n < 1 {
        n := 1;
      }
      var nowMin := now / 60;
      var lastStart := nowMin / bm * bm;
      var firstStart := lastStart - (n - 1) * bm;
      out := [];
      var start := firstStart;
      FirstStart(nowMin / bm, bm, n);
      StartNotLater(nowMin, bm);
      while start <= lastStart
        invariant |out| <= n && start == StartOf(nowMin / bm, bm, n, |out|)
        invariant forall k :: 0 <= k < |out| ==> PointOk(out[k], mode, log, nowMin, StartOf(nowMin / bm, bm, n, k), bm)
        decreases n - |out|
      {
        StartInRange(nowMin / bm, bm, n, |out|);
        StartNext(nowMin / bm, bm, n, |out|);
        StartsGrow(nowMin / bm, bm, n, |out|);
        var sum := SumMinutes(start, start + bm, nowMin);
        out := out + [Point(start * 60, sum)];
        start := start + bm;
      }
      StartInRange(nowMin / bm, bm, n, |out|);
    }
  }

  function Max(a: int, b: int): int {
    if a >= b then a else b
  }

  /** time.Minute in nanoseconds. */
  const MINUTE: int := 60_000_000_000

  /** The bucket width in whole minutes, at least one. */
  function BucketMinutes(bucket: int): (bm: int)
    ensures bm >= 1
  {
    Max(bucket / MINUTE, 1)
  }

  function Points(window: int, bm: int): (n: int)
    requires bm >= 1
    ensures n >= 1
  {
    var w := if window > MINUTES * MINUTE then MINUTES * MINUTE else window;
    Max(w / MINUTE / bm, 1)
  }

  /** The start of point k, in minutes: a multiple of the width; the last point, k = n - 1,
      starts at q * bm with q the current minute divided by the width. */
  function StartOf(q: int, bm: int, n: int, k: int): int {
    (q - (n - 1) + k) * bm
  }

  /** The first minute of the series. */
  function FirstMinute(window: int, bucket: int, nowMin: nat): int {
    var bm := BucketMinutes(bucket);
    StartOf(nowMin / bm, bm, Points(window, bm), 0)
  }

  /** From a day after the epoch on, every series starts after it. */
  lemma SeriesAfterEpoch(window: int, bucket: int, nowMin: nat)
    requires MINUTES <= nowMin
    ensures 0 <= FirstMinute(window, bucket, nowMin)
  {
    var bm := BucketMinutes(bucket);
    var n := Points(window, bm);
    FirstStart(nowMin / bm, bm, n);
    StartNotLater(nowMin, bm);
    if n > 1 {
      var w := (if window > MINUTES * MINUTE then MINUTES * MINUTE else window) / MINUTE;
      assert n == w / bm && w <= MINUTES;
      Fits(w, bm);
      assert (n - 1) * bm == n * bm - bm;
      Nearest(nowMin, bm);
    }
  }

  /** The shape of a series over a window of w whole minutes, at most a day: the buckets are as many
      whole minutes wide as asked for, at least one, and follow one another; the last one starts at the
      multiple of the width that holds the current minute; and there are as many as fit into the
      window, at least one. */
  lemma SeriesShape(window: int, bucket: int, nowMin: nat, w: nat, k: nat)
    requires w * MINUTE <= window && w <= MINUTES && (w < MINUTES ==> window < (w + 1) * MINUTE)
    ensures
      var bm := BucketMinutes(bucket);
      var n := Points(window, bm);
      && (if bucket < MINUTE then bm == 1 else bm * MINUTE <= bucket < (bm + 1) * MINUTE)
      && (if w < bm then n == 1 else n * bm <= w < n * bm + bm)
      && StartOf(nowMin / bm, bm, n, n - 1) == nowMin / bm * bm
      && StartOf(nowMin / bm, bm, n, n - 1) <= nowMin < StartOf(nowMin / bm, bm, n, n - 1) + bm
      && StartOf(nowMin / bm, bm, n, k + 1) == StartOf(nowMin / bm, bm, n, k) + bm
  {
    var bm := BucketMinutes(bucket);
    var n := Points(window, bm);
    assert (if window > MINUTES * MINUTE then MINUTES * MINUTE else window) / MINUTE == w;
    Whole(w, bm);
    Whole(nowMin, bm);
    StartNext(nowMin / bm, bm, n, k);
  }

  lemma Whole(w: nat, bm: int)
    requires bm >= 1
    ensures w / bm * bm <= w < w / bm * bm + bm
    ensures w < bm <==> w / bm == 0
  {
    Fits(w, bm);
    Nearest(w, bm);
    if w / bm >= 1 {
      Grows(w / bm, bm);
    }
  }

  lemma Grows(x: int, bm: int)
    requires bm >= 1 && x >= 1
    ensures x * bm >= bm
  {
    assert (x - 1) * bm >= 0;
  }

  lemma Fits(w: int, bm: int)
    requires bm >= 1
    ensures w / bm * bm <= w
  {
  }

  lemma Nearest(nowMin: nat, bm: int)
    requires bm >= 1
    ensures nowMin < nowMin / bm * bm + bm
  {
  }

  lemma StartNext(q: int, bm: int, n: int, k: int)
    ensures StartOf(q, bm, n, k + 1) == StartOf(q, bm, n, k) + bm
  {
  }

  lemma FirstStart(q: int, bm: int, n: int)
    ensures StartOf(q, bm, n, 0) == q * bm - (n - 1) * bm
  {
  }

  /** The loop stops after the n-th point. */
  lemma StartInRange(q: int, bm: int, n: int, k: int)
    requires bm >= 1
    ensures StartOf(q, bm, n, k) <= q * bm <==> k <= n - 1
  {
    var d := k - (n - 1);
    assert StartOf(q, bm, n, k) == q * bm + d * bm;
    if d > 0 {
      assert d * bm > 0;
    } else {
      assert d * bm <= 0;
    }
  }

  lemma StartNotLater(nowMin: nat, bm: int)
    requires bm >= 1
    ensures 0 <= nowMin / bm * bm <= nowMin
  {
  }

  // ---- The steps of the inner loop -------------------------------------------

  lemma {:induction false} ReadAdds(sum: Counts, b: Slot, mode: Mode, log: seq<Entry>, latest: nat, nowMin: nat,
                                    lo: int, m: nat)
    requires Counted(sum, mode, log, lo, m) && lo <= m
    requires SlotOk(b, Residue(m), mode, log, latest) && latest <= nowMin && nowMin - MINUTES < m <= nowMin
    ensures Counted(if b.minute == m then sum.Plus(b.counts) else sum, mode, log, lo, m + 1)
  {
    SlotReadsLog(b, mode, log, latest, nowMin, m);
    CountedPlus(sum, if b.minute == m then b.counts else ZERO, mode, log, lo, m, m + 1);
  }

  /** Below the window the range is still empty. */
  lemma {:induction false} CountedEmpty(sum: Counts, mode: Mode, log: seq<Entry>, lo: int, m: int, hi: int)
    requires Counted(sum, mode, log, lo, m) && m <= hi <= lo
    ensures Counted(sum, mode, log, lo, hi)
  {
    forall f: Kind ensures sum.Get(f) == Tally(mode, log, f, lo, hi) {
      TallyNone(mode, log, f, lo, m);
      TallyNone(mode, log, f, lo, hi);
    }
  }

  /** No event is later than now. */
  lemma {:induction false} CountedLater(sum: Counts, mode: Mode, log: seq<Entry>, lo: int, m: int, to: int)
    requires Counted(sum, mode, log, lo, m) && m <= to
    requires m == to || (lo <= m && forall k :: 0 <= k < |log| ==> log[k].minute < m)
    ensures Counted(sum, mode, log, lo, to)
  {
    if m < to {
      CountedNone(mode, log, m, to);
      CountedPlus(sum, ZERO, mode, log, lo, m, to);
    }
  }

  // ---- The points partition the window ---------------------------------------

  function SumOf(points: seq<Point>, f: Kind): nat {
    if points == [] then 0 else SumOf(points[..|points| - 1], f) + points[|points| - 1].counts.Get(f)
  }

  /** No event of the last 1,440 minutes is counted twice or dropped between two points: the
      series sums to the log's count over the whole range it covers. */
  lemma {:induction false} SeriesConserves(points: seq<Point>, mode: Mode, log: seq<Entry>, nowMin: nat, q: int,
                                           bm: int, n: int, f: Kind)
    requires bm >= 1
    requires forall k :: 0 <= k < |points| ==> PointOk(points[k], mode, log, nowMin, StartOf(q, bm, n, k), bm)
    ensures SumOf(points, f)
            == Tally(mode, log, f, Max(StartOf(q, bm, n, 0), nowMin - MINUTES + 1), StartOf(q, bm, n, |points|))
  {
    var lo := Max(StartOf(q, bm, n, 0), nowMin - MINUTES + 1);
    if points == [] {
      TallyNone(mode, log, f, lo, StartOf(q, bm, n, 0));
    } else {
      var k := |points| - 1;
      SeriesConserves(points[..k], mode, log, nowMin, q, bm, n, f);
      StartNext(q, bm, n, k);
      StartsGrow(q, bm, n, k);
      TallyJoin(mode, log, f, lo, StartOf(q, bm, n, k), StartOf(q, bm, n, k + 1), nowMin - MINUTES + 1);
    }
  }

  lemma {:induction false} StartsGrow(q: int, bm: int, n: int, k: nat)
    requires bm >= 1
    ensures StartOf(q, bm, n, 0) <= StartOf(q, bm, n, k)
  {
    if k > 0 {
      StartsGrow(q, bm, n, k - 1);
      StartNext(q, bm, n, k - 1);
    }
  }

  lemma {:induction false} TallyJoin(mode: Mode, log: seq<Entry>, f: Kind, lo: int, mid: int, hi: int, window: int)
    requires window <= lo && (lo <= mid || lo == window) && mid <= hi
    ensures Tally(mode, log, f, lo, mid) + Tally(mode, log, f, Max(mid, window), hi) == Tally(mode, log, f, lo, hi)
  {
    if lo <= mid {
      TallySplit(mode, log, f, lo, mid, hi);
    } else {
      TallyNone(mode, log, f, lo, mid);
    }
  }
}
