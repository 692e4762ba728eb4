/** internal/querylog/zero.go: writeZeros, under a crash model.  The file has a current content
    and a durable one; a byte written since the last sync may or may not be durable, each byte
    on its own.  The images a crash can leave are the contents that take every clean byte as it
    is durable and every dirty byte from either side.  Every call of the operating system may
    fail, a write after any prefix of its bytes. */
module ZeroFile {

  type byte = x: int | 0 <= x < 256

  const ZERO_CHUNK: nat := 65536
  const ZERO_HEAD: nat := 32

  /** What is on the disk and what is in flight. */
  datatype Disk = Disk(current: seq<byte>, durable: seq<byte>)

  /** img can be what a crash now leaves. */
  ghost predicate CrashImage(d: Disk, img: seq<byte>) {
    |img| == |d.durable| == |d.current| &&
    forall i :: 0 <= i < |img| ==> img[i] == d.durable[i] || img[i] == d.current[i]
  }

  function Min(a: int, b: int): int {
    if a <= b then a else b
  }

  /** Bytes [lo, hi) zeroed, the rest as it is. */
  ghost predicate Zeroed(old_: seq<byte>, new_: seq<byte>, lo: int, hi: int) {
    |new_| == |old_| && forall i :: 0 <= i < |new_| ==> new_[i] == if lo <= i < hi then 0 else old_[i]
  }

  /** The byte is one that a crash before the call could have left. */
  predicate Untouched(entry: Disk, i: nat, b: byte) {
    (i < |entry.current| && b == entry.current[i]) || (i < |entry.durable| && b == entry.durable[i])
  }

  /** No crash now leaves a file whose body the call has changed and whose header is not all zero:
      the recovery that reads the header ignores a partly overwritten file.  entry is the disk as
      the call found it, unsynced writes of others included. */
  ghost predicate HeaderFirst(entry: Disk, d: Disk) {
    forall img, i :: CrashImage(d, img) && ZERO_HEAD <= i < |img| && !Untouched(entry, i, img[i]) ==>
      forall h :: 0 <= h < ZERO_HEAD ==> img[h] == 0
  }

  datatype Outcome = Ok | Refused | Failed

  class File {
    var current: seq<byte>
    ghost var durable: seq<byte>
    /** Every state the disk has been in since the call began. */
    ghost var history: seq<Disk>

    constructor (current: seq<byte>, ghost durable: seq<byte>)
      ensures this.current == current && this.durable == durable && history == [Disk(current, durable)]
    {
      this.current, this.durable, history := current, durable, [Disk(current, durable)];
    }

    /** WriteAt(zeros[:n], off): on a failure any prefix may have been written. */
    method WriteZeros(off: nat, n: nat, written: nat, ok: bool) returns (r: bool)
      requires off + n <= |current| && (ok ==> written == n) && written <= n
      modifies this
      ensures r == ok && durable == old(durable)
      ensures Zeroed(old(current), current, off, off + written)
      ensures history == old(history) + [Disk(current, durable)]
    {
      var k := 0;
      while k < written
        invariant 0 <= k <= written
        invariant durable == old(durable) && history == old(history)
        invariant Zeroed(old(current), current, off, off + k)
      {
        current := current[off + k := 0];
        k := k + 1;
      }
      history := history + [Disk(current, durable)];
      return ok;
    }

    method Sync(ok: bool) returns (r: bool)
      modifies this
      ensures r == ok && current == old(current)
      ensures durable == if ok then current else old(durable)
      ensures history == old(history) + [Disk(current, durable)]
    {
      if ok {
        durable := current;
      }
      history := history + [Disk(current, durable)];
      return ok;
    }
  }

  /** The results of the operating system's calls: whether the checks of the opened file pass,
      and for the k-th write or sync whether it succeeds and how much of a failed write was done. */
  datatype Env = Env(statOk: bool, same: bool, wanted: bool, linksOk: bool, links: nat,
                     ok: nat -> bool, partial: nat -> nat)

  ghost predicate AllHeaderFirst(entry: Disk, history: seq<Disk>) {
    forall i :: 0 <= i < |history| ==> HeaderFirst(entry, history[i])
  }

  /** The writes of the chunk loop from offset off on. */
  function Chunks(off: nat, size: nat): nat
    decreases size - off
  {
    if off >= size then 0 else 1 + Chunks(off + ZERO_CHUNK, size)
  }

  /** As many as are needed for the bytes from off on, 65,536 at a time. */
  lemma {:induction false} ChunksMeans(off: nat, size: nat)
    requires off <= size
    ensures 65536 * Chunks(off, size) - 65536 < size - off <= 65536 * Chunks(off, size)
    decreases size - off
  {
    if off + ZERO_CHUNK < size {
      ChunksMeans(off + ZERO_CHUNK, size);
    }
  }

  /** The first n calls of the operating system succeed. */
  ghost predicate AllOk(env: Env, from: nat, n: nat) {
    forall k: nat :: from <= k < n ==> env.ok(k)
  }

  /** The checks of the opened file pass. */
  predicate Passes(env: Env) {
    env.statOk && env.same && env.wanted && env.linksOk && env.links <= 1
  }

  /** Before the header is durable: nothing past it has been touched. */
  lemma HeaderPending(entry: Disk, d: Disk)
    requires d.durable == entry.durable && |d.current| == |entry.current| == |entry.durable|
    requires forall i :: ZERO_HEAD <= i < |entry.current| ==> d.current[i] == entry.current[i]
    ensures HeaderFirst(entry, d)
  {
  }

  /** After the header is durable: whatever else is in flight, every crash image has it. */
  lemma HeaderDurable(entry: Disk, d: Disk)
    requires |d.durable| == |d.current|
    requires forall h :: 0 <= h < Min(ZERO_HEAD, |d.current|) ==> d.durable[h] == 0 && d.current[h] == 0
    ensures HeaderFirst(entry, d)
  {
  }

  method ZeroContent(f: File, env: Env) returns (r: Outcome)
    requires |f.durable| == |f.current| && f.history == [Disk(f.current, f.durable)]
    modifies f
    // The file keeps its size; on success exactly its bytes are zero, and durable.
    ensures |f.current| == |old(f.current)|
    ensures r == Ok ==> f.durable == f.current && forall i :: 0 <= i < |f.current| ==> f.current[i] == 0
    // It succeeds exactly when the checks pass and no write or sync of the call fails: two for
    // the header, one for each chunk, and the last sync.
    ensures r == Ok <==> Passes(env) && AllOk(env, 0, 3 + Chunks(Min(|old(f.current)|, ZERO_HEAD), |old(f.current)|))
    // A refused file is untouched.
    ensures r == Refused ==> f.current == old(f.current) && f.durable == old(f.durable) && f.history == old(f.history)
    ensures (r == Refused) <==> env.statOk && (!env.same || !env.wanted || (env.linksOk && env.links > 1))
    // At every point of the call, failed or not.
    ensures AllHeaderFirst(old(Disk(f.current, f.durable)), f.history)
  {
    ghost var entry := Disk(f.current, f.durable);
    HeaderPending(entry, f.history[0]);
    if !env.statOk {
      return Failed;
    }
    if !env.same || !env.wanted {
      return Refused;
    }
    if !env.linksOk {
      return Failed;
    }
    if env.links > 1 {
      return Refused;
    }
    var size := |f.current|;
    var head := Min(size, ZERO_HEAD);
    var w := f.WriteZeros(0, head, if env.ok(0) then head else Min(env.partial(0), head), env.ok(0));
    HeaderPending(entry, f.history[1]);
    if !w {
      return Failed;
    }
    w := f.Sync(env.ok(1));
    if !w {
      HeaderPending(entry, f.history[2]);
      return Failed;
    }
    HeaderDurable(entry, f.history[2]);
    r := ZeroBody(f, head, env, entry);
  }

  /** The loop after the header, and the last sync. */
  method ZeroBody(f: File, head: nat, env: Env, ghost entry: Disk) returns (r: Outcome)
    requires head == Min(|f.current|, ZERO_HEAD) && |f.current| == |f.durable|
    requires forall i :: 0 <= i < head ==> f.current[i] == 0 && f.durable[i] == 0
    requires AllHeaderFirst(entry, f.history)
    modifies f
    ensures |f.current| == |f.durable| == |old(f.current)| && AllHeaderFirst(entry, f.history)
    ensures r != Refused
    ensures r == Ok <==> AllOk(env, 2, 3 + Chunks(head, |old(f.current)|))
    ensures r == Ok ==> f.durable == f.current && forall i :: 0 <= i < |f.current| ==> f.current[i] == 0
  {
    var size := |f.current|;
    var off, k := head, 2;
    while off < size
      invariant head <= off && k >= 2
      invariant k + Chunks(off, size) == 2 + Chunks(head, size) && AllOk(env, 2, k)
      invariant |f.current| == size == |f.durable|
      invariant forall i :: 0 <= i < Min(off, size) ==> f.current[i] == 0
      invariant forall i :: 0 <= i < head ==> f.durable[i] == 0
      invariant AllHeaderFirst(entry, f.history)
      decreases size - off
    {
      var n := Min(size - off, ZERO_CHUNK);
      var w := f.WriteZeros(off, n, if env.ok(k) then n else Min(env.partial(k), n), env.ok(k));
      HeaderDurable(entry, Disk(f.current, f.durable));
      if !w {
        return Failed;
      }
      off, k := off + ZERO_CHUNK, k + 1;
    }
    var synced := f.Sync(env.ok(k));
    HeaderDurable(entry, Disk(f.current, f.durable));
    return if synced then Ok else Failed;
  }

  /** Why the order matters: with the body written before the header is durable, a crash can
      leave a zeroed frame under a valid header. */
  lemma BodyFirstFails(original: seq<byte>)
    requires |original| > ZERO_HEAD && original[0] != 0 && original[ZERO_HEAD] != 0
    ensures !HeaderFirst(Disk(original, original), Disk(original[0 := 0][ZERO_HEAD := 0], original))
  {
    var d := Disk(original[0 := 0][ZERO_HEAD := 0], original);
    var img := original[ZERO_HEAD := 0];
    assert CrashImage(d, img);
    assert img[ZERO_HEAD] != original[ZERO_HEAD] && img[0] != 0;
  }
}
