/** `load_traces`: drain the collector in batches into an array that doubles. */
module TraceLoader {
  import opened Uapi
  import opened TraceBuffer

  const READ_BATCH_SIZE: nat := 256
  const INITIAL_TRACE_CAPACITY: nat := 1024

  /** `memcpy` of a batch to position `at`. */
  method CopyBatch(traces: array<MemAccess>, at: nat, batch: seq<MemAccess>)
    requires at + |batch| <= traces.Length
    modifies traces
    ensures traces[..at + |batch|] == old(traces[..at]) + batch
  {
    var k := 0;
    while k < |batch|
      invariant k <= |batch| && traces[..at + k] == old(traces[..at]) + batch[..k]
    {
      traces[at + k] := batch[k];
      assert traces[..at + k + 1] == traces[..at + k] + [batch[k]];
      k := k + 1;
    }
    assert batch[..k] == batch;
  }

  /** `realloc` to a new size that holds the first `count` entries. */
  method Resize(traces: array<MemAccess>, count: nat, size: nat) returns (bigger: array<MemAccess>)
    requires count <= traces.Length && count <= size
    ensures fresh(bigger) && bigger.Length == size && bigger[..count] == traces[..count]
  {
    bigger := new MemAccess[size](_ => MemAccess(0, false));
    var k := 0;
    while k < count
      invariant k <= count && bigger[..k] == traces[..k]
    {
      bigger[k] := traces[k];
      assert bigger[..k + 1] == bigger[..k] + [traces[k]];
      k := k + 1;
    }
  }

  /** Store a batch, doubling the array first if it does not fit: one doubling is
      always enough. Fails only if realloc does. */
  method StoreBatch(traces: array<MemAccess>, count: nat, batch: seq<MemAccess>, grows: nat -> bool)
    returns (ok: bool, stored: array<MemAccess>)
    requires 256 <= traces.Length && count <= traces.Length && |batch| <= 256
    modifies traces
    ensures ok <==> count + |batch| <= traces.Length || grows(traces.Length * 2)
    ensures !ok ==> stored == traces && stored[..count] == old(traces[..count])
    ensures ok ==>
      && (stored == traces || fresh(stored)) && traces.Length <= stored.Length <= traces.Length * 2
      && count + |batch| <= stored.Length && stored[..count + |batch|] == old(traces[..count]) + batch
  {
    stored := traces;
    if count + |batch| > traces.Length {
      var capacity := traces.Length * 2;
      if !grows(capacity) {
        return false, traces;
      }
      stored := Resize(traces, count, capacity);
    }
    CopyBatch(stored, count, batch);
    ok := true;
  }

  lemma SlicePrefix<T>(s: seq<T>, from: nat, to: nat, more: seq<T>, part: seq<T>)
    requires from <= to <= |s| && part + more == s[from..to]
    ensures part <= s[from..]
    ensures more == [] && to == |s| ==> part == s[from..]
  {
    assert part == s[from..to][..|part|];
    assert s[from..to][..|part|] == s[from..][..|part|];
  }

  lemma NextBatch<T>(s: seq<T>, from: nat, mid: nat, to: nat, part: seq<T>)
    requires from <= mid <= to <= |s| && part == s[from..mid]
    ensures part + s[mid..to] == s[from..to]
  {}

  /** What the first `count` array entries and the last batch make up. */
  ghost predicate Loaded(tb: TraceBuffer, start: nat, traces: array<MemAccess>, count: nat, batch: seq<MemAccess>)
    reads tb, tb.chunks, traces
  {
    && tb.Valid() && start <= tb.Position() <= |tb.Contents()|
    && READ_BATCH_SIZE <= traces.Length && count <= traces.Length && |batch| <= READ_BATCH_SIZE
    && traces[..count] + batch == tb.Contents()[start..tb.Position()]
    && (batch == [] ==> tb.Position() == |tb.Contents()|)
  }

  /** One round of the read loop: store the batch and read the next. */
  method Round(tb: TraceBuffer, ghost start: nat, traces: array<MemAccess>, count: nat, batch: seq<MemAccess>,
      grows: nat -> bool)
    returns (ok: bool, stored: array<MemAccess>, next: seq<MemAccess>)
    requires Loaded(tb, start, traces, count, batch) && batch != []
    modifies tb`readChunk, tb`readOffset, tb`readIndex, traces
    ensures (forall c: nat :: grows(c)) ==> ok
    ensures ok ==> (stored == traces || fresh(stored)) && Loaded(tb, start, stored, count + |batch|, next)
    ensures ok ==> tb.Position() > old(tb.Position()) || next == []
    ensures !ok ==> tb.Valid() && tb.Position() == old(tb.Position()) && traces[..count] <= tb.Contents()[start..]
  {
    ok, stored := StoreBatch(traces, count, batch, grows);
    next := [];
    if !ok {
      SlicePrefix(tb.Contents(), start, tb.Position(), batch, traces[..count]);
      return;
    }
    ghost var mid := tb.Position();
    next := tb.Read(READ_BATCH_SIZE);
    NextBatch(tb.Contents(), start, mid, tb.Position(), stored[..count + |batch|]);
  }

  /** The read loop of `load_traces`; `done` unless a realloc failed. */
  method Drain(tb: TraceBuffer, grows: nat -> bool) returns (done: bool, traces: array<MemAccess>, count: nat)
    requires tb.Valid()
    modifies tb`readChunk, tb`readOffset, tb`readIndex
    ensures tb.Valid() && count <= traces.Length && fresh(traces)
    ensures old(tb.Position()) <= tb.Position() <= |tb.Contents()|
    ensures traces[..count] <= tb.Contents()[old(tb.Position())..]
    ensures (forall c: nat :: grows(c)) ==> done
    ensures done ==> traces[..count] == tb.Contents()[old(tb.Position())..] && tb.Position() == |tb.Contents()|
  {
    hide TraceBuffer.Valid, TraceBuffer.Position, Flat;
    traces := new MemAccess[INITIAL_TRACE_CAPACITY](_ => MemAccess(0, false));
    count := 0;
    tb.CursorInside();
    ghost var start := tb.Position();
    var batch := tb.Read(READ_BATCH_SIZE);
    assert traces[..count] + batch == batch;
    while |batch| > 0
      invariant Loaded(tb, start, traces, count, batch) && fresh(traces)
      decreases |tb.Contents()| - tb.Position(), |batch|
    {
      var ok, stored, next := Round(tb, start, traces, count, batch, grows);
      if !ok {
        return false, traces, count;
      }
      traces, count, batch := stored, count + |batch|, next;
    }
    SlicePrefix(tb.Contents(), start, tb.Position(), [], traces[..count]);
    done := true;
  }

  /** Everything unread, in order; `grows` says for each new capacity whether realloc
      would succeed, and when one does not, what was loaded so far is returned. */
  method LoadTraces(tb: TraceBuffer, grows: nat -> bool) returns (traces: array<MemAccess>, count: nat)
    requires tb.Valid()
    modifies tb`readChunk, tb`readOffset, tb`readIndex
    ensures tb.Valid() && count <= traces.Length
    ensures old(tb.Position()) <= |tb.Contents()| && traces[..count] <= tb.Contents()[old(tb.Position())..]
    ensures (forall c: nat :: grows(c)) ==>
      traces[..count] == tb.Contents()[old(tb.Position())..] && tb.Position() == |tb.Contents()|
      && (0 < count ==> traces.Length == count)
  {
    var done;
    done, traces, count := Drain(tb, grows);
    if done && 0 < count < traces.Length {
      traces := Resize(traces, count, count);
    }
  }
}
