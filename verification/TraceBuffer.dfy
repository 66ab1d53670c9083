/** The trace collector: a linked list of 256-entry chunks written at one end, with a
    read cursor that survives reaching the end. */
module TraceBuffer {
  import opened Uapi

  const CHUNK_SIZE: nat := 256

  // ---- what chunks hold, as values ----

  /** The contents of all chunks but the last are full chunks; none is empty. */
  predicate Packed(vals: seq<seq<MemAccess>>) {
    && (forall i :: 0 <= i < |vals| ==> 1 <= |vals[i]| <= CHUNK_SIZE)
    && forall i :: 0 <= i < |vals| - 1 ==> |vals[i]| == CHUNK_SIZE
  }

  function Flat(vals: seq<seq<MemAccess>>): (s: seq<MemAccess>) {
    if vals == [] then [] else Flat(vals[..|vals| - 1]) + vals[|vals| - 1]
  }

  lemma {:induction false} FlatLength(vals: seq<seq<MemAccess>>)
    requires Packed(vals)
    ensures |Flat(vals)| == if vals == [] then 0 else CHUNK_SIZE * (|vals| - 1) + |vals[|vals| - 1]|
  {
    if |vals| > 1 { FlatLength(vals[..|vals| - 1]); }
  }

  /** Entry `j` of chunk `i` is entry `256 i + j` of the whole. */
  lemma {:induction false} FlatAt(vals: seq<seq<MemAccess>>, i: nat, j: nat)
    requires Packed(vals) && i < |vals| && j < |vals[i]|
    ensures 256 * i + j < |Flat(vals)| && Flat(vals)[256 * i + j] == vals[i][j]
  {
    var init := vals[..|vals| - 1];
    FlatLength(init);
    FlatLength(vals);
    if i < |init| { FlatAt(init, i, j); }
  }

  /** Appending to the last chunk, or a new chunk, appends to the whole. */
  lemma FlatAppend(vals: seq<seq<MemAccess>>, e: MemAccess)
    requires Packed(vals)
    ensures vals != [] ==> Flat(vals[|vals| - 1 := vals[|vals| - 1] + [e]]) == Flat(vals) + [e]
    ensures Flat(vals + [[e]]) == Flat(vals) + [e]
  {
    if vals != [] {
      var n := |vals| - 1;
      assert vals[n := vals[n] + [e]][..n] == vals[..n];
    }
    assert (vals + [[e]])[..|vals|] == vals;
  }

  lemma OneEntry(e: MemAccess)
    ensures Flat([[e]]) == [e] && Packed([[e]]) && Flat([]) == []
  {
    FlatAppend([], e);
    assert [] + [[e]] == [[e]];
  }

  // ---- the linked list ----

  /** `struct trace_chunk`, its array embedded; `next` is null where the list returns
      to its head. */
  class TraceChunk {
    var entries: seq<MemAccess>
    var count: nat
    var next: TraceChunk?

    constructor ()
      ensures |entries| == CHUNK_SIZE && count == 0 && next == null
    {
      entries := seq(CHUNK_SIZE, _ => MemAccess(0, false));
      count, next := 0, null;
    }
  }

  /** Chunk `i` of a list holds `vals[i]` and is linked to the next. */
  ghost predicate ChunkAt(chunks: seq<TraceChunk>, vals: seq<seq<MemAccess>>, i: nat)
    requires i < |chunks| == |vals|
    reads chunks
  {
    && |chunks[i].entries| == CHUNK_SIZE
    && chunks[i].count == |vals[i]| <= CHUNK_SIZE
    && chunks[i].entries[..chunks[i].count] == vals[i]
    && chunks[i].next == if i + 1 < |chunks| then chunks[i + 1] else null
  }

  class TraceBuffer {
    var first: TraceChunk?
    var writeChunk: TraceChunk?
    var readChunk: TraceChunk?
    var readOffset: nat
    var totalCount: nat
    /** The linked chunks in order, what each holds, and where the cursor is. */
    ghost var chunks: seq<TraceChunk>
    ghost var vals: seq<seq<MemAccess>>
    ghost var readIndex: nat

    /** Every linked chunk is non-empty, all but the last are full, the total counts
        the entries, and the cursor is inside a chunk or at its end. */
    ghost predicate Valid()
      reads this, chunks
    {
      && |chunks| == |vals| && Packed(vals)
      && (forall i, j :: 0 <= i < j < |chunks| ==> chunks[i] != chunks[j])
      && (forall i :: 0 <= i < |chunks| ==> ChunkAt(chunks, vals, i))
      && first == (if chunks == [] then null else chunks[0])
      && writeChunk == (if chunks == [] then null else chunks[|chunks| - 1])
      && totalCount == |Flat(vals)|
      && if chunks == [] then readChunk == null && readIndex == 0 && readOffset == 0
         else readIndex < |chunks| && readChunk == chunks[readIndex] && readOffset <= |vals[readIndex]|
    }

    ghost function Chunks(): set<object>
      reads this
    {
      set c: TraceChunk | c in chunks :: c as object
    }

    /** All entries pushed, and how many of them have been read. */
    ghost function Contents(): seq<MemAccess>
      reads this
    {
      Flat(vals)
    }

    ghost function Position(): nat
      reads this
    {
      CHUNK_SIZE * readIndex + readOffset
    }

    /** The cursor is never past the end, and there exactly when nothing follows it. */
    lemma CursorInside()
      requires Valid()
      ensures Position() <= |Contents()|
      ensures chunks != [] && readOffset < |vals[readIndex]|
        ==> Position() < |Contents()| && Contents()[Position()] == vals[readIndex][readOffset]
      ensures chunks == [] || (readOffset == |vals[readIndex]| && readIndex == |chunks| - 1)
        ==> Position() == |Contents()|
    {
      FlatLength(vals);
      if chunks != [] {
        if readOffset < |vals[readIndex]| { FlatAt(vals, readIndex, readOffset); }
        if readIndex < |chunks| - 1 { assert |vals[readIndex]| == CHUNK_SIZE; }
      }
    }

    /** `trace_buffer_init`. */
    constructor ()
      ensures Valid() && Contents() == [] && Position() == 0 && chunks == []
    {
      first, writeChunk, readChunk, readOffset, totalCount := null, null, null, 0, 0;
      chunks, vals, readIndex := [], [], 0;
    }

    /** Write into the last chunk, which has room. */
    method Append(entry: MemAccess)
      requires Valid() && chunks != [] && |vals[|vals| - 1]| < CHUNK_SIZE
      modifies this, writeChunk
      ensures Valid() && Position() == old(Position()) && chunks == old(chunks)
      ensures Contents() == old(Contents()) + [entry]
    {
      ghost var n := |chunks| - 1;
      assert ChunkAt(chunks, vals, n);
      FlatAppend(vals, entry);
      writeChunk.entries := writeChunk.entries[writeChunk.count := entry];
      writeChunk.count := writeChunk.count + 1;
      vals := vals[n := vals[n] + [entry]];
      totalCount := totalCount + 1;
      forall i | 0 <= i < |chunks| ensures ChunkAt(chunks, vals, i) {
        assert old(ChunkAt(chunks, vals, i));
        if i < n { assert chunks[i] != chunks[n]; }
      }
    }

    /** Link the first chunk ever; the cursor starts there. */
    method LinkFirst(entry: MemAccess)
      requires Valid() && chunks == []
      modifies this
      ensures Valid() && Position() == old(Position()) == 0
      ensures |chunks| == 1 && fresh(chunks[0])
      ensures Contents() == [entry]
    {
      hide Flat;
      OneEntry(entry);
      var newChunk := new TraceChunk();
      newChunk.entries := newChunk.entries[0 := entry];
      newChunk.count := 1;
      first, writeChunk, readChunk, readOffset := newChunk, newChunk, newChunk, 0;
      chunks, vals, totalCount := [newChunk], [[entry]], totalCount + 1;
      assert ChunkAt(chunks, vals, 0);
    }

    /** Link another chunk after the full last one; the cursor stays. */
    method LinkNext(entry: MemAccess)
      requires Valid() && chunks != [] && |vals[|vals| - 1]| == CHUNK_SIZE
      modifies this, writeChunk
      ensures Valid() && Position() == old(Position())
      ensures |chunks| == |old(chunks)| + 1 && chunks[..|chunks| - 1] == old(chunks) && fresh(chunks[|chunks| - 1])
      ensures Contents() == old(Contents()) + [entry]
    {
      ghost var n := |chunks|;
      FlatAppend(vals, entry);
      assert ChunkAt(chunks, vals, n - 1);
      var newChunk := new TraceChunk();
      newChunk.entries := newChunk.entries[0 := entry];
      newChunk.count := 1;
      writeChunk.next := newChunk;
      writeChunk := newChunk;
      chunks := chunks + [newChunk];
      vals := vals + [[entry]];
      totalCount := totalCount + 1;
      forall i | 0 <= i < |chunks| ensures ChunkAt(chunks, vals, i) {
        if i < n {
          assert old(ChunkAt(chunks, vals, i)) && chunks[i] == old(chunks)[i] && vals[i] == old(vals)[i];
          if i < n - 1 { assert chunks[i] != chunks[n - 1]; }
        }
      }
    }

    /** `trace_buffer_push`; `allocates` says whether kmalloc would succeed. */
    method Push(entry: MemAccess, allocates: bool) returns (ok: bool)
      requires Valid()
      modifies this, Chunks()
      ensures Valid() && Position() == old(Position()) && fresh(Chunks() - old(Chunks()))
      ensures ok <==> allocates || |old(Contents())| % 256 != 0
      ensures Contents() == if ok then old(Contents()) + [entry] else old(Contents())
    {
      FlatLength(vals);
      assert chunks != [] ==> ChunkAt(chunks, vals, |chunks| - 1);
      assert writeChunk != null ==> writeChunk in chunks && writeChunk in Chunks();
      if writeChunk == null || writeChunk.count == CHUNK_SIZE {
        if !allocates {
          return false;
        }
        if writeChunk == null {
          LinkFirst(entry);
        } else {
          LinkNext(entry);
          assert forall c :: c in chunks[..|chunks| - 1] ==> c in old(chunks) && c in old(Chunks());
        }
      } else {
        Append(entry);
      }
      ok := true;
    }

    /** Move an exhausted cursor to the next chunk; false at the end of the list. */
    method Advance() returns (more: bool)
      requires Valid()
      modifies this`readChunk, this`readOffset, this`readIndex
      ensures Valid() && Position() == old(Position())
      ensures more <==> Position() < |Contents()|
      ensures more ==> readChunk != null && readOffset < |readChunk.entries| && readOffset < |vals[readIndex]|
      ensures more ==> readChunk.entries[readOffset] == Contents()[Position()]
    {
      CursorInside();
      if readChunk == null {
        return false;
      }
      assert ChunkAt(chunks, vals, readIndex);
      if readOffset >= readChunk.count {
        if readChunk.next == null {
          return false;
        }
        assert |vals[readIndex]| == CHUNK_SIZE;
        readChunk := readChunk.next;
        readOffset := 0;
        readIndex := readIndex + 1;
        CursorInside();
        assert ChunkAt(chunks, vals, readIndex);
      }
      assert vals[readIndex][readOffset] == readChunk.entries[readOffset];
      more := true;
    }

    /** The entry under the cursor, which moves past it. */
    method Take() returns (entry: MemAccess)
      requires Valid() && readChunk != null && readOffset < |readChunk.entries| && readOffset < |vals[readIndex]|
      modifies this`readOffset
      ensures Valid() && Position() == old(Position()) + 1 && entry == readChunk.entries[old(readOffset)]
    {
      entry := readChunk.entries[readOffset];
      readOffset := readOffset + 1;
    }

    /** The loop of `trace_read`: copy up to `maxEntries` entries from the cursor on. */
    method Read(maxEntries: nat) returns (out: seq<MemAccess>)
      requires Valid()
      modifies this`readChunk, this`readOffset, this`readIndex
      ensures Valid() && old(Position()) <= Position() <= |Contents()|
      ensures out == Contents()[old(Position())..Position()]
      ensures Position() == Min(old(Position()) + maxEntries, |Contents()|)
    {
      hide TraceBuffer.Valid, TraceBuffer.Position, Flat;
      out := [];
      CursorInside();
      ghost var start := Position();
      while |out| < maxEntries
        invariant Valid() && start + |out| == Position() <= |Contents()|
        invariant |out| <= maxEntries && out == Contents()[start..Position()] && Contents() == old(Contents())
        decreases maxEntries - |out|
      {
        var more := Advance();
        if !more {
          break;
        }
        var entry := Take();
        out := out + [entry];
        CursorInside();
      }
    }

    /** `trace_buffer_free`: unlink every chunk from the front and reset the fields. */
    method Free()
      requires Valid()
      modifies this
      ensures Valid() && Contents() == [] && Position() == 0
    {
      ghost var k := 0;
      while first != null
        invariant k <= |chunks| && |chunks| == |vals| && chunks == old(chunks)
        invariant first == if k < |chunks| then chunks[k] else null
        invariant forall i :: 0 <= i < |chunks| ==> ChunkAt(chunks, vals, i)
        decreases |chunks| - k
      {
        assert ChunkAt(chunks, vals, k);
        first := first.next;
        k := k + 1;
      }
      writeChunk, readChunk, readOffset, totalCount := null, null, 0, 0;
      chunks, vals, readIndex := [], [], 0;
    }

    /** One operation of a client. */
    method Perform(op: Op) returns (out: seq<MemAccess>)
      requires Valid()
      modifies this, Chunks()
      ensures Valid() && fresh(Chunks() - old(Chunks()))
      ensures (Queue(Contents(), Position()), out) == Do(Queue(old(Contents()), old(Position())), op)
    {
      CursorInside();
      match op {
        case PushOp(entry, allocates) =>
          var ok := Push(entry, allocates);
          assert ok <==> Accepts(|old(Contents())|, op);
          out := [];
        case ReadOp(max) =>
          out := Read(max);
      }
    }

    /** Any interleaving of pushes and reads. */
    method Play(ops: seq<Op>) returns (got: seq<MemAccess>)
      requires Valid()
      modifies this, Chunks()
      ensures Valid() && fresh(Chunks() - old(Chunks()))
      ensures (Queue(Contents(), Position()), got) == Run(Queue(old(Contents()), old(Position())), ops)
    {
      got := [];
      var i := 0;
      ghost var start := Queue(Contents(), Position());
      while i < |ops|
        invariant i <= |ops| && Valid() && fresh(Chunks() - old(Chunks()))
        invariant (Queue(Contents(), Position()), got) == Run(start, ops[..i])
      {
        assert ops[..i + 1][..i] == ops[..i];
        var out := Perform(ops[i]);
        got := got + out;
        i := i + 1;
      }
      assert ops[..i] == ops;
    }
  }

  // ---- first in, first out ----

  function Min(a: int, b: int): int { if a < b then a else b }

  /** The collector as a sequence with a read position. */
  datatype Queue = Queue(contents: seq<MemAccess>, pos: nat)

  datatype Op = PushOp(entry: MemAccess, allocates: bool) | ReadOp(max: nat)

  /** Does a push with `len` entries held succeed? */
  predicate Accepts(len: nat, op: Op) {
    op.PushOp? && (op.allocates || len % CHUNK_SIZE != 0)
  }

  function Do(q: Queue, op: Op): (Queue, seq<MemAccess>) {
    match op
    case PushOp(entry, _) =>
      (if Accepts(|q.contents|, op) then q.(contents := q.contents + [entry]) else q, [])
    case ReadOp(max) =>
      var to := Min(q.pos + max, |q.contents|);
      if q.pos <= to then (q.(pos := to), q.contents[q.pos..to]) else (q, [])
  }

  function Run(q: Queue, ops: seq<Op>): (Queue, seq<MemAccess>) {
    if ops == [] then (q, [])
    else
      var (q1, got1) := Run(q, ops[..|ops| - 1]);
      var (q2, got2) := Do(q1, ops[|ops| - 1]);
      (q2, got1 + got2)
  }

  /** The entries of the pushes that succeed, starting with `len` entries held. */
  function Pushed(len: nat, ops: seq<Op>): (s: seq<MemAccess>) {
    if ops == [] then []
    else
      var s := Pushed(len, ops[..|ops| - 1]);
      var op := ops[|ops| - 1];
      if Accepts(len + |s|, op) then s + [op.entry] else s
  }

  /** Whatever the interleaving, everything read so far is exactly the beginning of
      everything pushed so far, and what is left to read is the rest. */
  lemma {:induction false} FirstInFirstOut(ops: seq<Op>)
    ensures var (q, got) := Run(Queue([], 0), ops);
      q.contents == Pushed(0, ops) && q.pos == |got| <= |q.contents| && got == q.contents[..|got|]
  {
    if ops != [] {
      FirstInFirstOut(ops[..|ops| - 1]);
    }
  }
}
