/** The bounded buffers of the storage sink and the ClickHouse exporter (src/sink.rs,
    src/clickhouse_exporter.rs). */
module BoundedQueue {

  // The buffer, and everything that ever happened to it. written: all records offered;
  // accepted: those that fitted; batches: what each flush took out.
  datatype Fifo<T> = Fifo(buffer: seq<T>, written: seq<T>, accepted: seq<T>, dropped: nat, batches: seq<seq<T>>)

  function Fresh<T>(): Fifo<T> {
    Fifo([], [], [], 0, [])
  }

  function Write<T>(s: Fifo<T>, r: T, batchSize: nat): Fifo<T> {
    if |s.buffer| < 2 * batchSize
    then s.(buffer := s.buffer + [r], written := s.written + [r], accepted := s.accepted + [r])
    else s.(written := s.written + [r], dropped := s.dropped + 1)
  }

  function Take<T>(buffer: seq<T>, batchSize: nat): seq<T> {
    if |buffer| < batchSize then buffer else buffer[..batchSize]
  }

  function Rest<T>(buffer: seq<T>, batchSize: nat): seq<T> {
    if |buffer| < batchSize then [] else buffer[batchSize..]
  }

  function Flush<T>(s: Fifo<T>, batchSize: nat): Fifo<T> {
    s.(buffer := Rest(s.buffer, batchSize), batches := s.batches + [Take(s.buffer, batchSize)])
  }

  function Concat<T>(batches: seq<seq<T>>): seq<T> {
    if batches == [] then [] else Concat(batches[..|batches| - 1]) + batches[|batches| - 1]
  }

  // a is w with some elements left out.
  ghost predicate IsSubsequence<T>(a: seq<T>, w: seq<T>)
    decreases |w|
  {
    a == [] ||
    (w != [] && (IsSubsequence(a, w[..|w| - 1]) ||
                 (a[|a| - 1] == w[|w| - 1] && IsSubsequence(a[..|a| - 1], w[..|w| - 1]))))
  }

  ghost predicate Inv<T>(s: Fifo<T>, batchSize: nat) {
    && Concat(s.batches) + s.buffer == s.accepted
    && |s.accepted| + s.dropped == |s.written|
    && IsSubsequence(s.accepted, s.written)
    && |s.buffer| <= 2 * batchSize
  }

  lemma SubsequencePush<T>(a: seq<T>, w: seq<T>, r: T)
    requires IsSubsequence(a, w)
    ensures IsSubsequence(a + [r], w + [r]) && IsSubsequence(a, w + [r])
  {
    assert (w + [r])[..|w|] == w && (a + [r])[..|a|] == a;
  }

  lemma WriteKeepsInv<T>(s: Fifo<T>, r: T, batchSize: nat)
    requires Inv(s, batchSize)
    ensures Inv(Write(s, r, batchSize), batchSize)
  {
    hide IsSubsequence, Concat;
    SubsequencePush(s.accepted, s.written, r);
    assert Concat(s.batches) + (s.buffer + [r]) == (Concat(s.batches) + s.buffer) + [r];
  }

  lemma FlushKeepsInv<T>(s: Fifo<T>, batchSize: nat)
    requires Inv(s, batchSize)
    ensures Inv(Flush(s, batchSize), batchSize)
  {
    hide IsSubsequence;
    var batch := Take(s.buffer, batchSize);
    assert (s.batches + [batch])[..|s.batches|] == s.batches;
    assert s.buffer == batch + Rest(s.buffer, batchSize);
  }

  datatype Op<T> = WriteOp(record: T) | FlushOp

  function Run<T>(ops: seq<Op<T>>, batchSize: nat): Fifo<T> {
    if ops == [] then Fresh()
    else
      var s := Run(ops[..|ops| - 1], batchSize);
      match ops[|ops| - 1]
      case WriteOp(r) => Write(s, r, batchSize)
      case FlushOp => Flush(s, batchSize)
  }

  /** Over every run: the flushed batches followed by the buffer are the accepted records in
      the order they were written, accepted and dropped together are the written ones, and
      the buffer never exceeds twice the batch size. */
  lemma {:induction false} NothingIsLostOrReordered<T>(ops: seq<Op<T>>, batchSize: nat)
    ensures var s := Run(ops, batchSize);
      && Concat(s.batches) + s.buffer == s.accepted
      && |s.accepted| + s.dropped == |s.written|
      && IsSubsequence(s.accepted, s.written)
      && |s.buffer| <= 2 * batchSize
  {
    hide IsSubsequence, Concat;
    if ops == [] {
      EmptyRun<T>();
    } else {
      NothingIsLostOrReordered(ops[..|ops| - 1], batchSize);
      var s := Run(ops[..|ops| - 1], batchSize);
      match ops[|ops| - 1]
      case WriteOp(r) => WriteKeepsInv(s, r, batchSize);
      case FlushOp => FlushKeepsInv(s, batchSize);
    }
  }

  lemma EmptyRun<T>()
    ensures Concat<T>([]) == [] && IsSubsequence<T>([], [])
  {
  }

  /** A flush leaves exactly what exceeds one batch, so two flushes without a write between
      them always empty a reachable buffer, but the single flush on shutdown does so exactly
      when at most one batch was waiting. */
  lemma TwoFlushesEmpty<T>(ops: seq<Op<T>>, batchSize: nat)
    ensures var b := Run(ops, batchSize).buffer;
      && |Rest(b, batchSize)| == (if |b| > batchSize then |b| - batchSize else 0)
      && Rest(Rest(b, batchSize), batchSize) == []
      && (Run(ops + [FlushOp], batchSize).buffer == [] <==> |b| <= batchSize)
  {
    hide Run, Concat, IsSubsequence;
    NothingIsLostOrReordered(ops, batchSize);
    RunOneMore(ops, batchSize);
  }

  lemma RunOneMore<T>(ops: seq<Op<T>>, batchSize: nat)
    ensures Run(ops + [FlushOp], batchSize) == Flush(Run(ops, batchSize), batchSize)
  {
    assert (ops + [FlushOp])[..|ops|] == ops;
  }

  /** In every run a record is dropped exactly when twice the batch size is already waiting, and
      is the last of the buffer otherwise; a flush takes the first records that wait, a full batch
      if there is one, and touches nothing else. */
  lemma DroppedExactlyWhenFull<T>(ops: seq<Op<T>>, r: T, batchSize: nat)
    ensures var (s, t) := (Run(ops, batchSize), Run(ops + [WriteOp(r)], batchSize));
      && t.written == s.written + [r] && t.batches == s.batches
      && (|s.buffer| == 2 * batchSize ==> t.dropped == s.dropped + 1 && t.buffer == s.buffer && t.accepted == s.accepted)
      && (|s.buffer| != 2 * batchSize ==> t.dropped == s.dropped && t.buffer == s.buffer + [r] && t.accepted == s.accepted + [r])
    ensures var (s, t) := (Run(ops, batchSize), Run(ops + [FlushOp], batchSize));
      var n := if |s.buffer| < batchSize then |s.buffer| else batchSize;
      t == s.(buffer := s.buffer[n..], batches := s.batches + [s.buffer[..n]])
  {
    hide Concat, IsSubsequence, Run;
    NothingIsLostOrReordered(ops, batchSize);
    RunOneMore(ops, batchSize);
    RunOneWrite(ops, r, batchSize);
    var buffer := Run(ops, batchSize).buffer;
    assert buffer[..|buffer|] == buffer && buffer[|buffer|..] == [];
  }

  lemma RunOneWrite<T>(ops: seq<Op<T>>, r: T, batchSize: nat)
    ensures Run(ops + [WriteOp(r)], batchSize) == Write(Run(ops, batchSize), r, batchSize)
  {
    assert (ops + [WriteOp(r)])[..|ops|] == ops;
  }

  // How many writes the run ends with since its last flush.
  function SinceFlush<T>(ops: seq<Op<T>>): nat {
    if ops == [] || ops[|ops| - 1].FlushOp? then 0 else SinceFlush(ops[..|ops| - 1]) + 1
  }

  // No more than a batch of writes between flushes.
  ghost predicate Paced<T>(ops: seq<Op<T>>, batchSize: nat) {
    forall n :: 0 <= n <= |ops| ==> SinceFlush(ops[..n]) <= batchSize
  }

  /** If no more than one batch is ever written between flushes, nothing is ever dropped. */
  lemma {:induction false} PacedWritesAreNeverDropped<T>(ops: seq<Op<T>>, batchSize: nat)
    requires Paced(ops, batchSize)
    ensures Run(ops, batchSize).dropped == 0
    ensures |Run(ops, batchSize).buffer| <= SinceFlush(ops) <= batchSize
  {
    assert ops[..|ops|] == ops;
    if ops == [] {
    } else {
      var init := ops[..|ops| - 1];
      forall n | 0 <= n <= |init|
        ensures SinceFlush(init[..n]) <= batchSize
      {
        assert init[..n] == ops[..n];
      }
      PacedWritesAreNeverDropped(init, batchSize);
    }
  }

  // ----- writes in the middle of a flush

  // taken: what the flush under way has popped so far.
  datatype Popping<T> = Popping(fifo: Fifo<T>, taken: seq<T>)

  // A flush is a loop of single pops; it stops at a full batch or when a pop finds nothing.
  datatype FineOp<T> = WriteOne(record: T) | PopOne | EndFlush

  predicate Enabled<T>(s: Popping<T>, op: FineOp<T>, batchSize: nat) {
    match op
    case WriteOne(_) => true
    case PopOne => |s.fifo.buffer| > 0 && |s.taken| < batchSize
    case EndFlush => |s.fifo.buffer| == 0 || |s.taken| == batchSize
  }

  function Apply<T>(s: Popping<T>, op: FineOp<T>, batchSize: nat): Popping<T>
    requires Enabled(s, op, batchSize)
  {
    match op
    case WriteOne(r) => Popping(Write(s.fifo, r, batchSize), s.taken)
    case PopOne => Popping(s.fifo.(buffer := s.fifo.buffer[1..]), s.taken + [s.fifo.buffer[0]])
    case EndFlush => Popping(s.fifo.(batches := s.fifo.batches + [s.taken]), [])
  }

  ghost predicate IsRun<T>(states: seq<Popping<T>>, ops: seq<FineOp<T>>, batchSize: nat) {
    && |states| == |ops| + 1 && states[0] == Popping(Fresh(), [])
    && forall i :: 0 <= i < |ops| ==> Enabled(states[i], ops[i], batchSize) && states[i + 1] == Apply(states[i], ops[i], batchSize)
  }

  ghost predicate Conserved<T>(s: Popping<T>, batchSize: nat) {
    && Concat(s.fifo.batches) + s.taken + s.fifo.buffer == s.fifo.accepted
    && |s.fifo.accepted| + s.fifo.dropped == |s.fifo.written|
    && IsSubsequence(s.fifo.accepted, s.fifo.written)
    && |s.fifo.buffer| <= 2 * batchSize && |s.taken| <= batchSize
  }

  lemma OpConserves<T>(s: Popping<T>, op: FineOp<T>, batchSize: nat)
    requires Conserved(s, batchSize) && Enabled(s, op, batchSize)
    ensures Conserved(Apply(s, op, batchSize), batchSize)
  {
    hide IsSubsequence, Concat;
    match op
    case WriteOne(r) =>
      SubsequencePush(s.fifo.accepted, s.fifo.written, r);
      assert Concat(s.fifo.batches) + s.taken + (s.fifo.buffer + [r]) == (Concat(s.fifo.batches) + s.taken + s.fifo.buffer) + [r];
    case PopOne =>
      MoveOne(Concat(s.fifo.batches), s.taken, s.fifo.buffer);
    case EndFlush =>
      ConcatPush(s.fifo.batches, s.taken);
      assert (Concat(s.fifo.batches) + s.taken) + [] == Concat(s.fifo.batches) + s.taken;
  }

  lemma MoveOne<T>(done: seq<T>, taken: seq<T>, buffer: seq<T>)
    requires |buffer| > 0
    ensures done + (taken + [buffer[0]]) + buffer[1..] == done + taken + buffer
  {
    assert buffer == [buffer[0]] + buffer[1..];
  }

  lemma ConcatPush<T>(batches: seq<seq<T>>, batch: seq<T>)
    ensures Concat(batches + [batch]) == Concat(batches) + batch
  {
    assert (batches + [batch])[..|batches|] == batches;
  }

  /** In every interleaving of writes with the single pops of one flush after another, the
      finished batches, the batch under way and the buffer are together the accepted records
      in write order, and no batch and no buffer exceeds its bound. */
  lemma {:induction false} InterleavedFlushesLoseNothing<T>(states: seq<Popping<T>>, ops: seq<FineOp<T>>, batchSize: nat, i: nat)
    requires IsRun(states, ops, batchSize) && i < |states|
    ensures Conserved(states[i], batchSize)
  {
    hide Apply, Enabled, Conserved;
    if i == 0 {
      FreshIsConserved<T>(batchSize);
    } else {
      InterleavedFlushesLoseNothing(states, ops, batchSize, i - 1);
      OpConserves(states[i - 1], ops[i - 1], batchSize);
    }
  }

  lemma FreshIsConserved<T>(batchSize: nat)
    ensures Conserved<T>(Popping(Fresh(), []), batchSize)
  {
    EmptyRun<T>();
  }

  // s, after the pops of a flush that no write interrupts.
  function PopAll<T>(s: Popping<T>, batchSize: nat): Popping<T>
    decreases |s.fifo.buffer|
  {
    if Enabled(s, PopOne, batchSize) then PopAll(Apply(s, PopOne, batchSize), batchSize) else s
  }

  lemma {:induction false} PopsTakeTheFirst<T>(s: Popping<T>, batchSize: nat)
    requires |s.taken| <= batchSize
    ensures var t := PopAll(s, batchSize);
      && Enabled(t, EndFlush, batchSize)
      && t.fifo == s.fifo.(buffer := Rest(s.fifo.buffer, batchSize - |s.taken|))
      && t.taken == s.taken + Take(s.fifo.buffer, batchSize - |s.taken|)
    decreases |s.fifo.buffer|
  {
    hide Take, Rest;
    var (buffer, n) := (s.fifo.buffer, batchSize - |s.taken|);
    if Enabled(s, PopOne, batchSize) {
      PopsTakeTheFirst(Apply(s, PopOne, batchSize), batchSize);
      TakeOneMore(buffer, n);
      assert (s.taken + [buffer[0]]) + Take(buffer[1..], n - 1) == s.taken + ([buffer[0]] + Take(buffer[1..], n - 1));
    } else {
      TakeStops(buffer, n);
    }
  }

  /** A flush that no write interrupts is the flush taken as one step. */
  lemma UninterruptedFlushIsOneStep<T>(fifo: Fifo<T>, batchSize: nat)
    ensures var t := PopAll(Popping(fifo, []), batchSize);
      Enabled(t, EndFlush, batchSize) && Apply(t, EndFlush, batchSize) == Popping(Flush(fifo, batchSize), [])
  {
    hide PopAll, Take, Rest;
    PopsTakeTheFirst(Popping(fifo, []), batchSize);
    assert [] + Take(fifo.buffer, batchSize) == Take(fifo.buffer, batchSize);
  }

  lemma TakeStops<T>(buffer: seq<T>, n: nat)
    requires n == 0 || buffer == []
    ensures Take(buffer, n) == [] && Rest(buffer, n) == buffer
  {
  }

  lemma TakeOneMore<T>(buffer: seq<T>, n: nat)
    requires buffer != [] && n > 0
    ensures Take(buffer, n) == [buffer[0]] + Take(buffer[1..], n - 1)
    ensures Rest(buffer, n) == Rest(buffer[1..], n - 1)
  {
    assert buffer == [buffer[0]] + buffer[1..];
    if |buffer| >= n {
      assert buffer[..n] == [buffer[0]] + buffer[1..][..n - 1];
      assert buffer[n..] == buffer[1..][n - 1..];
    }
  }

  // ----- the objects

  class StorageSink<T> {
    var buffer: seq<T>
    const maxBufferSize: nat
    ghost var state: Fifo<T>

    ghost predicate Valid()
      reads this
    {
      maxBufferSize > 0 && state.buffer == buffer && Inv(state, maxBufferSize)
    }

    // The underlying queue refuses a capacity of zero.
    constructor (maxBufferSize: nat)
      requires maxBufferSize > 0
      ensures Valid() && state == Fresh() && this.maxBufferSize == maxBufferSize
    {
      buffer := [];
      this.maxBufferSize := maxBufferSize;
      state := Fresh();
    }

    method WriteRecord(record: T)
      requires Valid()
      modifies this
      ensures Valid() && state == Write(old(state), record, maxBufferSize)
    {
      WriteKeepsInv(state, record, maxBufferSize);
      if |buffer| < 2 * maxBufferSize {
        buffer := buffer + [record];
      }
      state := Write(state, record, maxBufferSize);
    }

    method FlushBuffer() returns (records: seq<T>)
      requires Valid()
      modifies this
      ensures Valid() && state == Flush(old(state), maxBufferSize)
      ensures records == Take(old(buffer), maxBufferSize)
    {
      hide IsSubsequence, Concat;
      FlushKeepsInv(state, maxBufferSize);
      ghost var before := buffer;
      var rest := buffer;
      records := [];
      while rest != []
        invariant records + rest == before
        invariant |records| < maxBufferSize
        modifies {}
        decreases |rest|
      {
        records := records + [rest[0]];
        rest := rest[1..];
        if |records| >= maxBufferSize {
          break;
        }
      }
      assert records + rest == before;
      TakeAndRest(records, rest, maxBufferSize);
      buffer := rest;
      state := Flush(state, maxBufferSize);
    }
  }

  lemma TakeAndRest<T>(records: seq<T>, rest: seq<T>, batchSize: nat)
    requires |records| == batchSize || (|records| < batchSize && rest == [])
    ensures records == Take(records + rest, batchSize) && rest == Rest(records + rest, batchSize)
  {
    assert (records + rest)[|records|..] == rest && (records + rest)[..|records|] == records;
  }

  class ClickHouseExporter<T> {
    const sink: StorageSink<T>
    const enabled: bool
    var flushErrors: nat
    ghost var failedBatches: nat

    ghost predicate Valid()
      reads this, sink
    {
      && sink.Valid()
      // The one error metric counts dropped records and failed batches alike.
      && flushErrors == sink.state.dropped + failedBatches
      && failedBatches <= |sink.state.batches|
    }

    constructor (batchSize: nat, enabled: bool)
      requires batchSize > 0
      ensures Valid() && fresh(sink) && sink.maxBufferSize == batchSize && sink.state == Fresh() && this.enabled == enabled
    {
      sink := new StorageSink(batchSize);
      this.enabled := enabled;
      flushErrors := 0;
      failedBatches := 0;
    }

    method WriteRecord(record: T)
      requires Valid()
      modifies this, sink
      ensures Valid() && failedBatches == old(failedBatches)
      ensures sink.state == if enabled then Write(old(sink.state), record, sink.maxBufferSize) else old(sink.state)
    {
      if !enabled {
        return;
      }
      var full := |sink.buffer| >= 2 * sink.maxBufferSize;
      sink.WriteRecord(record);
      if full {
        flushErrors := flushErrors + 1;
      }
    }

    /** Two attempts to send one batch; if both fail the batch is lost and counted. */
    method FlushBatch(attempts: seq<bool>) returns (delivered: seq<T>)
      requires Valid() && |attempts| == 2
      modifies this, sink
      ensures Valid()
      ensures enabled ==> sink.state == Flush(old(sink.state), sink.maxBufferSize)
      ensures !enabled ==> sink.state == old(sink.state) && delivered == []
      ensures var lost := enabled && old(sink.buffer) != [] && attempts == [false, false];
        && failedBatches == old(failedBatches) + (if lost then 1 else 0)
        && delivered == if enabled && !lost then Take(old(sink.buffer), sink.maxBufferSize) else []
    {
      if !enabled {
        return [];
      }
      var records := sink.FlushBuffer();
      if records == [] {
        return records;
      }
      var i := 0;
      while i < 2
        invariant i <= 2 && forall j :: 0 <= j < i ==> !attempts[j]
        modifies {}
      {
        if attempts[i] {
          return records;
        }
        i := i + 1;
      }
      flushErrors := flushErrors + 1;
      failedBatches := failedBatches + 1;
      return [];
    }
  }
}
