/**
 * One worker of the batched line writer: the closure that `write` starts
 * for every goroutine (main.go:105-137), with its `flushRefreshReuse`
 * helper (main.go:112-123).
 *
 * The worker owns three buffers: `randomBytes` (8 bytes of randomness per
 * record of a batch), `randomHexDigits` (their hex encoding, `lineLength-1`
 * bytes per record) and `outputBuffer` (capacity `lineLength*n + 1`, of
 * which the first `outLen` bytes are in use, Go's slice length). The shared
 * writer is a `Sink` that records every `Write` call.
 */
module Worker {
  import opened Hex
  import opened Batches

  /**
   * The `io.Writer` the workers share, seen through its `Write` calls.
   * Call number `i` reports an error exactly when `i in fails`
   * (a disk that fills up, a closed stream, ...).
   */
  class Sink {
    var written: seq<seq<byte>>
    const fails: iset<nat>

    constructor (fails: iset<nat>)
      ensures written == [] && this.fails == fails
    {
      written := [];
      this.fails := fails;
    }

    /** `w.Write(p)`: the call is recorded whether or not it reports an error. */
    method Write(data: seq<byte>) returns (err: bool)
      modifies this
      ensures written == old(written) + [data]
      ensures err == (|old(written)| in fails)
    {
      err := (|written| in fails);
      written := written + [data];
    }
  }

  class Worker {
    const n: nat                     // records per batch: bufferSize * 1024 * 4
    const lineLength: nat
    const rand: RandomSource         // this worker's private generator
    const sink: Sink
    const randomBytes: array<byte>
    const randomHexDigits: array<byte>
    const outputBuffer: array<byte>
    var outLen: nat                  // len(outputBuffer); its capacity is outputBuffer.Length
    var readCount: nat                 // number of Read calls made on the generator

    /** The buffers have the sizes main.go:107-110 gives them and the slice stays within its capacity. */
    ghost predicate Valid()
      reads this, randomHexDigits
    {
      && n > 0 && lineLength >= 17
      && randomBytes.Length == 8 * n
      && randomHexDigits.Length == (lineLength - 1) * n
      && outputBuffer.Length == lineLength * n + 1
      && outLen <= outputBuffer.Length
      && randomBytes != randomHexDigits && randomHexDigits != outputBuffer && randomBytes != outputBuffer
      && (forall i :: 16 * n <= i < randomHexDigits.Length ==> randomHexDigits[i] == 0)
    }

    /**
     * The worker's parameters. Read 0 is the one at main.go:108, whose block is
     * replaced before any record is emitted, so the first batch uses read 1.
     */
    function Params(): Config
    {
      Config(rand, 1, n, lineLength)
    }

    /** Lines 102 and 106-110: size and allocate the buffers, draw the first random block. */
    constructor (bufferSize: int, lineLength: int, rand: RandomSource, sink: Sink)
      requires bufferSize >= 1 && lineLength >= 17
      ensures Valid()
      ensures n == bufferSize * 1024 * 4 && this.lineLength == lineLength
      ensures this.rand == rand && this.sink == sink
      ensures fresh(randomBytes) && fresh(randomHexDigits) && fresh(outputBuffer)
      ensures outLen == 0 && readCount == 1
      ensures randomBytes[..] == Block(Params(), 0)
    {
      var batch := bufferSize * 1024 * 4;
      n := batch;
      this.lineLength := lineLength;
      this.rand := rand;
      this.sink := sink;
      randomBytes := new byte[8 * batch](p requires 0 <= p => rand(0, p));
      randomHexDigits := new byte[(lineLength - 1) * batch](_ => 0);
      outputBuffer := new byte[lineLength * batch + 1];
      outLen := 0;
      readCount := 1;
    }

    /**
     * `flushRefreshReuse`: write the buffered records, draw a new random
     * block, re-encode it, and empty the buffer. The buffer is emptied and the
     * block redrawn whether or not the write failed.
     */
    method FlushRefreshReuse() returns (err: bool)
      requires Valid()
      modifies sink, randomBytes, randomHexDigits, this`outLen, this`readCount
      ensures Valid()
      ensures sink.written == old(sink.written) + [old(outputBuffer[..outLen])]
      ensures err == (|old(sink.written)| in sink.fails)
      ensures readCount == old(readCount) + 1 && outLen == 0
      ensures randomBytes[..] == Block(Params(), old(readCount))
      ensures HexFresh(old(readCount))
    {
      err := sink.Write(outputBuffer[..outLen]);
      ReadBlock();
      EncodeBlock();
      outLen := 0;
      DigitsLayout(Params(), old(readCount), randomHexDigits[..]);
    }

    /** `r.Read(randomBytes)` (main.go:118): the generator's next block. */
    method ReadBlock()
      requires randomBytes.Length == 8 * n
      modifies randomBytes, this`readCount
      ensures readCount == old(readCount) + 1
      ensures randomBytes[..] == Block(Params(), old(readCount))
    {
      forall p | 0 <= p < randomBytes.Length {
        randomBytes[p] := rand(readCount, p);
      }
      readCount := readCount + 1;
    }

    /**
     * `hex.Encode(randomHexDigits, randomBytes)` (main.go:119): the first
     * `2 * len(randomBytes)` bytes receive the encoding, the rest are untouched.
     */
    method EncodeBlock()
      requires randomHexDigits.Length >= 2 * randomBytes.Length && randomHexDigits != randomBytes
      modifies randomHexDigits
      ensures randomHexDigits[..2 * randomBytes.Length] == Encode(randomBytes[..])
      ensures forall i :: 2 * randomBytes.Length <= i < randomHexDigits.Length ==>
                randomHexDigits[i] == old(randomHexDigits[i])
    {
      forall i | 0 <= i < 2 * randomBytes.Length {
        randomHexDigits[i] := HexDigit(if i % 2 == 0 then randomBytes[i / 2] as nat / 16
                                       else randomBytes[i / 2] as nat % 16);
      }
      EncodeByTable(randomBytes[..], randomHexDigits[..2 * randomBytes.Length]);
    }

    /** The hex block holds the encoding of read number `r`. */
    ghost predicate HexFresh(r: nat)
      reads this, randomHexDigits
      requires n > 0 && lineLength >= 17
    {
      randomHexDigits[..] == Digits(Params(), r)
    }

    /**
     * The worker's state after records `0 .. j-1` have been appended, `q`
     * flushes have been made, and the batch being gathered began at record
     * `start`; `w0` is what the sink held before the worker started.
     */
    ghost predicate Emitted(j: nat, q: nat, start: nat, w0: seq<seq<byte>>)
      reads this, sink, randomHexDigits, outputBuffer
    {
      && Valid()
      && readCount == 1 + q
      && (q >= 1 ==> HexFresh(q))
      && Progress(Params(), j, q, start, w0, sink.written, outputBuffer[..outLen], sink.fails)
    }

    /**
     * The worker's loop (main.go:125-136) for `dataPerGoroutine = m`: the
     * calls it makes on the sink are a prefix of `Planned`, ending at the first
     * call that fails; every call before the last succeeded; without a failure
     * all of `Planned` is written.
     */
    method Run(m: int) returns (err: bool)
      requires Valid() && outLen == 0 && readCount == 1
      modifies sink, randomBytes, randomHexDigits, outputBuffer, this`outLen, this`readCount
      ensures StopsAtFirstFailure(old(sink.written), sink.written, Planned(Params(), m), sink.fails, err)
    {
      ghost var c := Params();
      ghost var w0 := sink.written;
      ghost var q: nat, start: nat := 0, 0;
      var j := 0;
      while j < m
        invariant 0 <= j && (j <= m || j == 0)
        invariant Emitted(j, q, start, w0) && q == Flushes(c, j)
      {
        err, q, start := Step(m, j, q, start, w0);
        if err {
          return;
        }
        j := j + 1;
      }
      err := Finish(m, j, q, start, w0);
    }

    /** One iteration of the loop (main.go:126-133): the flush that opens a batch, if due, then record `j`. */
    method Step(ghost m: int, j: nat, ghost q: nat, ghost start: nat, ghost w0: seq<seq<byte>>)
      returns (err: bool, ghost q': nat, ghost start': nat)
      requires Emitted(j, q, start, w0) && q == Flushes(Params(), j) && j < m
      modifies sink, randomBytes, randomHexDigits, outputBuffer, this`outLen, this`readCount
      ensures err ==> Valid() && outLen == 0
      ensures err ==> StopsAtFirstFailure(w0, sink.written, Planned(Params(), m), sink.fails, true)
      ensures !err ==> Emitted(j + 1, q', start', w0) && q' == Flushes(Params(), j + 1)
    {
      FlushesNext(Params(), j);
      q', start' := q, start;
      err := false;
      if j % n == 0 {
        err := StartBatch(m, j, q, start, w0);
        if err {
          return;
        }
        q', start' := q + 1, j;
      }
      AppendRecord(j, q', start', w0);
    }

    /**
     * The flush at the head of a batch (main.go:127-131). When it fails the
     * worker stops there; otherwise batch `q + 1` starts at record `j`.
     */
    method StartBatch(ghost m: int, ghost j: nat, ghost q: nat, ghost start: nat, ghost w0: seq<seq<byte>>)
      returns (err: bool)
      requires Emitted(j, q, start, w0) && q == Flushes(Params(), j) && j % n == 0 && j < m
      modifies sink, randomBytes, randomHexDigits, this`outLen, this`readCount
      ensures Valid() && outLen == 0
      ensures err ==> StopsAtFirstFailure(w0, sink.written, Planned(Params(), m), sink.fails, true)
      ensures !err ==> Emitted(j, q + 1, j, w0)
    {
      ghost var written, buffered := sink.written, outputBuffer[..outLen];
      err := FlushRefreshReuse();
      if err {
        FailedInLoop(Params(), m, j, q, start, w0, written, buffered, sink.fails);
      } else {
        NextBatch(Params(), j, q, start, w0, written, buffered, sink.fails);
      }
    }

    /** The flush after the loop (main.go:136), which completes `Planned`. */
    method Finish(ghost m: int, ghost j: nat, ghost q: nat, ghost start: nat, ghost w0: seq<seq<byte>>)
      returns (err: bool)
      requires Emitted(j, q, start, w0) && j == (if m < 0 then 0 else m) && q == Flushes(Params(), j)
      modifies sink, randomBytes, randomHexDigits, this`outLen, this`readCount
      ensures Valid() && outLen == 0
      ensures StopsAtFirstFailure(w0, sink.written, Planned(Params(), m), sink.fails, err)
    {
      ghost var written, buffered := sink.written, outputBuffer[..outLen];
      err := FlushRefreshReuse();
      FinalFlush(Params(), m, j, q, start, w0, written, buffered, sink.fails);
    }

    /**
     * main.go:132-133: append hex slice `j % n` and a newline, which makes
     * record `j`. The batch holds at most `n` records, so the slice never
     * outgrows the capacity `lineLength * n + 1` it was made with.
     */
    method AppendRecord(j: nat, ghost q: nat, ghost start: nat, ghost w0: seq<seq<byte>>)
      requires Emitted(j, q, start, w0) && q == Flushes(Params(), j + 1)
      modifies outputBuffer, this`outLen
      ensures Emitted(j + 1, q, start, w0)
      ensures outLen == old(outLen) + lineLength
    {
      var w := lineLength - 1;
      var off := w * (j % n);
      RecordSlot(Params(), j, q, start, randomHexDigits[..], outputBuffer[..outLen], off);
      var record := randomHexDigits[off .. off + w];
      assert record == randomHexDigits[..][off .. off + w];
      ghost var before := outputBuffer[..outLen];
      Append(record);
      Append([Newline]);
      AppendStep(Params(), j, q, start, w0, sink.written, before, sink.fails);
    }

    /** Go's `append` on `outputBuffer` while it is within its capacity. */
    method Append(data: seq<byte>)
      requires outLen + |data| <= outputBuffer.Length
      modifies outputBuffer, this`outLen
      ensures outLen == old(outLen) + |data|
      ensures outputBuffer[..outLen] == old(outputBuffer[..outLen]) + data
    {
      forall t | 0 <= t < |data| {
        outputBuffer[outLen + t] := data[t];
      }
      outLen := outLen + |data|;
    }
  }

  /**
   * The loop's bookkeeping in terms of values: `q` flushes have written
   * the first `q` calls of `Writes` after `w0`, all of them successfully,
   * and the buffer holds records `start .. j-1`.
   */
  ghost predicate Progress(c: Config, j: nat, q: nat, start: nat, w0: seq<seq<byte>>,
                           written: seq<seq<byte>>, buffered: seq<byte>, fails: iset<nat>)
    requires c.Valid()
  {
    && start <= j && start == Start(c, q)
    && written == w0 + Writes(c, q)
    && buffered == Lines(c, start, j)
    && (forall i :: |w0| <= i < |w0| + q ==> i !in fails)
  }

  /** Appending record `j` to the buffer keeps the bookkeeping. */
  lemma AppendStep(c: Config, j: nat, q: nat, start: nat, w0: seq<seq<byte>>,
                   written: seq<seq<byte>>, buffered: seq<byte>, fails: iset<nat>)
    requires c.Valid() && Progress(c, j, q, start, w0, written, buffered, fails)
    ensures Progress(c, j + 1, q, start, w0, written, buffered + Line(c, j), fails)
  {
  }

  /** A successful flush at the head of a batch writes call `q` of `Writes` and starts batch `q + 1` at record `j`. */
  lemma NextBatch(c: Config, j: nat, q: nat, start: nat, w0: seq<seq<byte>>,
                   written: seq<seq<byte>>, buffered: seq<byte>, fails: iset<nat>)
    requires c.Valid() && Progress(c, j, q, start, w0, written, buffered, fails)
    requires q == Flushes(c, j) && j % c.n == 0 && |written| !in fails
    ensures Progress(c, j, q + 1, j, w0, written + [buffered], [], fails)
  {
    BatchHead(c, j);
    WritesStep(c, q);
    assert written + [buffered] == w0 + Writes(c, q + 1);
  }

  /** A failed flush inside the loop ends the worker with a prefix of `Planned` written. */
  lemma FailedInLoop(c: Config, m: int, j: nat, q: nat, start: nat, w0: seq<seq<byte>>,
                     written: seq<seq<byte>>, buffered: seq<byte>, fails: iset<nat>)
    requires c.Valid() && Progress(c, j, q, start, w0, written, buffered, fails)
    requires j < m && q == Flushes(c, j) && j % c.n == 0 && (|written| in fails)
    ensures StopsAtFirstFailure(w0, written + [buffered], Planned(c, m), fails, true)
  {
    BatchHead(c, j);
    WritesStep(c, q);
    FlushesMono(c, j + 1, m);
    PlannedPrefix(c, m, q + 1);
    var after := written + [buffered];
    assert after == w0 + Writes(c, q + 1);
    assert after == w0 + Planned(c, m)[..|after| - |w0|];
  }

  /** Record `j` makes a flush exactly when it is the first of a batch. */
  lemma FlushesNext(c: Config, j: nat)
    requires c.Valid()
    ensures Flushes(c, j + 1) == Flushes(c, j) + (if j % c.n == 0 then 1 else 0)
  {
    FlushStep(j, c.n);
  }

  /** At the head of a batch, record `j` is the first of batch number `Flushes(c, j)`. */
  lemma BatchHead(c: Config, j: nat)
    requires c.Valid() && j % c.n == 0
    ensures j == Flushes(c, j) * c.n
    ensures Start(c, Flushes(c, j) + 1) == j
    ensures Flushes(c, j + 1) == Flushes(c, j) + 1
  {
    FlushStep(j, c.n);
  }

  /** The flush after the loop (main.go:136) completes `Planned`. */
  lemma FinalFlush(c: Config, m: int, j: nat, q: nat, start: nat, w0: seq<seq<byte>>,
                   written: seq<seq<byte>>, buffered: seq<byte>, fails: iset<nat>)
    requires c.Valid() && Progress(c, j, q, start, w0, written, buffered, fails)
    requires j == (if m < 0 then 0 else m) && q == Flushes(c, j)
    ensures StopsAtFirstFailure(w0, written + [buffered], Planned(c, m), fails, (|written| in fails))
  {
    assert Planned(c, m) == Writes(c, q) + [buffered];
  }

  /** A hex buffer that starts with the encoded block and is zero beyond it is `Digits`. */
  lemma DigitsLayout(c: Config, r: nat, h: seq<byte>)
    requires c.Valid() && |h| == (c.lineLength - 1) * c.n
    requires h[..16 * c.n] == Encode(Block(c, r))
    requires forall i :: 16 * c.n <= i < |h| ==> h[i] == 0
    ensures h == Digits(c, r)
  {
    var d := Digits(c, r);
    assert d[..16 * c.n] == Encode(Block(c, r));
    forall i | 16 * c.n <= i < |h|
      ensures h[i] == d[i]
    {
    }
    assert h == h[..16 * c.n] + h[16 * c.n..];
    assert d == d[..16 * c.n] + d[16 * c.n..];
  }

  /**
   * Where record `j` comes from and goes to: its hex slice starts at `off` in
   * the batch's hex block and, with a newline, is `Line(c, j)`; and the buffer,
   * holding the batch's earlier records, has room for it.
   */
  lemma RecordSlot(c: Config, j: nat, q: nat, start: nat, d: seq<byte>, buffered: seq<byte>, off: int)
    requires c.Valid() && c.first == 1 && q == Flushes(c, j + 1) && start == Start(c, q) && start <= j
    requires (q >= 1 ==> d == Digits(c, q)) && buffered == Lines(c, start, j)
    requires off == (c.lineLength - 1) * (j % c.n)
    ensures 0 <= off && off + c.lineLength - 1 <= |d|
    ensures d[off .. off + c.lineLength - 1] + [Newline] == Line(c, j)
    ensures |buffered| + c.lineLength <= c.lineLength * c.n
  {
    FlushStep(j, c.n);
    var w, k := c.lineLength - 1, j % c.n;
    assert q == 1 + j / c.n && start == j - k;
    RecordFits(w, c.n, k, off);
    BufferRoom(c, start, j);
  }

  /** Record `k` of a batch lies inside the hex block. */
  lemma RecordFits(w: nat, n: nat, k: nat, off: int)
    requires k < n && off == w * k
    ensures 0 <= off && off + w <= w * n
  {
    MulStep(w, k, n);
  }

  /** While a batch has fewer than `n` records, one more record fits in the output buffer. */
  lemma BufferRoom(c: Config, start: nat, j: nat)
    requires c.Valid() && start <= j && j - start < c.n
    ensures |Lines(c, start, j)| + c.lineLength <= c.lineLength * c.n
  {
    var d := j - start;
    MulMono(d + 1, c.n, c.lineLength);
    assert (d + 1) * c.lineLength == d * c.lineLength + c.lineLength;
  }

  /** More records never mean fewer flushes. */
  lemma {:induction false} FlushesMono(c: Config, a: int, b: int)
    requires c.Valid() && a <= b
    ensures Flushes(c, a) <= Flushes(c, b)
    decreases b - a
  {
    if a < b {
      FlushesMono(c, a, b - 1);
      if b - 1 >= 0 { FlushStep(b - 1, c.n); }
    }
  }
}
