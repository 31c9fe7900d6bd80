/**
 * What one worker of `write` (main.go:105-137) hands to `w.Write`, as pure
 * functions of its configuration.
 *
 * A worker emits record `j` (for `j` in `0 .. dataPerGoroutine-1`) as the
 * `lineLength-1` hex characters number `k = j % n` of its current hex block,
 * followed by a newline. Its hex block is re-drawn at every flush, and a
 * flush happens before every record whose index is a multiple of `n`, and
 * once more after the last record. So the write calls are: an empty write
 * (the flush at `j = 0`), then one write of `n` records per full batch, then
 * the last, possibly short, batch.
 */
module Batches {
  import opened Hex

  const Newline: byte := 10

  /** `rand(r, p)` is byte `p` of the `r`-th `Read` from the worker's generator. */
  type RandomSource = (nat, nat) -> byte

  /**
   * One worker's fixed parameters: its generator, the number of the read whose
   * block feeds the first batch, `n` (records per batch, `bufferSize*1024*4`)
   * and the line length (hex characters + 1 newline).
   */
  datatype Config = Config(rand: RandomSource, first: nat, n: nat, lineLength: nat)
  {
    /** `n > 0` keeps `j % n` defined; `hex.Encode` needs room for 16 characters per record. */
    predicate Valid() {
      n > 0 && lineLength >= 17
    }
  }

  // ----- arithmetic helpers ------------------------------------------------

  lemma MulStep(w: nat, k: nat, n: nat)
    requires k < n
    ensures w * k + w <= w * n
  {
    assert w * k + w == w * (k + 1);
  }

  lemma {:induction false} MulAtLeast(e: nat, n: nat)
    requires e >= 1
    ensures e * n >= n
  {
    if e > 1 {
      MulAtLeast(e - 1, n);
      assert e * n == (e - 1) * n + n;
    }
  }

  lemma MulMono(a: nat, b: nat, w: nat)
    requires a <= b
    ensures a * w <= b * w
  {
    assert b * w == a * w + (b - a) * w;
  }

  /** Euclidean division is determined by quotient and remainder. */
  lemma DivUnique(x: int, n: int, d: int, r: int)
    requires n > 0 && 0 <= r < n && x == d * n + r
    ensures x / n == d && x % n == r
  {
    var d', r' := x / n, x % n;
    assert x == d' * n + r';
    if d' < d {
      MulAtLeast(d - d', n);
      assert false;
    } else if d' > d {
      MulAtLeast(d' - d, n);
      assert false;
    }
  }

  /** How the number of flushes before record `j` evolves from `j` to `j + 1`. */
  lemma FlushStep(j: nat, n: nat)
    requires n > 0
    ensures j % n == 0 ==> (j + n - 1) / n == j / n && j == (j / n) * n
                           && (j + n) / n == j / n + 1
    ensures j % n != 0 ==> (j + n - 1) / n == j / n + 1 && (j + n) / n == j / n + 1
                           && j - j % n == (j / n) * n
  {
    var d, r := j / n, j % n;
    assert j == d * n + r;
    if r == 0 {
      DivUnique(j + n - 1, n, d, n - 1);
      DivUnique(j + n, n, d + 1, 0);
    } else {
      DivUnique(j + n - 1, n, d + 1, r - 1);
      DivUnique(j + n, n, d + 1, r);
    }
  }

  // ----- the records -------------------------------------------------------

  /** The block of `8n` random bytes returned by read number `r` (main.go:107-108, 118). */
  function Block(c: Config, r: nat): (b: seq<byte>)
    ensures |b| == 8 * c.n
  {
    seq(8 * c.n, p requires 0 <= p => c.rand(r, p))
  }

  /**
   * The worker's `randomHexDigits` after a refresh from read `r`: `hex.Encode`
   * fills the first `16n` bytes; the rest of the `(lineLength-1)*n` bytes keep
   * the zeros they were allocated with (main.go:109, 119).
   */
  function Digits(c: Config, r: nat): (d: seq<byte>)
    requires c.Valid()
    ensures |d| == (c.lineLength - 1) * c.n
  {
    assert (c.lineLength - 1) * c.n == 16 * c.n + (c.lineLength - 17) * c.n;
    Encode(Block(c, r)) + seq((c.lineLength - 17) * c.n, _ => 0)
  }

  /** Record `j` as appended at main.go:132-133: hex slice number `j % n` of the block read for batch `j / n`, then `'\n'`. */
  function Line(c: Config, j: nat): (line: seq<byte>)
    requires c.Valid()
    ensures |line| == c.lineLength && line[c.lineLength - 1] == Newline
  {
    var w, k := c.lineLength - 1, j % c.n;
    MulStep(w, k, c.n);
    Digits(c, c.first + j / c.n)[w * k .. w * k + w] + [Newline]
  }

  /** Records `a .. b-1`, in order. */
  function Lines(c: Config, a: nat, b: nat): (s: seq<byte>)
    requires c.Valid()
    ensures a <= b ==> |s| == (b - a) * c.lineLength
    decreases b - a
  {
    if b <= a then []
    else
      var s := Lines(c, a, b - 1);
      assert (b - a) * c.lineLength == (b - 1 - a) * c.lineLength + c.lineLength;
      s + Line(c, b - 1)
  }

  // ----- the write calls ---------------------------------------------------

  /** Number of `j` in `[0, m)` with `j % n == 0`: the flushes inside the loop (main.go:125-131). */
  function CountMultiples(n: nat, m: int): (r: nat)
    requires n > 0
    decreases m
  {
    if m <= 0 then 0
    else CountMultiples(n, m - 1) + (if (m - 1) % n == 0 then 1 else 0)
  }

  /** The same count in closed form: `ceil(m / n)`. */
  function Flushes(c: Config, m: int): (f: nat)
    requires c.Valid()
  {
    if m <= 0 then 0 else (m + c.n - 1) / c.n
  }

  /** First record of the batch begun by the latest of `q` flushes. */
  function Start(c: Config, q: nat): nat
  {
    if q == 0 then 0 else (q - 1) * c.n
  }

  /** The first `q` write calls of the loop: the empty one, then full batches. */
  function Writes(c: Config, q: nat): (ws: seq<seq<byte>>)
    requires c.Valid()
    ensures |ws| == q
  {
    seq(q, i requires 0 <= i < q => if i == 0 then [] else Lines(c, (i - 1) * c.n, i * c.n))
  }

  /**
   * All write calls of a worker that runs `m` records and meets no error:
   * the loop's flushes and the final one at main.go:136, which writes what is
   * left of the last batch.
   */
  function Planned(c: Config, m: int): (ws: seq<seq<byte>>)
    requires c.Valid()
  {
    var f := Flushes(c, m);
    Writes(c, f) + [Lines(c, Start(c, f), if m < 0 then 0 else m)]
  }

  /** The last batch starts at or before the last record. */
  lemma StartWithin(c: Config, m: int)
    requires c.Valid()
    ensures Start(c, Flushes(c, m)) <= if m < 0 then 0 else m
  {
    if m > 0 {
      var j := m - 1;
      FlushStep(j, c.n);
      assert Flushes(c, m) == j / c.n + 1;
      assert Start(c, Flushes(c, m)) == (j / c.n) * c.n;
    }
  }

  /**
   * How a worker's write calls end up on a sink whose call log went from
   * `before` to `after`, when call number `i`
   * reports an error exactly if `i in fails`: the calls are the leading part of `planned` up to and
   * including the first one that failed, `err` is that call's result, and
   * without a failure all of `planned` was written.
   */
  ghost predicate StopsAtFirstFailure(before: seq<seq<byte>>, after: seq<seq<byte>>,
                                      planned: seq<seq<byte>>, fails: iset<nat>, err: bool)
  {
    var base := |before|;
    && base < |after| <= base + |planned|
    && after == before + planned[..|after| - base]
    && (forall i :: base <= i < |after| - 1 ==> i !in fails)
    && err == (|after| - 1 in fails)
    && (!err ==> |after| == base + |planned|)
  }

  /** Concatenation of write calls: what ends up in the sink. */
  function Concat(ws: seq<seq<byte>>): (s: seq<byte>)
  {
    if ws == [] then [] else Concat(ws[..|ws| - 1]) + ws[|ws| - 1]
  }

  // ----- properties --------------------------------------------------------

  /** Consecutive ranges of records concatenate. */
  lemma {:induction false} LinesSplit(c: Config, a: nat, b: nat, d: nat)
    requires c.Valid() && a <= b <= d
    ensures Lines(c, a, b) + Lines(c, b, d) == Lines(c, a, d)
    decreases d - b
  {
    if d > b {
      LinesSplit(c, a, b, d - 1);
    }
  }

  /** Each record sits at its own boundary in a range of records. */
  lemma LinesAt(c: Config, a: nat, b: nat, j: nat)
    requires c.Valid() && a <= j < b
    ensures var x := (j - a) * c.lineLength;
            0 <= x && x + c.lineLength <= |Lines(c, a, b)| && Lines(c, a, b)[x .. x + c.lineLength] == Line(c, j)
  {
    var L := c.lineLength;
    var before, line, after := Lines(c, a, j), Line(c, j), Lines(c, j + 1, b);
    LinesSplit(c, a, j, b);
    LinesSplit(c, j, j + 1, b);
    assert Lines(c, j, j + 1) == line;
    var x := (j - a) * L;
    MulMono(0, j - a, L);
    assert |before| == x;
    assert (j - a + 1) * L == x + L;
    MulMono(j - a + 1, b - a, L);
    assert (before + line + after)[x .. x + L] == line;
  }

  /**
   * With the default line length 17, record `j` is the lower-case hex
   * encoding of its eight random bytes followed by a newline, and decoding
   * its 16 characters gives those bytes back.
   */
  lemma LineFormat(c: Config, j: nat)
    requires c.Valid() && c.lineLength == 17
    ensures Line(c, j) == Encode(RecordBytes(c, j)) + [Newline]
    ensures AllLowerHex(Line(c, j)[..16]) && Decode(Line(c, j)[..16]) == RecordBytes(c, j)
  {
    var k, r := j % c.n, c.first + j / c.n;
    var b := Block(c, r);
    DigitsDefault(c, r);
    assert (c.lineLength - 1) * k == 16 * k;
    MulStep(8, k, c.n);
    EncodeSlice(b, 8 * k, 8 * k + 8);
    assert Line(c, j)[..16] == Encode(b)[16 * k .. 16 * k + 16];
    DecodeEncode(RecordBytes(c, j));
  }

  /** The eight random bytes behind record `j`: bytes `8k .. 8k+7` of its batch's block, `k = j % n`. */
  function RecordBytes(c: Config, j: nat): (b: seq<byte>)
    requires c.Valid()
    ensures |b| == 8
  {
    var k := j % c.n;
    MulStep(8, k, c.n);
    Block(c, c.first + j / c.n)[8 * k .. 8 * k + 8]
  }

  /** With the default line length the hex block is exactly the encoded random block. */
  lemma DigitsDefault(c: Config, r: nat)
    requires c.Valid() && c.lineLength == 17
    ensures Digits(c, r) == Encode(Block(c, r))
  {
    assert (c.lineLength - 17) * c.n == 0;
  }

  /** The closed form counts the loop's flush points. */
  lemma {:induction false} FlushesCount(c: Config, m: int)
    requires c.Valid()
    ensures Flushes(c, m) == CountMultiples(c.n, m)
    decreases m
  {
    if m > 0 {
      FlushesCount(c, m - 1);
      FlushStep(m - 1, c.n);
    }
  }

  /** One flush more appends the records gathered since the previous flush. */
  lemma WritesStep(c: Config, q: nat)
    requires c.Valid()
    ensures Writes(c, q + 1) == Writes(c, q) + [Lines(c, Start(c, q), q * c.n)]
  {
    assert Writes(c, q + 1)[..q] == Writes(c, q);
  }

  /** The loop's writes so far are a prefix of the planned writes. */
  lemma PlannedPrefix(c: Config, m: int, q: nat)
    requires c.Valid() && q <= Flushes(c, m)
    ensures Planned(c, m)[..q] == Writes(c, q)
  {
    assert Writes(c, Flushes(c, m))[..q] == Writes(c, q);
  }

  lemma {:induction false} ConcatWrites(c: Config, q: nat)
    requires c.Valid()
    ensures Concat(Writes(c, q)) == Lines(c, 0, Start(c, q))
  {
    if q > 0 {
      WritesStep(c, q - 1);
      assert Writes(c, q)[..q - 1] == Writes(c, q - 1);
      ConcatWrites(c, q - 1);
      if q > 1 {
        LinesSplit(c, 0, (q - 2) * c.n, (q - 1) * c.n);
      }
    }
  }

  /**
   * A worker makes one write call per multiple of `n` below `m`, plus the
   * final one; the first call writes nothing.
   */
  lemma PlannedWriteCount(c: Config, m: int)
    requires c.Valid()
    ensures |Planned(c, m)| == CountMultiples(c.n, m) + 1
    ensures Planned(c, m)[0] == []
  {
    FlushesCount(c, m);
  }

  /**
   * Everything a worker writes, concatenated, is its records `0 .. m-1` in
   * order: exactly `m * lineLength` bytes.
   */
  lemma PlannedConcat(c: Config, m: int)
    requires c.Valid()
    ensures var total := if m < 0 then 0 else m;
            Concat(Planned(c, m)) == Lines(c, 0, total)
            && |Concat(Planned(c, m))| == total * c.lineLength
  {
    var f := Flushes(c, m);
    var total := if m < 0 then 0 else m;
    var p := Planned(c, m);
    assert p[..|p| - 1] == Writes(c, f);
    ConcatWrites(c, f);
    StartWithin(c, m);
    LinesSplit(c, 0, Start(c, f), total);
  }

  /** Which records write call `i` carries. */
  lemma PlannedEntry(c: Config, m: int, i: nat) returns (a: nat, b: nat)
    requires c.Valid() && i < |Planned(c, m)|
    ensures a <= b <= a + c.n && Planned(c, m)[i] == Lines(c, a, b)
  {
    var f := Flushes(c, m);
    var p := Planned(c, m);
    if i < f {
      assert p[i] == Writes(c, f)[i];
      if i == 0 {
        a, b := 0, 0;
      } else {
        MulMono(0, i - 1, c.n);
        a, b := (i - 1) * c.n, i * c.n;
        assert b == a + c.n;
      }
    } else {
      assert p[i] == Lines(c, Start(c, f), if m < 0 then 0 else m);
      if m > 0 { FlushStep(m - 1, c.n); }
      a, b := Start(c, f), if m < 0 then 0 else m;
    }
  }

  /**
   * No write call carries more than one batch of `n` records, so the output
   * buffer never grows past `lineLength * n` bytes; each call is a whole
   * number of records.
   */
  lemma PlannedBatchBound(c: Config, m: int)
    requires c.Valid()
    ensures forall i :: 0 <= i < |Planned(c, m)| ==>
              |Planned(c, m)[i]| <= c.n * c.lineLength && |Planned(c, m)[i]| % c.lineLength == 0
  {
    var p := Planned(c, m);
    var L := c.lineLength;
    forall i | 0 <= i < |p|
      ensures |p[i]| <= c.n * L && |p[i]| % L == 0
    {
      var a, b := PlannedEntry(c, m, i);
      assert |p[i]| == (b - a) * L;
      MulMono(b - a, c.n, L);
      DivUnique((b - a) * L, L, b - a, 0);
    }
  }
}
