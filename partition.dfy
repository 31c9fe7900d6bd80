/**
 * How `main` splits the requested record count among the workers
 * (main.go:157-168, 187-188): the worker count is clamped to `count`, a
 * worker count of 0 falls back to `GOMAXPROCS`, a `count` of 0 is rejected,
 * and `count` is truncated to a multiple of the worker count.
 *
 * Both flags are Go `int`s and may be negative; `/` and `%` on them are
 * Go's, which truncate toward zero, written out here as `GoQuo` and `GoRem`.
 */
module Partition {
  import opened Batches

  // ----- Go's integer division ---------------------------------------------

  function Abs(x: int): nat
  {
    if x < 0 then -x else x
  }

  /** Go's `a / b`: the quotient truncated toward zero. */
  function GoQuo(a: int, b: int): int
    requires b != 0
  {
    var q := Abs(a) / Abs(b);
    if (a < 0) != (b < 0) then -q else q
  }

  /** Go's `a % b`: what is left after `GoQuo`, with the sign of `a`. */
  function GoRem(a: int, b: int): int
    requires b != 0
  {
    a - GoQuo(a, b) * b
  }

  /** The division identity, and the remainder is smaller than the divisor and never of the opposite sign to `a`. */
  lemma GoDivision(a: int, b: int)
    requires b != 0
    ensures a == GoQuo(a, b) * b + GoRem(a, b)
    ensures Abs(GoRem(a, b)) < Abs(b)
    ensures a >= 0 ==> 0 <= GoRem(a, b)
    ensures a <= 0 ==> GoRem(a, b) <= 0
  {
    var m: int := Abs(b);
    var q := Abs(a) / m;
    var p := q * m;
    assert Abs(a) == p + Abs(a) % m;
    QuoTimes(a, b, q, m);
    assert GoQuo(a, b) * b == (if a < 0 then -p else p);
  }

  /** The product `GoQuo(a, b) * b` is `q * |b|` carrying the sign of `a`. */
  lemma QuoTimes(a: int, b: int, q: int, m: int)
    requires b != 0 && m == Abs(b) && q == Abs(a) / Abs(b)
    ensures GoQuo(a, b) * b == (if a < 0 then -(q * m) else q * m)
  {
    if b < 0 {
      NegMul(GoQuo(a, b), m);
    }
    if (a < 0) != (b < 0) {
      NegMul(q, b);
    }
  }

  lemma NegMul(x: int, y: int)
    ensures (-x) * y == -(x * y) && x * (-y) == -(x * y)
  {
  }

  /** On non-negative operands Go's division agrees with the mathematical one. */
  lemma GoQuoNonNegative(a: nat, b: nat)
    requires b > 0
    ensures GoQuo(a, b) == a / b && GoRem(a, b) == a % b
  {
  }

  // ----- the partition -----------------------------------------------------

  /** What `main` runs: `workers` goroutines of `perWorker` records each, `total` records in all. */
  datatype Plan = Plan(workers: int, perWorker: int, total: int)

  /** `count == 0` is reported as "no data to produce" and the process exits. */
  datatype Outcome = Run(plan: Plan) | NoData

  /** The worker count after the clamp (main.go:157-159) and the fallback (main.go:161-163), in the source's order. */
  function Workers(count: int, goroutine: int, maxProcs: nat): (g: int)
    requires maxProcs >= 1
    ensures g != 0
  {
    var clamped := if goroutine > count then count else goroutine;
    if clamped == 0 then maxProcs else clamped
  }

  /**
   * main.go:157-168, 187-188 as written. `maxProcs` stands for
   * `runtime.GOMAXPROCS(-1)`, which is at least 1.
   */
  function Partition(count: int, goroutine: int, maxProcs: nat): (r: Outcome)
    requires maxProcs >= 1
  {
    if count == 0 then NoData
    else
      var g := Workers(count, goroutine, maxProcs);
      Run(Plan(g, GoQuo(count, g), count - GoRem(count, g)))
  }

  /**
   * Exactly `count == 0` is rejected; otherwise the divisions see a non-zero
   * worker count, the adjusted count is `perWorker` records for each worker,
   * and what is dropped is a remainder smaller than the worker count, of the
   * sign of `count`.
   */
  lemma PartitionSplits(count: int, goroutine: int, maxProcs: nat)
    requires maxProcs >= 1
    ensures Partition(count, goroutine, maxProcs).NoData? <==> count == 0
    ensures Partition(count, goroutine, maxProcs).Run? ==>
              var p := Partition(count, goroutine, maxProcs).plan;
              && p.workers != 0
              && p.total == p.perWorker * p.workers
              && Abs(count - p.total) < Abs(p.workers)
              && (count > 0 ==> 0 <= count - p.total && 0 <= p.total <= count)
              && (count < 0 ==> count - p.total <= 0)
  {
    if count != 0 {
      var g := Workers(count, goroutine, maxProcs);
      var p := Partition(count, goroutine, maxProcs).plan;
      assert p == Plan(g, GoQuo(count, g), GoQuo(count, g) * g);
      GoDivision(count, g);
      if count > 0 {
        QuoTimesDivisor(count, g);
      }
    }
  }

  /** For a positive dividend, `GoQuo(a, b) * b` is the non-negative multiple of `|b|` below `a`. */
  lemma QuoTimesDivisor(a: int, b: int)
    requires a > 0 && b != 0
    ensures GoQuo(a, b) * b == (Abs(a) / Abs(b)) * Abs(b) >= 0
  {
    var m: int := Abs(b);
    DivNonNegative(Abs(a), m);
    var q := Abs(a) / m;
    MulNonNegative(q, m);
    if b < 0 {
      assert GoQuo(a, b) == -q && b == -m;
      assert (-q) * (-m) == q * m;
    } else {
      assert GoQuo(a, b) == q && b == m;
    }
  }

  lemma DivNonNegative(x: nat, y: nat)
    requires y > 0
    ensures x / y >= 0
  {
  }

  lemma MulNonNegative(x: nat, y: nat)
    ensures x * y >= 0
  {
  }

  /**
   * Where the worker count comes from: the flag when it is non-zero and at
   * most `count`; `count` when the flag is larger; `GOMAXPROCS` when the
   * clamped value is 0.
   */
  lemma WorkersChoice(count: int, goroutine: int, maxProcs: nat)
    requires maxProcs >= 1
    ensures goroutine > count && count != 0 ==> Workers(count, goroutine, maxProcs) == count
    ensures goroutine <= count && goroutine != 0 ==> Workers(count, goroutine, maxProcs) == goroutine
    ensures goroutine == 0 && count >= 0 ==> Workers(count, goroutine, maxProcs) == maxProcs
    ensures count > 0 && goroutine > 0 ==> 1 <= Workers(count, goroutine, maxProcs) <= count
  {
  }

  /**
   * The clamp runs before the fallback, so with the flag left at 0 and fewer
   * records than `GOMAXPROCS` every worker gets 0 records and nothing is
   * written, although records were requested.
   */
  lemma ClampBeforeFallback()
    ensures Partition(3, 0, 8) == Run(Plan(8, 0, 0))
  {
    assert GoQuo(3, 8) == 0;
  }

  /** The evidently intended order: fall back to `GOMAXPROCS` first, then clamp to `count`. */
  function PartitionFixed(count: int, goroutine: int, maxProcs: nat): (r: Outcome)
    requires maxProcs >= 1
  {
    if count == 0 then NoData
    else
      var fallback := if goroutine == 0 then maxProcs else goroutine;
      var g := if fallback > count then count else fallback;
      Run(Plan(g, GoQuo(count, g), count - GoRem(count, g)))
  }

  /**
   * With the corrected order, a positive count and a non-negative flag give
   * between 1 and `count` workers, each with at least one record, so at least
   * one record per worker is written and fewer than one per worker is dropped.
   */
  lemma PartitionFixedWritesRecords(count: int, goroutine: int, maxProcs: nat)
    requires maxProcs >= 1 && count > 0 && goroutine >= 0
    ensures PartitionFixed(count, goroutine, maxProcs).Run?
    ensures var p := PartitionFixed(count, goroutine, maxProcs).plan;
            && 1 <= p.workers <= count
            && p.perWorker >= 1
            && p.total == p.perWorker * p.workers
            && p.workers <= p.total <= count < p.total + p.workers
  {
    var fallback := if goroutine == 0 then maxProcs else goroutine;
    var g := if fallback > count then count else fallback;
    GoQuoNonNegative(count, g);
    var q := count / g;
    assert count == q * g + count % g;
    MulAtLeast(q, g);
  }

  /**
   * Whenever the corrected order runs at all, it agrees with the source:
   * the two differ only where the clamp discards the fallback.
   */
  lemma FixedAgreesUnlessFallbackExceedsCount(count: int, goroutine: int, maxProcs: nat)
    requires maxProcs >= 1
    requires goroutine != 0 || count <= 0 || maxProcs <= count
    ensures Partition(count, goroutine, maxProcs) == PartitionFixed(count, goroutine, maxProcs)
  {
  }

  /** The goroutines `write` starts (main.go:104): none when the worker count is negative. */
  function Started(p: Plan): nat
  {
    if p.workers > 0 then p.workers else 0
  }

  /** The bytes the started workers write between them when no write fails. */
  function Written(c: Config, p: Plan): int
    requires c.Valid()
  {
    Started(p) * |Concat(Planned(c, p.perWorker))|
  }

  /**
   * What the run writes against what `main` reports (main.go:187-188, 195).
   * Workers start exactly when `count` is positive and the flag is not
   * negative; then, when no write fails, they write `total * lineLength`
   * bytes, the figure `main` reports. With a negative flag or a negative
   * `count` no worker starts and nothing is written, whatever is reported.
   */
  lemma TotalOutput(c: Config, count: int, goroutine: int, maxProcs: nat)
    requires c.Valid() && maxProcs >= 1 && count != 0
    ensures var p := Partition(count, goroutine, maxProcs).plan;
            && (p.workers > 0 <==> count > 0 && goroutine >= 0)
            && (p.workers > 0 ==> p.perWorker >= 0 && Written(c, p) == p.total * c.lineLength)
            && (p.workers <= 0 ==> Written(c, p) == 0)
  {
    PartitionSplits(count, goroutine, maxProcs);
    var p := Partition(count, goroutine, maxProcs).plan;
    if p.workers > 0 {
      GoQuoNonNegative(count, p.workers);
      PlannedConcat(c, p.perWorker);
      MulAssoc(p.workers, p.perWorker, c.lineLength);
    }
  }

  /**
   * A negative flag is accepted: with `count = 10` and `goroutine = -3` no
   * worker starts, yet `main` reports 9 records' worth of bytes.
   */
  lemma NegativeFlagReportsUnwritten(c: Config)
    requires c.Valid()
    ensures Partition(10, -3, 8) == Run(Plan(-3, -3, 9))
    ensures Written(c, Plan(-3, -3, 9)) == 0 < 9 * c.lineLength
  {
    assert GoQuo(10, -3) == -3;
  }

  lemma MulAssoc(a: int, b: int, c: int)
    ensures a * (b * c) == (b * a) * c
  {
  }
}
