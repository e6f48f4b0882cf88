/** Nanosecond timestamps and their split into `struct timespec` (utils.c). */
module Timestamp {
  import opened CArith

  const NSEC_PER_SEC: int := 1000000000

  datatype Timespec = Timespec(tvSec: int, tvNsec: int)

  /**
   * `1000000000LL * ts.tv_sec + ts.tv_nsec`, the composition used by the `get_timestamp_*`
   * readers: a timespec with its nanoseconds inside one second lands in that second.
   */
  function ComposeNs(ts: Timespec): (ns: int)
    ensures 0 <= ts.tvNsec < NSEC_PER_SEC ==> NSEC_PER_SEC * ts.tvSec <= ns < NSEC_PER_SEC * (ts.tvSec + 1)
  {
    NSEC_PER_SEC * ts.tvSec + ts.tvNsec
  }

  /**
   * A timespec in the range that `clock_gettime` produces and whose composition fits the
   * `int64_t` the readers return; past that bound the C multiplication overflows.
   */
  predicate Normalized(ts: Timespec)
  {
    ts.tvSec >= 0 && 0 <= ts.tvNsec < NSEC_PER_SEC && ComposeNs(ts) <= INT64_MAX
  }

  /** The last normalized second is 9223372036: one nanosecond more does not fit in `int64_t`. */
  lemma LastNormalizedSecond()
    ensures Normalized(Timespec(9223372036, 854775807))
    ensures !Normalized(Timespec(9223372036, 854775808)) && !Normalized(Timespec(9223372037, 0))
  {
  }

  /** `set_timestamp`: seconds and nanoseconds of an `int64_t` target by C's truncating `/` and `%`. */
  function SetTimestamp(targetNs: int): (ts: Timespec)
    requires INT64_MIN <= targetNs <= INT64_MAX
    ensures ComposeNs(ts) == targetNs
    ensures targetNs >= 0 ==> Normalized(ts)
    ensures targetNs < 0 ==> ts.tvSec <= 0 && -NSEC_PER_SEC < ts.tvNsec <= 0
  {
    Timespec(CDiv(targetNs, NSEC_PER_SEC), CMod(targetNs, NSEC_PER_SEC))
  }

  /** Splitting a composed, normalized timespec gives it back: the two are inverse on that range. */
  lemma {:induction false} SplitComposed(ts: Timespec)
    requires Normalized(ts)
    ensures SetTimestamp(ComposeNs(ts)) == ts
  {
    var t := ComposeNs(ts);
    assert t - ts.tvSec * NSEC_PER_SEC == ts.tvNsec;
    CDivUnique(t, NSEC_PER_SEC, ts.tvSec);
  }

  /**
   * A negative target never gives a normalized timespec: C99 truncation makes `tv_nsec`
   * negative exactly when the target is not a whole number of seconds, and a whole
   * negative number of seconds goes into a negative `tv_sec` with `tv_nsec` zero.
   */
  lemma NegativeTargetNotNormalized(targetNs: int)
    requires INT64_MIN <= targetNs < 0
    ensures var ts := SetTimestamp(targetNs);
      && !Normalized(ts)
      && (ts.tvNsec < 0 <==> targetNs % NSEC_PER_SEC != 0)
      && (ts.tvNsec == 0 ==> ts.tvSec < 0 && ts.tvSec * NSEC_PER_SEC == targetNs)
  {
    var ts := SetTimestamp(targetNs);
    if ts.tvNsec < 0 {
      var r := NSEC_PER_SEC + ts.tvNsec;
      assert targetNs == (ts.tvSec - 1) * NSEC_PER_SEC + r && 0 < r < NSEC_PER_SEC;
      EuclidRemainder(targetNs, ts.tvSec - 1, r);
    } else {
      assert targetNs == ts.tvSec * NSEC_PER_SEC;
      EuclidRemainder(targetNs, ts.tvSec, 0);
    }
  }

  /** Dafny's `%` by one second is the remainder of any split with a remainder inside one second. */
  lemma EuclidRemainder(a: int, q: int, r: int)
    requires a == q * NSEC_PER_SEC + r && 0 <= r < NSEC_PER_SEC
    ensures a % NSEC_PER_SEC == r
  {
    var q0, r0 := a / NSEC_PER_SEC, a % NSEC_PER_SEC;
    assert (q - q0) * NSEC_PER_SEC == r0 - r;
    if q != q0 {
      MultipleAtLeast(q - q0, NSEC_PER_SEC);
    }
  }

  /** The two kinds of negative target: -1 ns and minus one whole second. */
  lemma NegativeTargetExamples()
    ensures SetTimestamp(-1) == Timespec(0, -1)
    ensures SetTimestamp(-NSEC_PER_SEC) == Timespec(-1, 0)
  {
    CDivUnique(-1, NSEC_PER_SEC, 0);
    CDivUnique(-NSEC_PER_SEC, NSEC_PER_SEC, -1);
  }
}
