/**
  From 32-bit device ticks to nanoseconds, in 64-bit unsigned arithmetic.
 */
module KernelTimer {

  const NSEC_IN_SEC: nat := 1_000_000_000
  const TWO_TO_THE_32: nat := 0x1_0000_0000
  const TWO_TO_THE_64: nat := 0x1_0000_0000_0000_0000

  /** What the device reports for a kernel. */
  datatype Timestamp = Timestamp(start: nat, end: nat)

  /** `ticks * NSEC_IN_SEC / freq` on uint64_t: the product wraps, the quotient is floored. */
  function ToNs(ticks: nat, freq: nat): nat
    requires freq > 0
  {
    (ticks * NSEC_IN_SEC % TWO_TO_THE_64) / freq
  }

  function StartNs(t: Timestamp, freq: nat): nat
    requires freq > 0
  {
    ToNs(t.start, freq)
  }

  /** An end not behind the start means that the 32-bit timer wrapped once. */
  function EndNs(t: Timestamp, freq: nat): nat
    requires freq > 0
  {
    if t.start < t.end then ToNs(t.end, freq) else ToNs(TWO_TO_THE_32 + t.end, freq)
  }

  /** What a 32-bit timer shows for a kernel that starts at tick `start` and takes `ticks`. */
  function Observed(start: nat, ticks: nat): Timestamp {
    Timestamp(start, (start + ticks) % TWO_TO_THE_32)
  }

  lemma MulKeepsOrder(p: nat, q: nat, f: nat)
    requires p <= q
    ensures p * f <= q * f
  {
  }

  lemma QuotientIs(x: nat, f: nat, q: nat, r: nat)
    requires f > 0 && r < f && x == q * f + r
    ensures x / f == q
  {
    var p := x / f;
    assert p * f + x % f == x;
    if p < q {
      MulKeepsOrder(p + 1, q, f);
      assert false;
    } else if p > q {
      MulKeepsOrder(q + 1, p, f);
      assert false;
    }
  }

  /** Adding two floored quotients loses less than one. */
  lemma FlooredSum(a: nat, b: nat, f: nat)
    requires f > 0
    ensures (a + b) / f == a / f + b / f + if a % f + b % f >= f then 1 else 0
  {
    var qa, qb, ra, rb := a / f, b / f, a % f, b % f;
    Sum(a, b, f, qa, qb, ra, rb);
  }

  lemma Sum(a: nat, b: nat, f: nat, qa: nat, qb: nat, ra: nat, rb: nat)
    requires f > 0 && a == qa * f + ra && b == qb * f + rb && ra < f && rb < f
    ensures (a + b) / f == qa + qb + if ra + rb >= f then 1 else 0
  {
    var q := qa + qb;
    assert q * f == qa * f + qb * f;
    if ra + rb >= f {
      assert (q + 1) * f == q * f + f;
      QuotientIs(a + b, f, q + 1, ra + rb - f);
    } else {
      QuotientIs(a + b, f, q, ra + rb);
    }
  }

  lemma Exact(ticks: nat, freq: nat)
    requires ticks < 2 * TWO_TO_THE_32 && freq > 0
    ensures ToNs(ticks, freq) == ticks * NSEC_IN_SEC / freq
  {
    assert ticks * NSEC_IN_SEC < TWO_TO_THE_64;
  }

  lemma WrapsOnce(x: nat)
    requires x < 2 * TWO_TO_THE_32
    ensures x % TWO_TO_THE_32 == if x < TWO_TO_THE_32 then x else x - TWO_TO_THE_32
  {
  }

  /** With a 32-bit start no product comes near 2^64. */
  lemma NoOverflow(start: nat, ticks: nat, freq: nat)
    requires start < TWO_TO_THE_32 && 1 <= ticks <= TWO_TO_THE_32 && freq > 0
    ensures StartNs(Observed(start, ticks), freq) == start * NSEC_IN_SEC / freq
    ensures EndNs(Observed(start, ticks), freq) == (start + ticks) * NSEC_IN_SEC / freq
  {
    WrapsOnce(start + ticks);
    Exact(start, freq);
    Exact(start + ticks, freq);
  }

  /**
    The wrapped timer is read right: for every 32-bit start and every true duration of
    1 to 2^32 ticks the computed duration is the true one in ns, floored, or one more;
    and it is one more exactly when the two remainders carry.
   */
  lemma MeasuredDuration(start: nat, ticks: nat, freq: nat)
    requires start < TWO_TO_THE_32 && 1 <= ticks <= TWO_TO_THE_32 && freq > 0
    ensures var seen := Observed(start, ticks);
            var carry := start * NSEC_IN_SEC % freq + ticks * NSEC_IN_SEC % freq >= freq;
            EndNs(seen, freq) - StartNs(seen, freq) == ticks * NSEC_IN_SEC / freq + if carry then 1 else 0
  {
    NoOverflow(start, ticks, freq);
    FlooredSum(start * NSEC_IN_SEC, ticks * NSEC_IN_SEC, freq);
  }

  /** The collector's `start < end` assertion holds for every kernel exactly when the timer ticks at 1 GHz or slower. */
  lemma PositiveIntervals(freq: nat)
    requires freq > 0
    ensures (forall start: nat, ticks: nat :: start < TWO_TO_THE_32 && 1 <= ticks <= TWO_TO_THE_32 ==>
               StartNs(Observed(start, ticks), freq) < EndNs(Observed(start, ticks), freq))
            <==> freq <= NSEC_IN_SEC
  {
    if freq <= NSEC_IN_SEC {
      forall start: nat, ticks: nat | start < TWO_TO_THE_32 && 1 <= ticks <= TWO_TO_THE_32
        ensures StartNs(Observed(start, ticks), freq) < EndNs(Observed(start, ticks), freq)
      {
        MeasuredDuration(start, ticks, freq);
        AtLeastOne(ticks * NSEC_IN_SEC, freq);
      }
    } else {
      NoOverflow(0, 1, freq);
      QuotientIs(NSEC_IN_SEC, freq, 0, NSEC_IN_SEC);
      assert StartNs(Observed(0, 1), freq) == EndNs(Observed(0, 1), freq) == 0;
    }
  }

  lemma AtLeastOne(x: nat, f: nat)
    requires 0 < f <= x
    ensures x / f >= 1
  {
    assert x < (x / f + 1) * f;
  }
}
