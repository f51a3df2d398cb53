/** Exponential backoff with deterministic jitter, in the source's 64-bit arithmetic. */
module Backoff {
  import opened Words
  import opened Options

  const I64_MAX: int := 0x7FFF_FFFF_FFFF_FFFF
  const TWO_63: int := 0x8000_0000_0000_0000

  datatype BackoffEntry = BackoffEntry(lastFailureSecs: u64, consecutiveFailures: u32)

  /** Two's-complement reading of the low 64 bits. */
  function WrapI64(x: int): int {
    (x + TWO_63) % (2 * TWO_63) - TWO_63
  }

  /** Signed division rounding toward zero. */
  function TruncDiv(a: int, b: nat): int
    requires b > 0
  {
    if a >= 0 then a / b else -((-a) / b)
  }

  function ShiftLeftOne(n: nat): nat {
    if n == 0 then 1 else 2 * ShiftLeftOne(n - 1)
  }

  lemma {:induction false} ShiftMonotone(m: nat, n: nat)
    requires m <= n
    ensures ShiftLeftOne(m) <= ShiftLeftOne(n)
    decreases n - m
  {
    if m < n {
      ShiftMonotone(m, n - 1);
    }
  }

  lemma ShiftFits(n: nat)
    requires n <= 10
    ensures 1 <= ShiftLeftOne(n) <= 1024
  {
    ShiftMonotone(0, n);
    ShiftMonotone(n, 10);
    assert ShiftLeftOne(10) == 2 * 2 * ShiftLeftOne(8) == 2 * 2 * 2 * 2 * ShiftLeftOne(6);
  }

  /** The backoff before jitter. */
  function Raw(failures: u32, base: u64, max: u64): u64
    requires failures >= 1
  {
    var exp := Min(failures - 1, 10);
    ShiftFits(exp);
    Min(SatMul(base, ShiftLeftOne(exp)), max)
  }

  /** In `[-128, 127]`. */
  function JitterFrac(seed: u64): int {
    seed % 256 - 128
  }

  /** The backoff with jitter, at least one second. */
  function Jittered(raw: u64, seed: u64): int {
    var r := WrapI64(raw);
    var jitter := TruncDiv(WrapI64(r * JitterFrac(seed)), 1024);
    Max(WrapI64(r + jitter), 1)
  }

  function BackoffSecs(entry: BackoffEntry, base: u64, max: u64, seed: u64): int
    requires entry.consecutiveFailures >= 1
  {
    Jittered(Raw(entry.consecutiveFailures, base, max), seed)
  }

  function BackoffRemaining(entry: BackoffEntry, now: u64, base: u64, max: u64, seed: u64): Option<int> {
    if entry.consecutiveFailures == 0 then None
    else
      var backoff := BackoffSecs(entry, base, max, seed);
      var elapsed := SatSub(now, entry.lastFailureSecs);
      if elapsed >= backoff then None else Some(backoff - elapsed)
  }

  // ----- Where no product overflows

  lemma WrapIsIdentity(x: int)
    requires -TWO_63 <= x <= I64_MAX
    ensures WrapI64(x) == x
  {
  }

  /** The jittered value without any wrapping. */
  function Exact(raw: nat, frac: int): int {
    raw + TruncDiv(raw * frac, 1024)
  }

  lemma ProductFits(raw: nat, frac: int)
    requires -128 <= frac <= 127
    ensures -(raw * 128) <= raw * frac <= raw * 127
    ensures frac > -128 ==> -(raw * 127) <= raw * frac
  {
    if frac >= 0 {
      MulLe(raw, frac, 127);
    } else {
      MulLe(raw, -frac, if frac > -128 then 127 else 128);
    }
  }

  lemma MulLe(x: nat, a: nat, b: nat)
    requires a <= b
    ensures x * a <= x * b
  {
  }

  lemma TruncWithinAnEighth(p: int, raw: nat)
    requires -(raw * 128) <= p <= raw * 128
    ensures 0 - raw <= 8 * TruncDiv(p, 1024) <= raw
  {
  }

  lemma ExactIsWithinAnEighth(raw: nat, frac: int)
    requires raw * 128 <= I64_MAX && -128 <= frac <= 127
    ensures -TWO_63 <= raw * frac <= I64_MAX
    ensures 7 * raw <= 8 * Exact(raw, frac) <= 9 * raw
  {
    ProductFits(raw, frac);
    TruncWithinAnEighth(raw * frac, raw);
  }

  lemma JitteredIsExact(raw: u64, seed: u64)
    requires raw * 128 <= I64_MAX
    ensures Jittered(raw, seed) == Max(Exact(raw, JitterFrac(seed)), 1)
    ensures 7 * raw <= 8 * Exact(raw, JitterFrac(seed)) <= 9 * raw
  {
    var frac := JitterFrac(seed);
    ExactIsWithinAnEighth(raw, frac);
    WrapIsIdentity(raw);
    WrapIsIdentity(raw * frac);
    WrapIsIdentity(Exact(raw, frac));
  }

  lemma ExactMonotone(raw: nat, more: nat, frac: int)
    requires raw <= more && -128 <= frac <= 127
    ensures Exact(raw, frac) <= Exact(more, frac)
  {
    if frac >= 0 {
      MulLe(frac, raw, more);
    } else {
      var m := -frac;
      assert raw * frac == -(raw * m) && more * frac == -(more * m);
      MulLe(m, raw, more);
      assert more * m - raw * m == (more - raw) * m;
      MulLe(more - raw, m, 128);
      assert more * m <= raw * m + (more - raw) * 1024;
    }
  }

  lemma RawMonotone(failures: u32, more: u32, base: u64, max: u64)
    requires 1 <= failures <= more
    ensures Raw(failures, base, max) <= Raw(more, base, max) <= max
  {
    var e, f := Min(failures - 1, 10), Min(more - 1, 10);
    ShiftMonotone(e, f);
    ShiftFits(e);
    ShiftFits(f);
    MulLe(base, ShiftLeftOne(e), ShiftLeftOne(f));
  }

  // ----- The exponential, as documented and as computed

  /** `min(base * 2^(failures - 1), max)`, with no limit on the exponent. */
  function Documented(failures: u32, base: u64, max: u64): nat
    requires failures >= 1
  {
    Min(base * ShiftLeftOne(failures - 1), max)
  }

  /**
   The raw backoff starts at the base and doubles per failure up to the cap, for
   ten doublings; then it stands still.
   */
  lemma RawDoubles(failures: u32, base: u64, max: u64)
    requires 1 <= failures < U32_MAX
    ensures Raw(1, base, max) == Min(base, max)
    ensures failures <= 10 ==> Raw(failures + 1, base, max) == Min(2 * Raw(failures, base, U64_MAX), max)
    ensures failures > 10 ==> Raw(failures + 1, base, max) == Raw(failures, base, max)
  {
    assert ShiftLeftOne(0) == 1;
    if failures <= 10 {
      MulTwice(base, ShiftLeftOne(failures - 1));
    }
  }

  lemma MulTwice(x: nat, a: nat)
    ensures x * (2 * a) == 2 * (x * a)
  {
  }

  lemma TenDoublings()
    ensures ShiftLeftOne(10) == 1024
  {
    assert ShiftLeftOne(10) == 2 * 2 * ShiftLeftOne(8) == 2 * 2 * 2 * 2 * ShiftLeftOne(6);
  }

  /**
   The code computes the documented backoff exactly up to eleven failures, for a
   zero base, and for a cap that ten doublings reach; in every other case it stays
   short of it.
   */
  lemma RawIsDocumentedIff(failures: u32, base: u64, max: u64)
    requires failures >= 1
    ensures Raw(failures, base, max) == Documented(failures, base, max)
            <==> failures <= 11 || base == 0 || max <= base * 1024
    ensures Raw(failures, base, max) <= Documented(failures, base, max)
  {
    var shift := ShiftLeftOne(failures - 1);
    TenDoublings();
    if failures > 11 {
      ShiftMonotone(11, failures - 1);
      assert ShiftLeftOne(11) == 2 * ShiftLeftOne(10);
      MulLe(base, 2048, shift);
    }
  }

  /**
   One second doubled under a cap of an hour: the documentation reaches 2048
   seconds at the twelfth failure, the code stays at 1024.
   */
  lemma TwelfthFailureStaysPut()
    ensures Documented(12, 1, 3600) == 2048 && Raw(12, 1, 3600) == 1024
  {
    TenDoublings();
    assert ShiftLeftOne(11) == 2 * ShiftLeftOne(10);
  }

  /**
   The backoff runs out exactly `BackoffSecs` after the failure, and the remaining
   time counts down to that second.
   */
  lemma RemainingCountsDown(entry: BackoffEntry, now: u64, base: u64, max: u64, seed: u64)
    requires entry.consecutiveFailures >= 1 && entry.lastFailureSecs <= now
    ensures var end := entry.lastFailureSecs + BackoffSecs(entry, base, max, seed);
            match BackoffRemaining(entry, now, base, max, seed)
            case None => end <= now
            case Some(d) => 0 < d && now + d == end
  {
  }

  // ----- How far the jitter stays within an eighth, overflow included

  /** The jittered backoff is the larger of one second and a value within an eighth of `raw`. */
  ghost predicate NearRaw(raw: u64, seed: u64) {
    exists v :: IsNear(raw, v) && Jittered(raw, seed) == Max(v, 1)
  }

  predicate IsNear(raw: u64, v: int) {
    7 * raw <= 8 * v <= 9 * raw
  }

  lemma WrapPeriod(x: int, k: int)
    ensures WrapI64(x + 2 * TWO_63 * k) == WrapI64(x)
  {
    ModPeriod(x + TWO_63, k, 2 * TWO_63);
    assert x + 2 * TWO_63 * k + TWO_63 == (x + TWO_63) + k * (2 * TWO_63);
  }

  lemma {:induction false} ModPeriod(x: int, k: int, m: int)
    requires m > 0
    ensures (x + k * m) % m == x % m
    decreases if k < 0 then -k else k
  {
    if k > 0 {
      ModPeriod(x, k - 1, m);
      assert x + k * m == (x + (k - 1) * m) + m;
      ModOnce(x + (k - 1) * m, m);
    } else if k < 0 {
      ModPeriod(x, k + 1, m);
      assert x + (k + 1) * m == (x + k * m) + m;
      ModOnce(x + k * m, m);
    }
  }

  lemma ModOnce(x: int, m: int)
    requires m > 0
    ensures (x + m) % m == x % m
  {
    assert x == m * (x / m) + x % m;
    assert (x + m) == m * (x / m + 1) + x % m;
    UniqueRemainder(x + m, x / m + 1, x % m, m);
  }

  lemma UniqueRemainder(x: int, q: int, r: int, m: int)
    requires m > 0 && 0 <= r < m && x == m * q + r
    ensures x % m == r
  {
    var d := x / m - q;
    assert x == m * (x / m) + x % m;
    assert m * d == r - x % m;
    assert d == 0;
  }

  lemma WrapIsSigned(x: int)
    ensures -TWO_63 <= WrapI64(x) <= I64_MAX
  {
  }

  /** Close to the top, at `raw == I64_MAX - d`, no product gives a positive jitter beyond that of a fraction of one. */
  lemma JitterNearTheTop(d: nat, frac: int)
    requires d < TWO_63 / 1024 && (I64_MAX - d) / 1024 <= d && -128 <= frac <= 127
    ensures TruncDiv(WrapI64((I64_MAX - d) * frac), 1024) <= d
  {
    var x := (1 + d) * frac;
    var m := frac / 2;
    SmallProduct(d, frac);
    assert I64_MAX - d == TWO_63 - (1 + d);
    assert (I64_MAX - d) * frac == TWO_63 * frac - x;
    if frac % 2 == 0 {
      assert TWO_63 * frac - x == -x + 2 * TWO_63 * m;
      WrapPeriod(-x, m);
      WrapIsIdentity(-x);
    } else {
      assert frac == 2 * m + 1;
      assert TWO_63 * frac - x == (TWO_63 - x) + 2 * TWO_63 * m;
      WrapPeriod(TWO_63 - x, m);
      if frac > 0 {
        WrapIsIdentity(TWO_63 - x);
      } else {
        WrapPeriod(TWO_63 - x, -1);
        WrapIsIdentity(-TWO_63 - x);
      }
    }
  }

  lemma SmallProduct(d: nat, frac: int)
    requires d < TWO_63 / 1024 && -128 <= frac <= 127
    ensures -(128 * (1 + d)) <= (1 + d) * frac <= 127 * (1 + d)
    ensures frac > 0 ==> 1 + d <= (1 + d) * frac
    ensures frac < 0 ==> (1 + d) * frac <= -(1 + d)
  {
    if frac >= 0 {
      MulLe(1 + d, frac, 127);
    } else {
      MulLe(1 + d, -frac, 128);
    }
    if frac > 0 {
      MulLe(1 + d, 1, frac);
    } else if frac < 0 {
      MulLe(1 + d, 1, -frac);
    }
  }

  lemma LargeRawStaysNear(raw: u64, seed: u64)
    requires raw * 128 > I64_MAX && raw + raw / 1024 <= I64_MAX
    ensures NearRaw(raw, seed)
  {
    var frac := JitterFrac(seed);
    WrapIsIdentity(raw);
    WrapIsSigned(raw * frac);
    var jitter := TruncDiv(WrapI64(raw * frac), 1024);
    var d := I64_MAX - raw;
    if d < TWO_63 / 1024 {
      assert raw == I64_MAX - d;
      JitterNearTheTop(d, frac);
    }
    assert -(TWO_63 / 1024) <= jitter <= d;
    WrapIsIdentity(raw + jitter);
    assert IsNear(raw, raw + jitter);
  }

  lemma WrapsNegative(x: int)
    requires TWO_63 <= x < 2 * TWO_63
    ensures WrapI64(x) == x - 2 * TWO_63
  {
    WrapPeriod(x - 2 * TWO_63, 1);
    WrapIsIdentity(x - 2 * TWO_63);
  }

  lemma OverflowCollapsesTheBackoff(raw: u64)
    requires raw + raw / 1024 > I64_MAX
    ensures exists seed: u64 :: Jittered(raw, seed) == 1 && !NearRaw(raw, seed)
  {
    if raw <= I64_MAX {
      assert JitterFrac(129) == 1;
      WrapIsIdentity(raw);
      WrapsNegative(raw + raw / 1024);
      assert Jittered(raw, 129) == 1;
      assert !NearRaw(raw, 129);
    } else {
      assert JitterFrac(128) == 0;
      WrapsNegative(raw);
      WrapIsIdentity(raw - 2 * TWO_63);
      assert Jittered(raw, 128) == 1;
      assert !NearRaw(raw, 128);
    }
  }

  /**
   In wrapping arithmetic the jitter stays within an eighth for every seed exactly
   while `raw` plus a 1024th of it fits an `i64`; beyond that some seed collapses
   the longest backoffs to one second.
   */
  lemma JitterWithinAnEighthIff(raw: u64)
    ensures (forall seed: u64 :: NearRaw(raw, seed)) <==> raw + raw / 1024 <= I64_MAX
  {
    if raw + raw / 1024 > I64_MAX {
      OverflowCollapsesTheBackoff(raw);
    } else {
      forall seed: u64 ensures NearRaw(raw, seed) {
        if raw * 128 <= I64_MAX {
          JitteredIsExact(raw, seed);
          assert IsNear(raw, Exact(raw, JitterFrac(seed)));
        } else {
          LargeRawStaysNear(raw, seed);
        }
      }
    }
  }

  /** Below that limit, the backoff is the larger of one second and a value within an eighth of the raw backoff. */
  lemma BackoffIsWithinAnEighth(entry: BackoffEntry, base: u64, max: u64, seed: u64)
    requires entry.consecutiveFailures >= 1
    requires var raw := Raw(entry.consecutiveFailures, base, max); raw + raw / 1024 <= I64_MAX
    ensures var raw := Raw(entry.consecutiveFailures, base, max);
            exists v :: IsNear(raw, v) && BackoffSecs(entry, base, max, seed) == Max(v, 1)
  {
    var raw := Raw(entry.consecutiveFailures, base, max);
    JitterWithinAnEighthIff(raw);
    assert NearRaw(raw, seed);
  }

  // ----- More failures never shorten the backoff, and how far that goes

  /** The one product that overflows before `raw * 127` does: it jumps up, not down. */
  lemma LowestFractionJumpsUp(raw: u64, seed: u64)
    requires JitterFrac(seed) == -128 && raw * 127 <= I64_MAX < raw * 128 - 1
    ensures Jittered(raw, seed) == raw + (2 * TWO_63 - 128 * raw) / 1024
  {
    WrapIsIdentity(raw);
    assert raw * -128 == (2 * TWO_63 - 128 * raw) + 2 * TWO_63 * -1;
    WrapPeriod(2 * TWO_63 - 128 * raw, -1);
    WrapIsIdentity(2 * TWO_63 - 128 * raw);
    WrapIsIdentity(raw + (2 * TWO_63 - 128 * raw) / 1024);
  }

  lemma JitteredIsExactExceptLowest(raw: u64, seed: u64)
    requires raw * 127 <= I64_MAX && (JitterFrac(seed) != -128 || raw * 128 <= TWO_63)
    ensures Jittered(raw, seed) == Max(Exact(raw, JitterFrac(seed)), 1)
  {
    var frac := JitterFrac(seed);
    ProductFits(raw, frac);
    TruncWithinAnEighth(raw * frac, raw);
    WrapIsIdentity(raw);
    WrapIsIdentity(raw * frac);
    WrapIsIdentity(Exact(raw, frac));
  }

  lemma JitteredMonotone(raw: u64, more: u64, seed: u64)
    requires raw <= more && more * 127 <= I64_MAX
    ensures Jittered(raw, seed) <= Jittered(more, seed)
  {
    if JitterFrac(seed) == -128 && raw * 128 > TWO_63 {
      LowestFractionJumpsUp(raw, seed);
      LowestFractionJumpsUp(more, seed);
    } else if JitterFrac(seed) == -128 && more * 128 > TWO_63 {
      JitteredIsExactExceptLowest(raw, seed);
      LowestFractionJumpsUp(more, seed);
    } else {
      JitteredIsExactExceptLowest(raw, seed);
      JitteredIsExactExceptLowest(more, seed);
      ExactMonotone(raw, more, JitterFrac(seed));
    }
  }

  /** For a fixed seed, more consecutive failures never shorten the backoff, as long as `raw * 127` fits an `i64`. */
  lemma BackoffNeverShrinks(failures: u32, more: u32, at: u64, at': u64, base: u64, max: u64, seed: u64)
    requires 1 <= failures <= more && Raw(more, base, max) * 127 <= I64_MAX
    ensures BackoffSecs(BackoffEntry(at, failures), base, max, seed)
            <= BackoffSecs(BackoffEntry(at', more), base, max, seed)
  {
    RawMonotone(failures, more, base, max);
    JitteredMonotone(Raw(failures, base, max), Raw(more, base, max), seed);
  }

  predicate Grows(failures: u32, more: u32, base: u64, max: u64, seed: u64) {
    1 <= failures <= more ==>
      BackoffSecs(BackoffEntry(0, failures), base, max, seed) <= BackoffSecs(BackoffEntry(0, more), base, max, seed)
  }

  /** With caps up to `cap`, no configuration and no seed ever lets a further failure shorten the backoff. */
  ghost predicate NeverShrinksUpTo(cap: u64) {
    forall failures: u32, more: u32, base: u64, max: u64, seed: u64 ::
      max <= cap ==> Grows(failures, more, base, max, seed)
  }

  /** Past the first overflow, a second failure one second longer before jitter is centuries shorter after it. */
  lemma OverflowShrinksTheBackoff()
    ensures var base := I64_MAX / 127; !Grows(1, 2, base, base + 1, 255)
  {
    var base := I64_MAX / 127;
    assert base * 127 == I64_MAX && JitterFrac(255) == 127;
    RawDoubles(1, base, base + 1);
    RawDoubles(1, base, U64_MAX);
    JitteredIsExactExceptLowest(base, 255);
    var product := (base + 1) * 127;
    WrapsNegative(product);
    WrapIsIdentity(base + 1);
    WrapIsIdentity(base + 1 + TruncDiv(product - 2 * TWO_63, 1024));
  }

  /** The backoff never shrinks in any configuration with caps up to `cap` exactly while `cap * 127` fits an `i64`. */
  lemma NeverShrinksIff(cap: u64)
    ensures NeverShrinksUpTo(cap) <==> cap * 127 <= I64_MAX
  {
    if cap * 127 <= I64_MAX {
      forall failures: u32, more: u32, base: u64, max: u64, seed: u64 | max <= cap
        ensures Grows(failures, more, base, max, seed)
      {
        if 1 <= failures <= more {
          RawMonotone(more, more, base, max);
          BackoffNeverShrinks(failures, more, 0, 0, base, max, seed);
        }
      }
    } else {
      OverflowShrinksTheBackoff();
      var base := I64_MAX / 127;
      assert base + 1 <= cap;
    }
  }
}
