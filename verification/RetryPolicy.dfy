/** Retries inside one queued command (`camera-state/command_queue.rs`): attempts, backoff and jitter. */
module RetryPolicy {
  import opened Numerics

  datatype Attempt = Success(value: int) | Failure(error: CameraError)

  /** The error classes of `camera-traits/src/error.rs`; only the first three are retryable. */
  datatype CameraError =
    | CommandTimeout(timeoutMs: nat)
    | Transport(reason: string)
    | WifiBackgroundedByOs
    | Cancelled
    | Other(reason: string)

  predicate IsRetryable(e: CameraError) {
    e.CommandTimeout? || e.Transport? || e.WifiBackgroundedByOs?
  }

  const I64_LIMIT := 0x8000_0000_0000_0000
  const U64_SIZE := 0x1_0000_0000_0000_0000
  // The largest Rust Duration, in nanoseconds.
  const DURATION_MAX := U64_SIZE * 1_000_000_000 - 1

  // ---- Jitter -------------------------------------------------------------------------------------

  /** The eight little-endian bytes of a 64-bit word, widened back to words. */
  function LittleEndian(x: bv64): (r: seq<bv64>)
    ensures |r| == 8
  {
    [x & 0xff, (x >> 8) & 0xff, (x >> 16) & 0xff, (x >> 24) & 0xff,
     (x >> 32) & 0xff, (x >> 40) & 0xff, (x >> 48) & 0xff, (x >> 56) & 0xff]
  }

  /** One FNV-1a round, wrapping at 64 bits. */
  function Mix(h: bv64, octet: bv64): bv64 {
    (h ^ octet) * 0x0100_0000_01b3
  }

  function Fold(h: bv64, bytes: seq<bv64>): bv64 {
    if bytes == [] then h
    else Mix(Fold(h, bytes[..|bytes| - 1]), bytes[|bytes| - 1])
  }

  /** The lowest byte first. */
  lemma LittleEndianVector()
    ensures LittleEndian(0x8807_0605_0403_0201) == [1, 2, 3, 4, 5, 6, 7, 0x88]
  {
  }

  /** Published FNV-1a test vectors: the empty string, "a" and "foobar". */
  lemma FnvTestVectors()
    ensures Fold(0xcbf2_9ce4_8422_2325, []) == 0xcbf2_9ce4_8422_2325
    ensures Fold(0xcbf2_9ce4_8422_2325, [0x61]) == 0xaf63_dc4c_8601_ec8c
    ensures Fold(0xcbf2_9ce4_8422_2325, [0x66, 0x6f, 0x6f, 0x62, 0x61, 0x72]) == 0x8594_4171_f739_67e8
  {
    Round(0xcbf2_9ce4_8422_2325, [], 0x61, [0x61], 0xaf63_dc4c_8601_ec8c);
    Round(0xcbf2_9ce4_8422_2325, [], 0x66, [0x66], 0xaf63_db4c_8601_ead9);
    Round(0xaf63_db4c_8601_ead9, [0x66], 0x6f, [0x66, 0x6f], 0x0898_5907_b541_d342);
    Round(0x0898_5907_b541_d342, [0x66, 0x6f], 0x6f, [0x66, 0x6f, 0x6f], 0xdcb2_7518_fed9_d577);
    Round(0xdcb2_7518_fed9_d577, [0x66, 0x6f, 0x6f], 0x62, [0x66, 0x6f, 0x6f, 0x62], 0xdd12_0e79_0c25_12af);
    Round(0xdd12_0e79_0c25_12af, [0x66, 0x6f, 0x6f, 0x62], 0x61, [0x66, 0x6f, 0x6f, 0x62, 0x61], 0xcac1_65af_a2fe_f40a);
    Round(0xcac1_65af_a2fe_f40a, [0x66, 0x6f, 0x6f, 0x62, 0x61], 0x72, [0x66, 0x6f, 0x6f, 0x62, 0x61, 0x72],
          0x8594_4171_f739_67e8);
  }

  lemma Round(before: bv64, bytes: seq<bv64>, octet: bv64, more: seq<bv64>, after: bv64)
    requires Fold(0xcbf2_9ce4_8422_2325, bytes) == before && more == bytes + [octet] && Mix(before, octet) == after
    ensures Fold(0xcbf2_9ce4_8422_2325, more) == after
  {
    FoldSnoc(0xcbf2_9ce4_8422_2325, bytes, octet);
  }

  lemma FoldSnoc(h: bv64, bytes: seq<bv64>, octet: bv64)
    ensures Fold(h, bytes + [octet]) == Mix(Fold(h, bytes), octet)
  {
    assert (bytes + [octet])[..|bytes|] == bytes;
  }

  function HashOf(a: bv64, b: bv64): bv64 {
    Fold(0xcbf2_9ce4_8422_2325, LittleEndian(a) + LittleEndian(b))
  }

  method FxHash(a: bv64, b: bv64) returns (h: bv64)
    ensures h == HashOf(a, b)
  {
    h := 0xcbf2_9ce4_8422_2325;
    var bytes := LittleEndian(a) + LittleEndian(b);
    for i := 0 to |bytes|
      invariant h == Fold(0xcbf2_9ce4_8422_2325, bytes[..i])
    {
      assert bytes[..i + 1][..i] == bytes[..i];
      h := Mix(h, bytes[i]);
    }
    assert bytes[..|bytes|] == bytes;
  }

  /** Rust's `/` on signed integers: toward zero. */
  function TruncDiv(x: int, d: int): int
    requires d > 0
  {
    if x >= 0 then x / d else -((-x) / d)
  }

  function Pow2(n: nat): nat {
    if n == 0 then 1 else 2 * Pow2(n - 1)
  }

  /** `initial.saturating_mul(1 << attempt.min(8))` in nanoseconds. */
  function Base(initial: nat, attempt: nat): nat {
    var product := initial * Pow2(Min(attempt, 8));
    if product > DURATION_MAX then DURATION_MAX else product
  }

  /** The base doubles from each attempt to the next, saturating, and stays from the ninth on. */
  lemma BaseDoubles(initial: nat, attempt: nat)
    ensures Base(initial, 0) == Min(initial, DURATION_MAX)
    ensures attempt < 8 ==> Base(initial, attempt + 1) == Min(2 * Base(initial, attempt), DURATION_MAX)
    ensures attempt >= 8 ==> Base(initial, attempt) == Base(initial, 8)
  {
    if attempt < 8 {
      var p := Pow2(attempt);
      Twice(initial, p, Pow2(attempt + 1));
    }
  }

  lemma Twice(x: nat, p: nat, q: nat)
    requires q == 2 * p
    ensures x * q == 2 * (x * p)
  {
  }

  /** The remainder has the sign of the dividend: the quotient is cut off toward zero. */
  lemma TruncDivIs(x: int, d: int)
    requires d > 0
    ensures var r := x - TruncDiv(x, d) * d;
      if x >= 0 then 0 <= r < d else -d < r <= 0
  {
    var q := if x >= 0 then x / d else (-x) / d;
    assert q * d <= (if x >= 0 then x else -x) < q * d + d;
  }

  /** The low 64 bits of x as two's complement: what `as i64` keeps of a u128 and what wrapping keeps of a result. */
  function AsI64(x: int): (r: int)
    ensures -I64_LIMIT <= r < I64_LIMIT
  {
    var low := x % U64_SIZE;
    if low < I64_LIMIT then low else low - U64_SIZE
  }

  /** Overflow panics in a build with overflow checks, such as a debug build; the release profile has none and wraps. */
  datatype Build = Checked | Wrapping

  function Fit(build: Build, x: int): Option<int> {
    if build.Checked? && AsI64(x) != x then None else Some(AsI64(x))
  }

  /** The percentage a hash value selects. */
  function Percent(hash: nat): (pct: int)
    ensures -25 <= pct <= 25
  {
    hash % 51 - 25
  }

  /** The percentages -25 to 25 in turn, as the hash counts up. */
  lemma PercentIs(hash: nat)
    ensures Percent(0) == -25 && Percent(hash + 1) == if Percent(hash) == 25 then -25 else Percent(hash) + 1
  {
  }

  /** The delay in nanoseconds for a given hash value, or None where overflow panics. */
  function Jittered(build: Build, base: nat, hash: nat): Option<nat> {
    Shifted(build, AsI64(base), AsI64(base) * Percent(hash))
  }

  function Shifted(build: Build, nanos: int, product: int): Option<nat> {
    var fitted := Fit(build, product);
    if fitted.None? then None
    else
      var jittered := Fit(build, nanos + TruncDiv(fitted.value, 100));
      if jittered.None? then None
      else Some(if jittered.value < 0 then 0 else jittered.value)
  }

  lemma PercentBand(base: nat, pct: int)
    requires -25 <= pct <= 25
    ensures -25 * base <= base * pct <= 25 * base
  {
  }

  lemma FitsItself(x: int)
    ensures AsI64(x) == x <==> -I64_LIMIT <= x < I64_LIMIT
  {
  }

  ghost predicate InBand(build: Build, base: nat, hash: nat) {
    var d := Jittered(build, base, hash);
    d.Some? && 3 * base <= 4 * d.value <= 5 * base
  }

  /** While 25 times the base fits nothing overflows, and in both builds every delay is within a quarter of its base. */
  lemma JitterBand(build: Build, base: nat, hash: nat)
    requires 25 * base < I64_LIMIT
    ensures InBand(build, base, hash)
    ensures Jittered(build, base, hash) == Some(base + TruncDiv(base * Percent(hash), 100))
  {
    PercentBand(base, Percent(hash));
    assert AsI64(base) == base;
    ShiftedFits(build, base, base * Percent(hash));
  }

  lemma ShiftedFits(build: Build, base: nat, x: int)
    requires -25 * base <= x <= 25 * base && 25 * base < I64_LIMIT
    ensures Shifted(build, base, x) == Some(base + TruncDiv(x, 100))
    ensures 3 * base <= 4 * (base + TruncDiv(x, 100)) <= 5 * base
  {
    TruncBand(x, base);
    Fits(build, x);
    Fits(build, base + TruncDiv(x, 100));
  }

  lemma Fits(build: Build, x: int)
    requires -I64_LIMIT <= x < I64_LIMIT
    ensures Fit(build, x) == Some(x)
  {
  }

  lemma TruncBand(x: int, size: nat)
    requires -25 * size <= x <= 25 * size
    ensures -1 * size <= 4 * TruncDiv(x, 100) <= size
  {
  }

  /** A build with overflow checks survives every hash exactly when 25 times the truncated base fits, either way. */
  lemma NeverPanicsIff(base: nat)
    ensures (forall hash: nat :: Jittered(Checked, base, hash).Some?)
       <==> -I64_LIMIT < 25 * AsI64(base) < I64_LIMIT
  {
    var nanos := AsI64(base);
    if -I64_LIMIT < 25 * nanos < I64_LIMIT {
      forall hash: nat ensures Jittered(Checked, base, hash).Some? {
        SignedPercentBand(nanos, Percent(hash));
        SmallNeverPanics(nanos, nanos * Percent(hash));
      }
    } else if nanos >= 0 {
      assert Percent(50) == 25 && Jittered(Checked, base, 50) == Shifted(Checked, nanos, nanos * 25);
    } else {
      assert Percent(0) == -25 && Jittered(Checked, base, 0) == Shifted(Checked, nanos, nanos * -25);
    }
  }

  function Size(x: int): nat {
    if x < 0 then -x else x
  }

  lemma SignedPercentBand(nanos: int, pct: int)
    requires -25 <= pct <= 25
    ensures -25 * Size(nanos) <= nanos * pct <= 25 * Size(nanos)
  {
    PercentBand(Size(nanos), pct);
    assert -nanos * pct == -(nanos * pct);
  }

  lemma SmallNeverPanics(nanos: int, x: int)
    requires -25 * Size(nanos) <= x <= 25 * Size(nanos) && -I64_LIMIT < 25 * nanos < I64_LIMIT
    ensures Shifted(Checked, nanos, x).Some?
  {
    TruncBand(x, Size(nanos));
    Fits(Checked, x);
    Fits(Checked, nanos + TruncDiv(x, 100));
  }

  /** With overflow checks the +-25 % promise holds for every hash exactly when 25 times the base fits in an i64. */
  lemma JitterBandIff(base: nat)
    ensures (forall hash: nat :: InBand(Checked, base, hash)) <==> 25 * base < I64_LIMIT
  {
    if 25 * base < I64_LIMIT {
      forall hash: nat ensures InBand(Checked, base, hash) {
        JitterBand(Checked, base, hash);
      }
    } else if base < I64_LIMIT {
      assert AsI64(base) == base;
      assert Percent(50) == 25 && Jittered(Checked, base, 50) == Shifted(Checked, base, base * 25);
      assert !InBand(Checked, base, 50);
    } else {
      assert Percent(25) == 0 && Jittered(Checked, base, 25) == Shifted(Checked, AsI64(base), 0);
      assert AsI64(base) >= 0 ==> base >= U64_SIZE;
      assert !InBand(Checked, base, 25);
    }
  }

  /** The delay before truncation, with the product as the build computes it. */
  function Target(base: nat, pct: int): int {
    base + TruncDiv(AsI64(base * pct), 100)
  }

  /** When the promised band is kept: with checks nothing may overflow, with wrapping only the sum may not. */
  predicate KeepsBand(build: Build, base: nat, pct: int) {
    && Target(base, pct) < I64_LIMIT
    && (build.Checked? ==> base < I64_LIMIT && -I64_LIMIT <= base * pct < I64_LIMIT)
  }

  lemma ModUnchanged(x: int, k: int)
    ensures (x + k * U64_SIZE) % U64_SIZE == x % U64_SIZE
  {
  }

  /** Truncating the base first does not change the wrapped product. */
  lemma WrappedProduct(base: nat, pct: int)
    ensures AsI64(AsI64(base) * pct) == AsI64(base * pct)
  {
    var k := Truncation(base);
    Spread(AsI64(base), k, pct);
    TruncationRepeats(AsI64(base) * pct, k * pct);
  }

  lemma Truncation(base: int) returns (k: int)
    ensures base == AsI64(base) + k * U64_SIZE
  {
    k := (base - AsI64(base)) / U64_SIZE;
  }

  lemma TruncationRepeats(x: int, k: int)
    ensures AsI64(x + k * U64_SIZE) == AsI64(x)
  {
    ModUnchanged(x, k);
  }

  lemma Spread(nanos: int, k: int, pct: int)
    ensures (nanos + k * U64_SIZE) * pct == nanos * pct + (k * pct) * U64_SIZE
  {
  }

  /** A wrapped product of a large base moves it by less than a quarter; a small base does not wrap. */
  lemma ShiftBound(base: nat, x: int)
    requires -25 * base <= x <= 25 * base
    ensures var shift := TruncDiv(AsI64(x), 100);
      -1 * base <= 4 * shift <= base && -I64_LIMIT <= 100 * shift <= I64_LIMIT
  {
    if 25 * base < I64_LIMIT {
      TruncBand(x, base);
    }
  }

  lemma WrappedDelay(base: nat, hash: nat)
    ensures var v := AsI64(Target(base, Percent(hash)));
      Jittered(Wrapping, base, hash) == Some(if v < 0 then 0 else v)
  {
    var pct := Percent(hash);
    var shift := TruncDiv(AsI64(base * pct), 100);
    WrappedProduct(base, pct);
    var k := Truncation(base);
    TruncationRepeats(AsI64(base) + shift, k);
    WrappedShift(base, AsI64(base) * pct, shift);
  }

  lemma WrappedShift(base: nat, product: int, shift: int)
    requires shift == TruncDiv(AsI64(product), 100) && AsI64(AsI64(base) + shift) == AsI64(base + shift)
    ensures var v := AsI64(base + shift);
      Shifted(Wrapping, AsI64(base), product) == Some(if v < 0 then 0 else v)
  {
  }

  /** For any base and hash, in either build: the delay is within a quarter of its base exactly when KeepsBand says. */
  lemma InBandIff(build: Build, base: nat, hash: nat)
    ensures InBand(build, base, hash) <==> KeepsBand(build, base, Percent(hash))
  {
    if build.Checked? {
      CheckedInBandIff(base, hash);
    } else {
      WrappedInBandIff(base, hash);
    }
  }

  lemma WrappedInBandIff(base: nat, hash: nat)
    ensures InBand(Wrapping, base, hash) <==> Target(base, Percent(hash)) < I64_LIMIT
  {
    var x := base * Percent(hash);
    PercentBand(base, Percent(hash));
    ShiftBound(base, x);
    WrappedDelay(base, hash);
    TargetInBand(base, base + TruncDiv(AsI64(x), 100));
  }

  lemma CheckedInBandIff(base: nat, hash: nat)
    ensures InBand(Checked, base, hash) <==> KeepsBand(Checked, base, Percent(hash))
  {
    if base < I64_LIMIT {
      CheckedInRange(base, base * Percent(hash));
      WrappedInBandIff(base, hash);
    } else {
      SignedPercentBand(AsI64(base), Percent(hash));
      TruncatedLeavesBand(base, AsI64(base) * Percent(hash));
    }
  }

  lemma CheckedInRange(base: nat, x: int)
    requires base < I64_LIMIT
    ensures AsI64(base) == base
    ensures var target := base + TruncDiv(AsI64(x), 100);
      if -I64_LIMIT <= x < I64_LIMIT && target < I64_LIMIT
      then Shifted(Checked, base, x) == Shifted(Wrapping, base, x)
      else Shifted(Checked, base, x).None?
  {
    FitsItself(x);
    FitsItself(base + TruncDiv(x, 100));
  }

  lemma TargetInBand(base: nat, target: int)
    requires -1 * base <= 4 * (target - base) <= base && -I64_LIMIT <= 100 * (target - base) <= I64_LIMIT
    ensures var v := AsI64(target);
      3 * base <= 4 * (if v < 0 then 0 else v) <= 5 * base <==> target < I64_LIMIT
  {
    if target >= U64_SIZE {
      assert AsI64(target) <= target - U64_SIZE;
    }
  }

  /** Where overflow checks let the computation through, both builds return the same delay. */
  lemma CheckedAgrees(base: nat, hash: nat)
    ensures Jittered(Checked, base, hash).Some? ==> Jittered(Checked, base, hash) == Jittered(Wrapping, base, hash)
  {
    var product := AsI64(base) * Percent(hash);
    assert Fit(Checked, product).Some? ==> AsI64(product) == product;
  }

  /** With overflow checks a truncated base is far below the base it came from, and no jitter brings it back. */
  lemma TruncatedLeavesBand(base: nat, x: int)
    requires base >= I64_LIMIT && -25 * Size(AsI64(base)) <= x <= 25 * Size(AsI64(base))
    ensures var d := Shifted(Checked, AsI64(base), x);
      d.Some? ==> 4 * d.value < 3 * base
  {
    var nanos := AsI64(base);
    TruncBand(x, Size(nanos));
    assert nanos >= 0 ==> base >= U64_SIZE + nanos;
  }

  /**
   Without overflow checks every hash stays in the band up to a hundredth below the largest i64, twenty-four
   times as far; from the largest i64 on some hash leaves it.
   */
  lemma WrappedJitterBand(base: nat)
    ensures base + I64_LIMIT / 100 < I64_LIMIT ==> forall hash: nat :: InBand(Wrapping, base, hash)
    ensures base >= I64_LIMIT ==> !InBand(Wrapping, base, 25)
  {
    if base + I64_LIMIT / 100 < I64_LIMIT {
      forall hash: nat ensures InBand(Wrapping, base, hash) {
        PercentBand(base, Percent(hash));
        ShiftBound(base, base * Percent(hash));
        InBandIff(Wrapping, base, hash);
      }
    }
    InBandIff(Wrapping, base, 25);
    assert Percent(25) == 0 && AsI64(0) == 0;
  }

  function Hash(initial: nat, attempt: nat): bv64 {
    HashOf((attempt % U64_SIZE) as bv64, (Base(initial, attempt) % U64_SIZE) as bv64)
  }

  function Backoff(build: Build, initial: nat, attempt: nat): Option<nat> {
    Jittered(build, Base(initial, attempt), Hash(initial, attempt) as nat)
  }

  /** Exactly when the delay of this attempt, with the hash it really gets, is within a quarter of its base. */
  lemma BackoffInBandIff(build: Build, initial: nat, attempt: nat)
    ensures var base, hash := Base(initial, attempt), Hash(initial, attempt) as nat;
      InBand(build, base, hash) <==> KeepsBand(build, base, Percent(hash))
  {
    InBandIff(build, Base(initial, attempt), Hash(initial, attempt) as nat);
  }

  /** The input that shows it, in both builds: the longest Duration of all is retried without any delay. */
  lemma LongestBackoffIsZero(build: Build, attempt: nat)
    ensures Base(DURATION_MAX, attempt) == DURATION_MAX
    ensures Backoff(build, DURATION_MAX, attempt) == Some(0)
    ensures !InBand(build, Base(DURATION_MAX, attempt), Hash(DURATION_MAX, attempt) as nat)
  {
    LongestBase(attempt);
    LongestDelay(build, Hash(DURATION_MAX, attempt) as nat);
  }

  lemma LongestBase(attempt: nat)
    ensures Base(DURATION_MAX, attempt) == DURATION_MAX
  {
    Pow2Positive(Min(attempt, 8));
  }

  lemma LongestDelay(build: Build, hash: nat)
    ensures Jittered(build, DURATION_MAX, hash) == Some(0)
  {
    assert AsI64(DURATION_MAX) == -1;
    NegatedBand(build, Percent(hash));
  }

  lemma NegatedBand(build: Build, pct: int)
    requires -25 <= pct <= 25
    ensures Shifted(build, -1, -1 * pct) == Some(0)
  {
    assert TruncDiv(-1 * pct, 100) == 0;
  }

  lemma FourRounds(before: bv64, bytes: seq<bv64>, a: bv64, b: bv64, c: bv64, d: bv64, more: seq<bv64>, after: bv64)
    requires Fold(0xcbf2_9ce4_8422_2325, bytes) == before && more == bytes + [a, b, c, d]
    requires Mix(Mix(Mix(Mix(before, a), b), c), d) == after
    ensures Fold(0xcbf2_9ce4_8422_2325, more) == after
  {
    var h0: bv64 := 0xcbf2_9ce4_8422_2325;
    FoldSnoc(h0, bytes, a);
    FoldSnoc(h0, bytes + [a], b);
    FoldSnoc(h0, bytes + [a] + [b], c);
    FoldSnoc(h0, bytes + [a] + [b] + [c], d);
    assert more == bytes + [a] + [b] + [c] + [d];
  }

  /** The hash of the pair (1, 500 000 000), byte by byte. */
  lemma HashVector()
    ensures HashOf(1, 500_000_000) == 0xf8e4_5d62_f8d0_826d
  {
    var one: seq<bv64> := [1, 0, 0, 0];
    var two: seq<bv64> := [1, 0, 0, 0, 0, 0, 0, 0];
    var three: seq<bv64> := [1, 0, 0, 0, 0, 0, 0, 0, 0, 0x65, 0xcd, 0x1d];
    FourRounds(0xcbf2_9ce4_8422_2325, [], 1, 0, 0, 0, one, 0xad2a_ca77_4798_5764);
    FourRounds(0xad2a_ca77_4798_5764, one, 0, 0, 0, 0, two, 0x89cd_3129_1d2a_efa4);
    FourRounds(0x89cd_3129_1d2a_efa4, two, 0, 0x65, 0xcd, 0x1d, three, 0x596c_9b3a_4fc2_c61d);
    FourRounds(0x596c_9b3a_4fc2_c61d, three, 0, 0, 0, 0, three + [0, 0, 0, 0], 0xf8e4_5d62_f8d0_826d);
    BytesOfPair();
  }

  lemma BytesOfPair()
    ensures LittleEndian(1) + LittleEndian(500_000_000)
         == [1, 0, 0, 0, 0, 0, 0, 0, 0, 0x65, 0xcd, 0x1d] + [0, 0, 0, 0]
  {
  }

  /** For instance the wait before the third attempt at the defaults: 500 ms and 11 % of it. */
  lemma SecondDelay(build: Build, initial: nat, attempt: nat)
    requires initial == 250_000_000 && attempt == 1
    ensures Backoff(build, initial, attempt) == Some(555_000_000)
  {
    SecondBase(initial, attempt);
    SecondHash(initial, attempt);
    SecondPercent();
    SmallDelay(build, Hash(initial, attempt) as nat);
  }

  lemma SecondHash(initial: nat, attempt: nat)
    requires initial == 250_000_000 && attempt == 1
    ensures Hash(initial, attempt) == 0xf8e4_5d62_f8d0_826d
  {
    SecondBase(initial, attempt);
    var a, b := HashArguments(initial, attempt, 500_000_000);
    SameWord(1, a, 1);
    SameWord(500_000_000, b, 500_000_000);
    KnownHash(a, b);
  }

  lemma SameWord(n: nat, a: bv64, b: bv64)
    requires n < U64_SIZE && a == n as bv64 && n == b as nat
    ensures a == b
  {
  }

  lemma HashArguments(initial: nat, attempt: nat, base: nat) returns (a: bv64, b: bv64)
    requires base == Base(initial, attempt) && attempt < U64_SIZE && base < U64_SIZE
    ensures a == attempt as bv64 && b == base as bv64 && Hash(initial, attempt) == HashOf(a, b)
  {
    a, b := attempt as bv64, base as bv64;
  }

  lemma KnownHash(a: bv64, b: bv64)
    requires a == 1 && b == 500_000_000
    ensures HashOf(a, b) == 0xf8e4_5d62_f8d0_826d
  {
    HashVector();
  }

  lemma SmallDelay(build: Build, hash: nat)
    requires Percent(hash) == 11
    ensures Jittered(build, 500_000_000, hash) == Some(555_000_000)
  {
    JitterBand(build, 500_000_000, hash);
  }

  lemma SecondBase(initial: nat, attempt: nat)
    requires initial == 250_000_000 && attempt == 1
    ensures Base(initial, attempt) == 500_000_000
  {
    assert Pow2(1) == 2;
  }

  lemma SecondPercent()
    ensures Percent((0xf8e4_5d62_f8d0_826d as bv64) as nat) == 11
  {
  }

  lemma Pow2Positive(n: nat)
    ensures Pow2(n) >= 1
  {
  }

  method JitteredBackoff(build: Build, initial: nat, attempt: nat) returns (delay: Option<nat>)
    ensures delay == Backoff(build, initial, attempt)
  {
    var base := Base(initial, attempt);
    var h := FxHash((attempt % U64_SIZE) as bv64, (base % U64_SIZE) as bv64);
    delay := Jittered(build, base, h as nat);
  }

  // ---- The retry loop -----------------------------------------------------------------------------

  /** What one submission does: its result (None: arithmetic overflow), closure calls and sleeps. */
  datatype Trace = Trace(outcome: Option<Attempt>, calls: nat, sleeps: seq<nat>)

  predicate Stops(f: nat -> Attempt, maxAttempts: nat, k: nat) {
    f(k).Success? || !IsRetryable(f(k).error) || k + 1 >= maxAttempts
  }

  /** The loop from attempt k on, where f(k) is what the k-th call of the closure returns. */
  function Drive(f: nat -> Attempt, maxAttempts: nat, delays: nat -> Option<nat>, k: nat): Trace
    decreases maxAttempts - k
  {
    if k >= maxAttempts then Trace(Some(Failure(Cancelled)), 0, [])
    else if Stops(f, maxAttempts, k) then Trace(Some(f(k)), 1, [])
    else if delays(k).None? then Trace(None, 1, [])
    else
      var rest := Drive(f, maxAttempts, delays, k + 1);
      Trace(rest.outcome, 1 + rest.calls, [delays(k).value] + rest.sleeps)
  }

  function UnwrapOr(e: Option<CameraError>, default: CameraError): CameraError {
    match e
    case Some(error) => error
    case None => default
  }

  /** A trace with calls and sleeps before it. */
  function Before(calls: nat, sleeps: seq<nat>, t: Trace): Trace {
    Trace(t.outcome, calls + t.calls, sleeps + t.sleeps)
  }

  lemma LastCall(calls: nat, sleeps: seq<nat>, outcome: Option<Attempt>, n: nat)
    ensures Before(calls, sleeps, Trace(outcome, n, [])) == Trace(outcome, calls + n, sleeps)
  {
  }

  lemma OneMoreCall(calls: nat, sleeps: seq<nat>, delay: nat, t: Trace)
    ensures Before(calls, sleeps, Before(1, [delay], t)) == Before(calls + 1, sleeps + [delay], t)
  {
    assert sleeps + ([delay] + t.sleeps) == (sleeps + [delay]) + t.sleeps;
  }

  lemma DriveStep(f: nat -> Attempt, maxAttempts: nat, delays: nat -> Option<nat>, k: nat)
    requires k < maxAttempts && !Stops(f, maxAttempts, k) && delays(k).Some?
    ensures Drive(f, maxAttempts, delays, k) == Before(1, [delays(k).value], Drive(f, maxAttempts, delays, k + 1))
  {
  }

  method SubmitWithRetry(f: nat -> Attempt, maxAttempts: nat, delays: nat -> Option<nat>) returns (t: Trace)
    ensures t == Drive(f, maxAttempts, delays, 0)
  {
    var lastErr: Option<CameraError> := None;
    var calls: nat := 0;
    var sleeps: seq<nat> := [];
    var attempt: nat := 0;
    while attempt < maxAttempts
      invariant attempt <= maxAttempts && calls == attempt
      invariant attempt > 0 ==> attempt < maxAttempts
      invariant attempt == 0 ==> lastErr == None
      invariant Drive(f, maxAttempts, delays, 0) == Before(calls, sleeps, Drive(f, maxAttempts, delays, attempt))
    {
      var result := f(attempt);
      calls := calls + 1;
      if result.Success? {
        LastCall(attempt, sleeps, Some(result), 1);
        return Trace(Some(result), calls, sleeps);
      }
      if !IsRetryable(result.error) || attempt + 1 >= maxAttempts {
        LastCall(attempt, sleeps, Some(result), 1);
        return Trace(Some(result), calls, sleeps);
      }
      lastErr := Some(result.error);
      var delay := delays(attempt);
      if delay.None? {
        LastCall(attempt, sleeps, None, 1);
        return Trace(None, calls, sleeps);
      }
      DriveStep(f, maxAttempts, delays, attempt);
      OneMoreCall(attempt, sleeps, delay.value, Drive(f, maxAttempts, delays, attempt + 1));
      sleeps := sleeps + [delay.value];
      attempt := attempt + 1;
    }
    LastCall(calls, sleeps, Some(Failure(Cancelled)), 0);
    t := Trace(Some(Failure(UnwrapOr(lastErr, Cancelled))), calls, sleeps);
  }

  lemma Pow2Bound(n: nat)
    requires n <= 8
    ensures Pow2(n) <= 256
  {
    assert Pow2(2) == 4 && Pow2(3) == 8;
    assert Pow2(4) == 16 && Pow2(5) == 32;
    assert Pow2(6) == 64 && Pow2(7) == 128;
    assert Pow2(8) == 256;
  }

  lemma BaseBound(initial: nat, attempt: nat)
    ensures Base(initial, attempt) <= 256 * initial
  {
    var p := Pow2(Min(attempt, 8));
    Pow2Bound(Min(attempt, 8));
    assert initial * p <= initial * 256;
  }

  function SumNat(s: seq<nat>): nat {
    if s == [] then 0 else s[0] + SumNat(s[1..])
  }

  function BaseSeries(initial: nat): nat -> nat {
    (j: nat) => Base(initial, j)
  }

  /** The undisturbed delays for attempts k, k + 1, ..., k + n - 1. */
  function Series(bases: nat -> nat, k: nat, n: nat): nat
    decreases n
  {
    if n == 0 then 0 else bases(k) + Series(bases, k + 1, n - 1)
  }

  /**
   What a submission does, from attempt k: every attempt before the last call failed retryably and was
   followed by its delay. The last call stops the loop, being a success, a failure for good or the last one
   allowed, and its result is returned; or computing the delay after it overflowed.
   */
  lemma {:induction false} DriveBehaviour(f: nat -> Attempt, maxAttempts: nat, delays: nat -> Option<nat>, k: nat)
    requires k < maxAttempts
    ensures var t := Drive(f, maxAttempts, delays, k);
      var last := k + t.calls - 1;
      && 1 <= t.calls <= maxAttempts - k && |t.sleeps| == t.calls - 1
      && (forall j: nat :: k <= j < last ==> !Stops(f, maxAttempts, j) && delays(j) == Some(t.sleeps[j - k]))
      && if Stops(f, maxAttempts, last) then t.outcome == Some(f(last)) else delays(last).None? && t.outcome.None?
    decreases maxAttempts - k
  {
    if !Stops(f, maxAttempts, k) && delays(k).Some? {
      DriveBehaviour(f, maxAttempts, delays, k + 1);
    }
  }

  /** A command timeout, a transport failure or Wi-Fi put to the background. */
  predicate Transient(r: Attempt) {
    r.Failure? && match r.error
                  case CommandTimeout(_) => true
                  case Transport(_) => true
                  case WifiBackgroundedByOs => true
                  case Cancelled => false
                  case Other(_) => false
  }

  lemma StopsIff(f: nat -> Attempt, maxAttempts: nat, k: nat)
    requires k < maxAttempts
    ensures Stops(f, maxAttempts, k) <==> !Transient(f(k)) || k == maxAttempts - 1
  {
  }

  /**
   The retries in plain terms, for delays that never overflow: without an attempt allowed the submission is
   cancelled; otherwise every call but the last failed transiently and was followed by its delay, the result is
   that of the last call, and that is the first that did not fail transiently, or the last one allowed.
   */
  lemma RetriesAre(f: nat -> Attempt, maxAttempts: nat, delays: nat -> Option<nat>)
    requires forall j: nat :: delays(j).Some?
    ensures var t := Drive(f, maxAttempts, delays, 0);
      if maxAttempts == 0 then t == Trace(Some(Failure(Cancelled)), 0, [])
      else
        && 1 <= t.calls <= maxAttempts && |t.sleeps| == t.calls - 1
        && (forall j: nat :: j < t.calls - 1 ==> Transient(f(j)) && t.sleeps[j] == delays(j).value)
        && t.outcome == Some(f(t.calls - 1))
        && (Transient(f(t.calls - 1)) ==> t.calls == maxAttempts)
  {
    if maxAttempts > 0 {
      DriveBehaviour(f, maxAttempts, delays, 0);
      var t := Drive(f, maxAttempts, delays, 0);
      forall j: nat | j < t.calls - 1 ensures Transient(f(j)) && t.sleeps[j] == delays(j).value {
        StopsIff(f, maxAttempts, j);
        assert delays(j) == Some(t.sleeps[j]);
      }
      StopsIff(f, maxAttempts, t.calls - 1);
    }
  }

  lemma {:induction false} DriveSleeps(f: nat -> Attempt, maxAttempts: nat, delays: nat -> Option<nat>,
                                       bases: nat -> nat, k: nat)
    requires k < maxAttempts
    requires forall j :: delays(j).Some? && 3 * bases(j) <= 4 * delays(j).value <= 5 * bases(j)
    ensures var t := Drive(f, maxAttempts, delays, k);
      3 * Series(bases, k, |t.sleeps|) <= 4 * SumNat(t.sleeps) <= 5 * Series(bases, k, |t.sleeps|)
    decreases maxAttempts - k
  {
    if !Stops(f, maxAttempts, k) {
      DriveSleeps(f, maxAttempts, delays, bases, k + 1);
      assert Drive(f, maxAttempts, delays, k).sleeps[1..] == Drive(f, maxAttempts, delays, k + 1).sleeps;
    }
  }

  ghost predicate DelaysInBand(initial: nat, delays: nat -> Option<nat>) {
    forall j :: delays(j).Some? && 3 * Base(initial, j) <= 4 * delays(j).value <= 5 * Base(initial, j)
  }

  function ShippedBackoff(build: Build, initial: nat): nat -> Option<nat> {
    (attempt: nat) => Backoff(build, initial, attempt)
  }

  /** The delays the queue really uses are all in the band exactly if each attempt's keeps it. */
  lemma ShippedDelaysIff(build: Build, initial: nat)
    ensures DelaysInBand(initial, ShippedBackoff(build, initial)) <==>
      forall j: nat :: KeepsBand(build, Base(initial, j), Percent(Hash(initial, j) as nat))
  {
    var delays := ShippedBackoff(build, initial);
    forall j: nat
      ensures delays(j).Some? && 3 * Base(initial, j) <= 4 * delays(j).value <= 5 * Base(initial, j)
         <==> KeepsBand(build, Base(initial, j), Percent(Hash(initial, j) as nat))
    {
      BackoffInBandIff(build, initial, j);
    }
  }

  /** That is so for initial delays of up to sixteen days, and in a release build of up to 412 days. */
  lemma ShippedDelays(build: Build, initial: nat)
    requires if build.Checked? then 25 * (256 * initial) < I64_LIMIT else 256 * initial + I64_LIMIT / 100 < I64_LIMIT
    ensures DelaysInBand(initial, ShippedBackoff(build, initial))
  {
    forall j: nat ensures KeepsBand(build, Base(initial, j), Percent(Hash(initial, j) as nat)) {
      BaseBound(initial, j);
      if build.Checked? {
        JitterBand(build, Base(initial, j), Hash(initial, j) as nat);
      } else {
        WrappedJitterBand(Base(initial, j));
      }
      BackoffInBandIff(build, initial, j);
    }
    ShippedDelaysIff(build, initial);
  }

  /**
   A submission with at least one attempt allowed: the closure runs at most `maxAttempts` times, the result
   is that of its last call, every earlier call failed retryably, and the total sleep is within a quarter
   of the exponential series.
   */
  lemma RetryBehaviour(f: nat -> Attempt, maxAttempts: nat, initial: nat, delays: nat -> Option<nat>)
    requires maxAttempts > 0 && DelaysInBand(initial, delays)
    ensures var t := Drive(f, maxAttempts, delays, 0);
      var series := Series(BaseSeries(initial), 0, |t.sleeps|);
      && 1 <= t.calls <= maxAttempts && |t.sleeps| == t.calls - 1
      && t.outcome == Some(f(t.calls - 1)) && Stops(f, maxAttempts, t.calls - 1)
      && (forall j: nat :: j < t.calls - 1 ==> f(j).Failure? && IsRetryable(f(j).error))
      && 3 * series <= 4 * SumNat(t.sleeps) <= 5 * series
  {
    DriveBehaviour(f, maxAttempts, delays, 0);
    DriveSleeps(f, maxAttempts, delays, BaseSeries(initial), 0);
    var t := Drive(f, maxAttempts, delays, 0);
    forall j: nat | j < t.calls - 1 ensures f(j).Failure? && IsRetryable(f(j).error) {
      assert !Stops(f, maxAttempts, j);
    }
    assert t.outcome == Some(f(t.calls - 1));
    assert Stops(f, maxAttempts, t.calls - 1);
    assert 3 * Series(BaseSeries(initial), 0, |t.sleeps|) <= 4 * SumNat(t.sleeps);
    assert 4 * SumNat(t.sleeps) <= 5 * Series(BaseSeries(initial), 0, |t.sleeps|);
  }

  lemma DefaultSleeps(f: nat -> Attempt, delays: nat -> Option<nat>)
    requires DelaysInBand(250_000_000, delays)
    ensures SumNat(Drive(f, 3, delays, 0).sleeps) <= 937_500_000
  {
    DriveBehaviour(f, 3, delays, 0);
    var bases := BaseSeries(250_000_000);
    DriveSleeps(f, 3, delays, bases, 0);
    assert bases(0) == 250_000_000 && bases(1) == 500_000_000 by {
      assert Pow2(0) == 1 && Pow2(1) == 2;
    }
    assert Series(bases, 1, 0) == 0 && Series(bases, 1, 1) == 500_000_000;
    assert Series(bases, 0, 1) == 250_000_000 && Series(bases, 0, 2) == 750_000_000;
  }

  /** With the shipped defaults (250 ms, three attempts) the sleeps stay below the 2 s watchdog, in both builds. */
  lemma DefaultSleepsFitWatchdog(build: Build, f: nat -> Attempt)
    ensures var t := Drive(f, 3, ShippedBackoff(build, 250_000_000), 0);
      t.outcome.Some? && SumNat(t.sleeps) <= 937_500_000 < 2_000_000_000
  {
    ShippedDelays(build, 250_000_000);
    DefaultSleeps(f, ShippedBackoff(build, 250_000_000));
    DriveBehaviour(f, 3, ShippedBackoff(build, 250_000_000), 0);
  }
}
