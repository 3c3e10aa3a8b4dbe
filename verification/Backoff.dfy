/** The retry delay: capped doubling with jitter, in saturating 64-bit arithmetic. */
module Backoff {
  import opened ByteStrings

  const INITIAL_DELAY_MS: nat := 500
  const MULTIPLIER: nat := 2
  const MAX_ATTEMPTS: nat := 5
  const CAP_MS: nat := 30_000

  function Pow(base: nat, exp: nat): nat {
    if exp == 0 then 1 else base * Pow(base, exp - 1)
  }

  function Saturate(n: nat): U64 {
    if n < U64_LIMIT then n else U64_LIMIT - 1
  }

  /** `nanos` is the sub-second clock reading the jitter is drawn from. */
  function ComputeBackoffMs(attempts: U8, nanos: nat): U64 {
    var exp := if attempts == 0 then 0 else attempts - 1;
    var base := Saturate(INITIAL_DELAY_MS * Saturate(Pow(MULTIPLIER, exp)));
    var capped := if base < CAP_MS then base else CAP_MS;
    var half := capped / 2;
    half + nanos % (if half > 1 then half else 1)
  }

  /** The delay before jitter, without any saturation: 500 ms doubled per attempt up to 30 s. */
  function Ceiling(attempts: nat): nat {
    var d := INITIAL_DELAY_MS * Pow(MULTIPLIER, if attempts == 0 then 0 else attempts - 1);
    if d < CAP_MS then d else CAP_MS
  }

  lemma PowValues()
    ensures Pow(2, 0) == 1 && Pow(2, 1) == 2 && Pow(2, 2) == 4 && Pow(2, 3) == 8
    ensures Pow(2, 4) == 16 && Pow(2, 5) == 32 && Pow(2, 6) == 64
  {
    assert Pow(2, 2) == 4;
    assert Pow(2, 4) == 16;
    assert Pow(2, 6) == 64;
  }

  lemma {:induction false} PowGrows(exp: nat)
    requires exp >= 6
    ensures Pow(2, exp) >= 64
  {
    if exp == 6 { PowValues(); } else { PowGrows(exp - 1); }
  }

  lemma CeilingValues(attempts: nat)
    ensures attempts <= 1 ==> Ceiling(attempts) == 500
    ensures attempts == 2 ==> Ceiling(attempts) == 1000
    ensures attempts == 3 ==> Ceiling(attempts) == 2000
    ensures attempts == 4 ==> Ceiling(attempts) == 4000
    ensures attempts == 5 ==> Ceiling(attempts) == 8000
    ensures attempts == 6 ==> Ceiling(attempts) == 16000
    ensures attempts >= 7 ==> Ceiling(attempts) == 30000
  {
    PowValues();
    if attempts >= 7 {
      PowGrows(attempts - 1);
    }
  }

  /** Saturation never shows: for every attempt count and clock the delay lies in the upper half
      below the ceiling, the ceiling itself excluded. */
  lemma BackoffRange(attempts: U8, nanos: nat)
    ensures Ceiling(attempts) / 2 <= ComputeBackoffMs(attempts, nanos) < Ceiling(attempts)
    ensures ComputeBackoffMs(attempts, nanos) == Ceiling(attempts) / 2 + nanos % (Ceiling(attempts) / 2)
  {
    CeilingValues(attempts);
    var exp := if attempts == 0 then 0 else attempts - 1;
    if Pow(2, exp) >= U64_LIMIT {
      assert exp >= 6 by {
        PowValues();
      }
    }
  }

  ghost predicate Longer(attempts: U8, nanos: nat, nextNanos: nat)
    requires attempts < 255
  {
    ComputeBackoffMs(attempts, nanos) < ComputeBackoffMs(attempts + 1, nextNanos)
  }

  /** Delays grow from one attempt to the next whatever the jitter exactly for attempts 1 to 5:
      after that the cap makes the ranges overlap, before it attempts 0 and 1 are alike. */
  lemma GrowthIff(attempts: U8)
    requires attempts < 255
    ensures (forall x: nat, y: nat :: Longer(attempts, x, y)) <==> 1 <= attempts <= 5
  {
    CeilingValues(attempts);
    CeilingValues(attempts + 1);
    if 1 <= attempts <= 5 {
      forall x: nat, y: nat ensures Longer(attempts, x, y) {
        BackoffRange(attempts, x);
        BackoffRange(attempts + 1, y);
      }
    } else {
      var x := Ceiling(attempts) / 2 - 1;
      BackoffRange(attempts, x);
      BackoffRange(attempts + 1, 0);
      assert !Longer(attempts, x, 0);
    }
  }

  /** An entry that fails every time waits between 3750 and 7496 ms in all. */
  lemma FourWaits(n1: nat, n2: nat, n3: nat, n4: nat)
    ensures 3750 <= ComputeBackoffMs(1, n1) + ComputeBackoffMs(2, n2) + ComputeBackoffMs(3, n3) + ComputeBackoffMs(4, n4) <= 7496
  {
    BackoffRange(1, n1);
    BackoffRange(2, n2);
    BackoffRange(3, n3);
    BackoffRange(4, n4);
    CeilingValues(1);
    CeilingValues(2);
    CeilingValues(3);
    CeilingValues(4);
  }
}
