/** The arithmetic of the timing engine: how many clock pulses a wait asks
    for, with the C integer conversions of a 32-bit target written out, how
    many milliseconds the threshold strategy sleeps, and the sequence of TCK
    levels that a run of clock pulses writes. */
module Timing {

  /** The C type uint32_t. */
  type Uint32 = x: int | 0 <= x < 0x1_0000_0000

  /** The C type long on the 32-bit ARM target: 32-bit two's complement. */
  type Int32 = x: int | -0x8000_0000 <= x < 0x8000_0000

  const Modulus32: int := 0x1_0000_0000

  /** The calibration constant as shipped: one pulse per microsecond. */
  const ShippedCyclesPerMicrosec: Int32 := 1

  /** Waits of at least this many microseconds sleep instead of pulsing
      (threshold strategy). */
  const SleepThreshold: Uint32 := 50

  /** An unsigned long (32-bit) value stored into a long: values from 2^31
      on wrap around to negative ones. */
  function ToLong(x: Uint32): (r: Int32)
    ensures r >= 0 <==> x < 0x8000_0000
    ensures r % Modulus32 == x
  {
    if x < 0x8000_0000 then x else x - Modulus32
  }

  /** `long tckCycles = microsec * tckCyclesPerMicrosec;` The uint32_t and the
      long operand are both converted to unsigned long, the product is taken
      modulo 2^32, and the result is stored into a long. */
  function TckCycles(microsec: Uint32, cyclesPerMicrosec: Int32): (r: Int32)
    ensures r % Modulus32 == (microsec * cyclesPerMicrosec) % Modulus32
    ensures r >= 0 <==> (microsec * cyclesPerMicrosec) % Modulus32 < 0x8000_0000
  {
    MulModRight(microsec, cyclesPerMicrosec);
    ToLong((microsec * (cyclesPerMicrosec % Modulus32)) % Modulus32)
  }

  /** Reducing a factor modulo 2^32 first does not change the product modulo
      2^32. */
  lemma MulModRight(a: int, b: int)
    ensures (a * (b % Modulus32)) % Modulus32 == (a * b) % Modulus32
  {
    var q := b / Modulus32;
    assert b == Modulus32 * q + b % Modulus32;
    assert a * b == a * (b % Modulus32) + Modulus32 * (a * q) by {
      assert a * (Modulus32 * q + b % Modulus32) == a * (Modulus32 * q) + a * (b % Modulus32);
    }
    AddMultipleMod(a * (b % Modulus32), a * q);
  }

  /** Adding a multiple of 2^32 does not change a value modulo 2^32. */
  lemma AddMultipleMod(x: int, y: int)
    ensures (x + Modulus32 * y) % Modulus32 == x % Modulus32
  {
  }

  /** The number of passes of `for (i = 0; i < tckCycles; ++i)`, that is the
      number of clock pulses the clock-driven wait issues: the low 32 bits of
      the product when they are below 2^31, and none otherwise. */
  function PulseCount(microsec: Uint32, cyclesPerMicrosec: Int32): (n: nat)
    ensures var low := (microsec * cyclesPerMicrosec) % Modulus32;
      n == if low < 0x8000_0000 then low else 0
  {
    var cycles := TckCycles(microsec, cyclesPerMicrosec);
    if cycles > 0 then cycles else 0
  }

  /** While the product stays below 2^31 the wait issues exactly
      `microsec * cyclesPerMicrosec` pulses; in particular none for zero. */
  lemma PulseCountExact(microsec: Uint32, cyclesPerMicrosec: Int32)
    requires 0 <= cyclesPerMicrosec
    requires microsec * cyclesPerMicrosec < 0x8000_0000
    ensures PulseCount(microsec, cyclesPerMicrosec) == microsec * cyclesPerMicrosec
  {
    var product := microsec * cyclesPerMicrosec;
    assert cyclesPerMicrosec % Modulus32 == cyclesPerMicrosec;
    assert 0 <= product;
    assert product % Modulus32 == product;
  }

  /** A product whose low 32 bits reach 2^31 becomes a negative long, and
      the loop then issues no pulse at all. */
  lemma PulseCountWraps(microsec: Uint32, cyclesPerMicrosec: Int32)
    requires 0 <= cyclesPerMicrosec
    requires (microsec * cyclesPerMicrosec) % Modulus32 >= 0x8000_0000
    ensures TckCycles(microsec, cyclesPerMicrosec) < 0
    ensures PulseCount(microsec, cyclesPerMicrosec) == 0
  {
    assert cyclesPerMicrosec % Modulus32 == cyclesPerMicrosec;
  }

  /** With the shipped constant a wait of `microsec` issues `microsec` pulses
      up to 2^31 - 1 microseconds, and none from 2^31 on. */
  lemma ShippedPulseCount(microsec: Uint32)
    ensures PulseCount(microsec, ShippedCyclesPerMicrosec) ==
      if microsec < 0x8000_0000 then microsec else 0
  {
    if microsec < 0x8000_0000 {
      PulseCountExact(microsec, ShippedCyclesPerMicrosec);
    } else {
      PulseCountWraps(microsec, ShippedCyclesPerMicrosec);
    }
  }

  /** `(microsec + 999L) / 1000L`, computed in unsigned long: the wait rounded
      up to whole milliseconds, unless the sum passes 2^32 - 1 and wraps. */
  function SleepMillis(microsec: Uint32): (ms: Uint32)
    ensures microsec <= Modulus32 - 1000 ==> (ms - 1) * 1000 < microsec <= ms * 1000
    ensures microsec > Modulus32 - 1000 ==> ms == 0
  {
    ((microsec + 999) % Modulus32) / 1000
  }

  /** Every wait that the threshold strategy turns into a sleep sleeps for at
      least one millisecond, as long as rounding up does not wrap. */
  lemma SleepAtLeastOneMilli(microsec: Uint32)
    requires SleepThreshold <= microsec <= Modulus32 - 1000
    ensures SleepMillis(microsec) >= 1
    ensures SleepMillis(microsec) * 1000 - microsec < 1000
  {
  }

  /** The TCK levels written by `n` clock pulses: low, high, low, high, ... */
  function PulseTrain(n: nat): (s: seq<bool>)
    ensures |s| == 2 * n
  {
    if n == 0 then [] else PulseTrain(n - 1) + [false, true]
  }

  /** Write number i of a pulse train is low when i is even, high when odd:
      the pulses strictly alternate and none is combined or left out. */
  lemma {:induction false} PulseTrainAt(n: nat, i: nat)
    requires i < 2 * n
    ensures PulseTrain(n)[i] == (i % 2 == 1)
  {
    if i < 2 * (n - 1) {
      PulseTrainAt(n - 1, i);
    }
  }

  /** The level of TCK after `writes`, starting from `level`. */
  function FinalLevel(level: bool, writes: seq<bool>): bool
  {
    if writes == [] then level else writes[|writes| - 1]
  }

  /** The number of writes in `writes` that take TCK from low to high,
      starting from `level`. */
  function RisingEdges(level: bool, writes: seq<bool>): nat
    decreases |writes|
  {
    if writes == [] then 0
    else (if writes[0] && !level then 1 else 0) + RisingEdges(writes[0], writes[1..])
  }

  /** Rising edges add up over consecutive runs of writes. */
  lemma {:induction false} RisingEdgesAppend(level: bool, first: seq<bool>, second: seq<bool>)
    ensures RisingEdges(level, first + second) ==
      RisingEdges(level, first) + RisingEdges(FinalLevel(level, first), second)
    decreases |first|
  {
    if first != [] {
      assert (first + second)[1..] == first[1..] + second;
      RisingEdgesAppend(first[0], first[1..], second);
      assert FinalLevel(first[0], first[1..]) == FinalLevel(level, first);
    } else {
      assert first + second == second;
    }
  }

  /** `n` clock pulses make exactly `n` rising edges, whatever the level of
      TCK before them, and leave TCK high when there was at least one. */
  lemma {:induction false} PulseTrainEdges(level: bool, n: nat)
    ensures RisingEdges(level, PulseTrain(n)) == n
    ensures FinalLevel(level, PulseTrain(n)) == (n > 0 || level)
  {
    if n > 0 {
      PulseTrainEdges(level, n - 1);
      RisingEdgesAppend(level, PulseTrain(n - 1), [false, true]);
      assert RisingEdges(FinalLevel(level, PulseTrain(n - 1)), [false, true]) == 1 by {
        assert [false, true][1..] == [true];
      }
    }
  }
}
