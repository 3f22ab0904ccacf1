/** The JTAG signal driver and its clock-driven wait (ports.cpp): setPort
    turns a logical signal and a value into one BSRR write on the signal's
    port, pulseClock is a low then a high write of TCK, and waitTime issues
    clock pulses in a counted loop. Signals may share a port; each drives a
    pin of its own. */
module Ports {
  import opened Gpio
  import opened Timing

  datatype Option<T> = None | Some(value: T)

  /** The output signals that setPort drives. */
  datatype Signal = Tms | Tdi | Tck

  /** The fixed wiring of the JTAG signals: the code by which each signal is
      named to setPort (the labels of its switch) and, for the three outputs,
      the line it drives. */
  datatype Binding = Binding(
    tmsCode: Uint8, tdiCode: Uint8, tckCode: Uint8, tdoCode: Uint8,
    tms: Line, tdi: Line, tck: Line)

  /** Four different signal codes (a switch cannot repeat a label and TDO is
      a pin of its own) and three different output lines. */
  predicate ValidBinding(b: Binding)
  {
    b.tmsCode != b.tdiCode && b.tmsCode != b.tckCode && b.tdiCode != b.tckCode &&
    b.tdoCode != b.tmsCode && b.tdoCode != b.tdiCode && b.tdoCode != b.tckCode &&
    b.tms != b.tdi && b.tms != b.tck && b.tdi != b.tck
  }

  function Code(b: Binding, s: Signal): Uint8
  {
    match s
    case Tms => b.tmsCode
    case Tdi => b.tdiCode
    case Tck => b.tckCode
  }

  function LineOf(b: Binding, s: Signal): Line
  {
    match s
    case Tms => b.tms
    case Tdi => b.tdi
    case Tck => b.tck
  }

  /** The case of setPort's switch that `p` selects; None when `p` matches
      no case, since the switch has no default. */
  function Decode(b: Binding, p: Uint8): (r: Option<Signal>)
    requires ValidBinding(b)
    ensures forall s: Signal :: r == Some(s) <==> p == Code(b, s)
  {
    if p == b.tmsCode then Some(Tms)
    else if p == b.tdiCode then Some(Tdi)
    else if p == b.tckCode then Some(Tck)
    else None
  }

  /** TDO is an input: naming it to setPort selects no case. */
  lemma DecodeTdo(b: Binding)
    requires ValidBinding(b)
    ensures Decode(b, b.tdoCode) == None
  {
  }

  /** The JTAG pins of the board: the level of every known output pin, the
      last word written to each port's BSRR, every level written to TCK and,
      for the threshold strategy, every sleep request in milliseconds. */
  class JtagPort {
    const binding: Binding
    /** tckCyclesPerMicrosec: clock pulses issued per microsecond of wait. */
    const cyclesPerMicrosec: Int32
    var pins: Pins
    var bsrr: map<PortId, bv32>
    var tckWrites: seq<bool>
    var sleeps: seq<Uint32>

    /** The binding is valid, the calibration constant is at least 1 and the
        three output lines are known pins. */
    ghost predicate Valid()
      reads this
    {
      ValidBinding(binding) && 1 <= cyclesPerMicrosec &&
      binding.tms in pins && binding.tdi in pins && binding.tck in pins
    }

    /** The last level written to TCK is the level TCK is at. */
    ghost predicate TckTracked()
      reads this
      requires Valid()
    {
      tckWrites != [] ==> pins[binding.tck] == tckWrites[|tckWrites| - 1]
    }

    /** The level of an output signal. */
    ghost predicate Level(s: Signal)
      reads this
      requires Valid()
    {
      pins[LineOf(binding, s)]
    }

    constructor (b: Binding, k: Int32, initial: Pins)
      requires ValidBinding(b) && 1 <= k
      requires b.tms in initial && b.tdi in initial && b.tck in initial
      ensures Valid()
      ensures binding == b && cyclesPerMicrosec == k && pins == initial
      ensures bsrr == map[] && tckWrites == [] && sleeps == []
    {
      binding, cyclesPerMicrosec, pins := b, k, initial;
      bsrr, tckWrites, sleeps := map[], [], [];
    }

    /** `PORT->BSRR = word`: the register keeps the word and the port's pins
        follow it. */
    method WriteBsrr(port: PortId, word: bv32)
      modifies this`pins, this`bsrr
      ensures pins == ApplyBsrr(old(pins), port, word)
      ensures bsrr == old(bsrr)[port := word]
    {
      pins := ApplyBsrr(pins, port, word);
      bsrr := bsrr[port := word];
    }

    /** setPort(p, val): the signal named by `p` goes to `val != 0` through one
        BSRR write on its port, and no other pin changes. A code that names
        none of TMS, TDI and TCK (TDO, for one) changes nothing. */
    method SetPort(p: Uint8, val: Uint8)
      requires Valid()
      modifies this
      ensures Valid()
      ensures old(TckTracked()) ==> TckTracked()
      ensures match Decode(binding, p)
        case None =>
          pins == old(pins) && bsrr == old(bsrr) && tckWrites == old(tckWrites)
        case Some(s) =>
          pins == old(pins)[LineOf(binding, s) := val != 0] &&
          bsrr == old(bsrr)[LineOf(binding, s).port := BsrrWord(LineOf(binding, s).pin, val)] &&
          tckWrites == old(tckWrites) + (if s == Tck then [val != 0] else [])
      ensures sleeps == old(sleeps)
      ensures forall s: Signal ::
                Level(s) == (if Decode(binding, p) == Some(s) then val != 0 else old(Level(s)))
    {
      match Decode(binding, p)
      case None =>
      case Some(s) =>
        var line := LineOf(binding, s);
        BsrrWriteDrives(pins, line, val);
        WriteBsrr(line.port, BsrrWord(line.pin, val));
        if s == Tck {
          // The settle delay that follows changes no state.
          tckWrites := tckWrites + [val != 0];
        }
    }

    /** pulseClock(): TCK low, then TCK high, which is one rising edge. */
    method PulseClock()
      requires Valid()
      modifies this
      ensures Valid() && TckTracked()
      ensures tckWrites == old(tckWrites) + [false, true]
      ensures pins == old(pins)[binding.tck := true]
      ensures bsrr == old(bsrr)[binding.tck.port := BsrrWord(binding.tck.pin, 1)]
      ensures sleeps == old(sleeps)
      ensures Level(Tck) && Level(Tms) == old(Level(Tms)) && Level(Tdi) == old(Level(Tdi))
      ensures RisingEdges(old(Level(Tck)), tckWrites[|old(tckWrites)|..]) == 1
    {
      assert Decode(binding, binding.tckCode) == Some(Tck);
      SetPort(binding.tckCode, 0);
      SetPort(binding.tckCode, 1);
      assert tckWrites[|old(tckWrites)|..] == [false, true] == PulseTrain(1);
      PulseTrainEdges(old(Level(Tck)), 1);
    }

    /** The state after `n` clock pulses, compared with the state before:
        the TCK trace grew by `n` low-high pairs and, when there was a pulse,
        TCK is high and the last BSRR word on its port is the one that set it. */
    twostate predicate Pulsed(n: nat)
      requires old(Valid())
      reads this
    {
      tckWrites == old(tckWrites) + PulseTrain(n) &&
      pins == (if n == 0 then old(pins) else old(pins)[binding.tck := true]) &&
      bsrr == (if n == 0 then old(bsrr)
               else old(bsrr)[binding.tck.port := BsrrWord(binding.tck.pin, 1)])
    }

    /** waitTime(microsec), clock-driven strategy: exactly
        PulseCount(microsec, tckCyclesPerMicrosec) pulses, that is
        microsec * tckCyclesPerMicrosec while the product is below 2^31. */
    method WaitTime(microsec: Uint32)
      requires Valid()
      modifies this
      ensures Valid()
      ensures old(TckTracked()) ==> TckTracked()
      ensures Pulsed(PulseCount(microsec, cyclesPerMicrosec))
      ensures sleeps == old(sleeps)
      ensures RisingEdges(old(Level(Tck)), tckWrites[|old(tckWrites)|..]) ==
              PulseCount(microsec, cyclesPerMicrosec)
      ensures Level(Tms) == old(Level(Tms)) && Level(Tdi) == old(Level(Tdi))
      ensures Level(Tck) == (PulseCount(microsec, cyclesPerMicrosec) > 0 || old(Level(Tck)))
    {
      var tckCycles := TckCycles(microsec, cyclesPerMicrosec);
      ghost var n := PulseCount(microsec, cyclesPerMicrosec);
      assert n == if tckCycles > 0 then tckCycles else 0;
      var i: Int32 := 0;
      while i < tckCycles
        invariant 0 <= i <= n
        invariant Valid()
        invariant Pulsed(i)
        invariant i > 0 ==> TckTracked()
        invariant sleeps == old(sleeps)
      {
        PulseClock();
        i := i + 1;
      }
      assert tckWrites[|old(tckWrites)|..] == PulseTrain(i);
      PulseTrainEdges(old(Level(Tck)), i);
    }

    /** Alternate waitTime, compiled out in the source (threshold strategy):
        from 50 microseconds on, TCK is driven low and one sleep of the wait
        rounded up to milliseconds is requested, with no pulse; below 50,
        one pulse per microsecond. */
    method WaitTimeThreshold(microsec: Uint32)
      requires Valid()
      modifies this
      ensures Valid()
      ensures old(TckTracked()) ==> TckTracked()
      ensures microsec >= SleepThreshold ==>
        tckWrites == old(tckWrites) + [false] &&
        pins == old(pins)[binding.tck := false] &&
        bsrr == old(bsrr)[binding.tck.port := BsrrWord(binding.tck.pin, 0)] &&
        sleeps == old(sleeps) + [SleepMillis(microsec)]
      ensures microsec < SleepThreshold ==> Pulsed(microsec) && sleeps == old(sleeps)
      ensures RisingEdges(old(Level(Tck)), tckWrites[|old(tckWrites)|..]) ==
              if microsec >= SleepThreshold then 0 else microsec
      ensures Level(Tms) == old(Level(Tms)) && Level(Tdi) == old(Level(Tdi))
      ensures Level(Tck) == (microsec < SleepThreshold && (microsec > 0 || old(Level(Tck))))
    {
      if microsec >= SleepThreshold {
        assert Decode(binding, binding.tckCode) == Some(Tck);
        SetPort(binding.tckCode, 0);
        sleeps := sleeps + [SleepMillis(microsec)];
        assert tckWrites[|old(tckWrites)|..] == [false];
      } else {
        var i := 0;
        while i < microsec
          invariant 0 <= i <= microsec
          invariant Valid()
          invariant Pulsed(i)
          invariant i > 0 ==> TckTracked()
          invariant sleeps == old(sleeps)
        {
          PulseClock();
          i := i + 1;
        }
        assert tckWrites[|old(tckWrites)|..] == PulseTrain(i);
        PulseTrainEdges(old(Level(Tck)), i);
      }
    }

    /** Alternate waitTime, compiled out in the source (sleep-only strategy):
        whatever the wait, TCK is driven low and one sleep of the wait rounded
        up to milliseconds is requested; no pulse is issued. */
    method WaitTimeSleep(microsec: Uint32)
      requires Valid()
      modifies this
      ensures Valid() && TckTracked()
      ensures tckWrites == old(tckWrites) + [false]
      ensures pins == old(pins)[binding.tck := false]
      ensures bsrr == old(bsrr)[binding.tck.port := BsrrWord(binding.tck.pin, 0)]
      ensures sleeps == old(sleeps) + [SleepMillis(microsec)]
      ensures RisingEdges(old(Level(Tck)), tckWrites[|old(tckWrites)|..]) == 0
      ensures !Level(Tck) && Level(Tms) == old(Level(Tms)) && Level(Tdi) == old(Level(Tdi))
    {
      assert Decode(binding, binding.tckCode) == Some(Tck);
      SetPort(binding.tckCode, 0);
      sleeps := sleeps + [SleepMillis(microsec)];
      assert tckWrites[|old(tckWrites)|..] == [false];
    }
  }
}
