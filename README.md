# JTAG signal driver and clock-driven wait of xsvfduino (ports.cpp)

This project models the hardware layer under an XSVF player that drives JTAG
by bit-banging on an STM32:

- `setPort(p, val)` turns a JTAG signal code and a value into one write of
  `1u << PIN` (nonzero value) or `1u << (PIN+16)` (zero) to the BSRR (bit
  set/reset register) of the signal's GPIO port. TMS, TDI and TCK are the
  codes it handles. Any other code does nothing, since the `switch` has no
  `default`. TDO is one such code.
- `pulseClock()` is a TCK low write, then a TCK high write.
- `waitTime(microsec)` in its compiled strategy pulses TCK in a counted loop
  `microsec * tckCyclesPerMicrosec` times. The source keeps three more
  strategies compiled out, and two of them are modelled as well:
  - threshold: from 50 µs on, TCK low and one sleep of
    `(microsec + 999L) / 1000L` milliseconds; below 50 µs, one pulse per
    microsecond;
  - sleep only: TCK low and the same sleep.

  That sleep is the wait rounded up to whole milliseconds for waits up to
  2^32 - 1000 µs.

The files:

- `gpio.dfy` (module `Gpio`) models the BSRR word and what writing it does to
  a port's pins. A set bit drives its pin high, a reset bit drives it low, and
  every other pin, on that port or any other, keeps its level.
- `timing.dfy` (module `Timing`) holds the pure arithmetic of the wait:
  - the C conversions of a 32-bit ARM target, where `long` and `unsigned long`
    are 32 bits wide;
  - the rounded-up milliseconds of a sleep;
  - the train of TCK levels that a run of pulses writes, and its rising edges.
- `ports.dfy` (module `Ports`) holds the class `JtagPort`. Its state is:
  - the level of every known output pin;
  - the last word written to each port's BSRR;
  - the trace of levels written to TCK;
  - the trace of sleep requests.

  Its methods are `setPort`, `pulseClock` and the three `waitTime` strategies.
  Each states its whole new state. The pure lemmas say what that state means:
  exactly one rising edge per pulse, exact pulse counts, and pins left alone.

The wiring of the signals is a parameter, a `Binding`. It gives the code of
each signal (the labels of the `switch`) and the (port, pin) line of each
output. TMS, TDI and TCK may share a port but drive different pins. The
calibration constant `tckCyclesPerMicrosec` is a parameter as well: it must be
at least 1, and the shipped value 1 is `Timing.ShippedCyclesPerMicrosec`.

The model follows the code as written, including where the 32-bit
arithmetic falls short of the source's own comments:

- The threshold strategy sleeps from 50 µs on (`microsec >= 50L`,
  ports.cpp:120), so a 50 µs wait sleeps; `WaitTimeThreshold` does the same.
- The comment at ports.cpp:84-85 requires at least `microsec` TCK pulses.
  The clock-driven code issues none once `microsec * tckCyclesPerMicrosec`
  reaches 2^31 in its low 32 bits (ports.cpp:93, 101). The product is formed
  in 32-bit `unsigned long` arithmetic and stored into a 32-bit `long`, where
  it is negative. `Timing.PulseCount` models this exactly, and
  `Timing.PulseCountWraps` and `Timing.ShippedPulseCount` state it. With the
  shipped constant this needs a wait of more than 35 minutes.
- The comments at ports.cpp:81-82 and 126 ask for a sleep of the wait rounded
  up to milliseconds. For waits from 2^32 - 999 µs on, `microsec + 999L`
  wraps in 32-bit `unsigned long`, so the threshold and sleep-only
  strategies sleep 0 ms (ports.cpp:127, 147). `Timing.SleepMillis` states
  this.

## Model

| member | source | states |
|---|---|---|
| Gpio.BsrrWord | ports.cpp:49-57 | the word `1u << PIN` / `1u << (PIN+16)` has the pin's set bit on for a nonzero value and its reset bit for zero (that no other bit is on is BsrrWordBit) |
| Gpio.BsrrWordBit | ports.cpp:49 | the word setPort writes has exactly one bit on: the pin's set bit for a nonzero value, its reset bit (pin + 16) for zero |
| Gpio.ApplyBsrr | ports.cpp:49 | a BSRR write keeps the set of known pins (the register only drives pins of its own port) |
| Gpio.BsrrWriteDrives | ports.cpp:49-57 | writing setPort's word for a line and a value drives that line to `val != 0` and leaves every other pin, on the same port or another, at its level |
| Ports.Decode | ports.cpp:46-61 | the switch selects signal s exactly when p is the code of s, and selects nothing for every other code (no default) |
| Ports.DecodeTdo | ports.cpp:46-61 | the TDO code matches no case of the switch |
| Ports.JtagPort.WriteBsrr | ports.cpp:49 | `PORT->BSRR = word`: the register holds the word and the port's pins follow it |
| Ports.JtagPort.SetPort | ports.cpp:41-62 | a handled code drives its signal's line to `val != 0` with one BSRR write of `1u << PIN` or `1u << (PIN+16)`, changing no other pin and recording TCK writes; any other code changes nothing; the TCK trace stays consistent with the TCK pin |
| Ports.JtagPort.PulseClock | ports.cpp:66-70 | TCK is written low then high: exactly one rising edge, TCK ends high, TMS and TDI keep their levels |
| Ports.JtagPort.WaitTime | ports.cpp:89-104 | issues exactly `PulseCount(microsec, tckCyclesPerMicrosec)` pulses (that many low-high pairs and rising edges), requests no sleep, leaves TMS and TDI alone, and TCK ends high when there was a pulse |
| Ports.JtagPort.WaitTimeThreshold | ports.cpp:115-136 | from 50 µs on: one TCK low write, no rising edge, one sleep of `SleepMillis(microsec)` milliseconds (the wait rounded up, 0 from 2^32 - 999 µs on); below 50 µs: exactly `microsec` pulses and no sleep; TMS and TDI unchanged in both cases |
| Ports.JtagPort.WaitTimeSleep | ports.cpp:138-148 | one TCK low write, no rising edge, one sleep of `SleepMillis(microsec)` milliseconds (the wait rounded up, 0 from 2^32 - 999 µs on), TMS and TDI unchanged |
| Timing.ToLong | ports.cpp:93 | storing an unsigned long into a long keeps the value modulo 2^32 and gives a negative long exactly from 2^31 on |
| Timing.TckCycles | ports.cpp:93 | `tckCycles` agrees with the mathematical product `microsec * tckCyclesPerMicrosec` modulo 2^32, and is negative exactly when the product's low 32 bits reach 2^31 |
| Timing.PulseCount | ports.cpp:101-104 | the loop runs as many times as the low 32 bits of the product when they are below 2^31, and no time otherwise |
| Timing.PulseCountExact | ports.cpp:92-104 | while `microsec * tckCyclesPerMicrosec` stays below 2^31 the loop runs exactly that many times |
| Timing.PulseCountWraps | ports.cpp:93-101 | a product whose low 32 bits reach 2^31 makes `tckCycles` negative and the loop runs no time at all |
| Timing.ShippedPulseCount | ports.cpp:92-104 | with the shipped constant 1 the wait issues `microsec` pulses below 2^31 µs and none from there on |
| Timing.SleepMillis | ports.cpp:127 | `(microsec + 999L) / 1000L` is the ceiling of microsec / 1000 up to 2^32 - 1000 µs, and 0 above that, where the 32-bit sum wraps |
| Timing.SleepAtLeastOneMilli | ports.cpp:120-127 | every wait from 50 µs up to 2^32 - 1000 µs that the threshold strategy turns into a sleep sleeps at least 1 ms and less than 1 ms beyond the wait |
| Timing.PulseTrain | ports.cpp:101-104 | n pulses write 2n levels to TCK |
| Timing.PulseTrainAt | ports.cpp:66-70 | the levels a run of pulses writes strictly alternate low, high, starting low |
| Timing.RisingEdgesAppend | ports.cpp:101-104 | the rising edges of consecutive runs of TCK writes add up |
| Timing.PulseTrainEdges | ports.cpp:101-104 | n pulses make exactly n rising edges from any starting level and leave TCK high when n > 0 |

## Left out

- initPorts (ports.cpp:31-37) only sets pin modes, a hardware configuration with no state in this model; the model's pins are outputs from the start.
- DLY (ports.cpp:17-26), the settle delay after a TCK write, is a run of `nop`s and changes no state; it is not modelled.
- readByte (ports.cpp:75-78) calls `read_data()`, which is not part of this model.
- Reading TDO is not done in ports.cpp and is not part of this model.
- The timer-driven waitTime strategy (ports.cpp:107-113) depends on the `micros()` clock; it is not modelled.
- Real elapsed time is not modelled: a wait is its trace of TCK writes and sleep requests, and `_sleep`/`u_sleep` is recorded as a request in milliseconds.
- The STM32 GPIO registers other than BSRR (mode, output data, input data) are not modelled; the pin levels stand for the output data register.
- The pin and port constants of ports.h are not part of this model; they are the `Binding` parameter.
- The `#if` selection between strategies is not modelled: each strategy is its own method. The threshold block (ports.cpp:115-136) uses the loop counter `i` declared in the clock-driven block (ports.cpp:94), so it does not compile on its own, and enabled together with that block it would run after that block's pulses; WaitTimeThreshold models it as a standalone strategy with a counter of its own.
