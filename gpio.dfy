/** The GPIO register level beneath the JTAG signal driver: the word written
    to a port's BSRR (bit set/reset register) and what that write does to the
    port's pins. A set bit (low half) drives its pin high, a reset bit (high
    half) drives its pin low, and every other pin keeps its level. */
module Gpio {

  /** Identifies one GPIO port (GPIOA, GPIOB, ...). */
  type PortId = nat

  /** Index of a pin within its port; a port has sixteen pins. The index is
      kept as a 32-bit value because it is only ever used as a shift amount. */
  type PinIndex = k: bv32 | k < 16

  /** The C type uint8_t. */
  type Uint8 = x: int | 0 <= x < 0x100

  /** A physical output: a pin of a port. */
  datatype Line = Line(port: PortId, pin: PinIndex)

  /** The level each known output pin is driven to. */
  type Pins = map<Line, bool>

  /** Bit k of a 32-bit register word. */
  predicate Bit(w: bv32, k: bv32)
    requires k < 32
  {
    (w >> k) & 1 == 1
  }

  /** The word `1u << PIN` for a nonzero value, `1u << (PIN+16)` for zero. */
  function BsrrWord(pin: PinIndex, val: Uint8): (w: bv32)
    ensures Bit(w, if val != 0 then pin else pin + 16)
  {
    if val != 0 then 1 << pin else 1 << (pin + 16)
  }

  /** Bit k of the word setPort writes is on exactly at the pin index (in the
      low half) for a nonzero value, exactly at pin index + 16 (in the high
      half) for zero. */
  lemma BsrrWordBit(pin: PinIndex, val: Uint8, k: bv32)
    requires k < 32
    ensures Bit(BsrrWord(pin, val), k) <==> (val != 0 && k == pin) || (val == 0 && k == pin + 16)
  {
  }

  /** The pin levels after `w` is written to the BSRR of `port`: on that port
      a pin whose set bit is on goes high, else a pin whose reset bit is on
      goes low; every other pin keeps its level. */
  function ApplyBsrr(pins: Pins, port: PortId, w: bv32): (r: Pins)
    ensures r.Keys == pins.Keys
  {
    map l | l in pins ::
      if l.port == port && Bit(w, l.pin) then true
      else if l.port == port && Bit(w, l.pin + 16) then false
      else pins[l]
  }

  /** The BSRR write that setPort makes for `line` and `val` drives that line
      to `val != 0` and leaves every other pin, on its port or any other, at
      its level. */
  lemma BsrrWriteDrives(pins: Pins, line: Line, val: Uint8)
    requires line in pins
    ensures ApplyBsrr(pins, line.port, BsrrWord(line.pin, val)) == pins[line := val != 0]
  {
    var w := BsrrWord(line.pin, val);
    var after := ApplyBsrr(pins, line.port, w);
    forall l | l in pins
      ensures after[l] == pins[line := val != 0][l]
    {
      if l.port == line.port {
        BsrrWordBit(line.pin, val, l.pin);
        BsrrWordBit(line.pin, val, l.pin + 16);
      }
    }
    assert after.Keys == pins[line := val != 0].Keys;
  }
}
