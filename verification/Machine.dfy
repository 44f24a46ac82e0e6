/** The fixed-width integers the order book is built on, and the narrowing that happens when a
    64-bit message quantity is added to, or taken from, a 32-bit atomic level. */
module Machine {
  const TWO_31: int := 0x8000_0000
  const TWO_32: int := 0x1_0000_0000
  const MAX_INT32: int := 0x7FFF_FFFF

  type uint32 = x: int | 0 <= x < 0x1_0000_0000
  type int32 = x: int | -0x8000_0000 <= x < 0x8000_0000
  type int64 = x: int | -0x8000_0000_0000_0000 <= x < 0x8000_0000_0000_0000

  /** Conversion to `uint32_t`: reduction modulo 2^32. */
  function ToUint32(x: int): uint32 {
    x % 0x1_0000_0000
  }

  /** Conversion to `int32_t`: the two's complement representative modulo 2^32. */
  function ToInt32(x: int): int32 {
    var u := x % 0x1_0000_0000;
    if u < 0x8000_0000 then u else u - 0x1_0000_0000
  }

  /** Quantities are either the machine's (`Wrapping`) or mathematical integers (`Exact`). */
  datatype Arithmetic = Exact | Wrapping {

    function Narrow(x: int): (r: int)
      ensures this == Wrapping ==> -TWO_31 <= r < TWO_31
    {
      if Exact? then x else ToInt32(x)
    }

    /** `qty += amount`: the argument is narrowed to the atomic's type, then the sum wraps. */
    function Plus(level: int, amount: int): (r: int)
      ensures this == Wrapping ==> -TWO_31 <= r < TWO_31
    {
      Narrow(level + Narrow(amount))
    }

    /** `qty -= amount`. */
    function Minus(level: int, amount: int): (r: int)
      ensures this == Wrapping ==> -TWO_31 <= r < TWO_31
    {
      Narrow(level - Narrow(amount))
    }
  }

  /** Remainders are unique. */
  lemma ModuloIs(x: int, k: int, r: int)
    requires x == k * 0x1_0000_0000 + r && 0 <= r < 0x1_0000_0000
    ensures x % 0x1_0000_0000 == r
  {
  }

  /** Both conversions are blind to multiples of 2^32. */
  lemma ConversionsShift(x: int, k: int)
    ensures ToUint32(x + k * 0x1_0000_0000) == ToUint32(x)
    ensures ToInt32(x + k * 0x1_0000_0000) == ToInt32(x)
  {
    ModuloIs(x + k * 0x1_0000_0000, x / 0x1_0000_0000 + k, x % 0x1_0000_0000);
  }

  /** Narrowing moves a value by a multiple of 2^32. */
  lemma NarrowingShifts(x: int) returns (k: int)
    ensures ToInt32(x) == x + k * 0x1_0000_0000
  {
    k := -(x / 0x1_0000_0000) - if x % 0x1_0000_0000 < 0x8000_0000 then 0 else 1;
  }

  lemma InRangeUnchanged(x: int)
    requires -TWO_31 <= x < TWO_31
    ensures ToInt32(x) == x
  {
    if x >= 0 { ModuloIs(x, 0, x); } else { ModuloIs(x, -1, x + 0x1_0000_0000); }
  }

  /** Two narrowings lose nothing as long as the final value fits in 32 bits, whatever the amount. */
  lemma NarrowingIsExact(a: Arithmetic, level: int, amount: int)
    ensures -TWO_31 <= level + amount < TWO_31 ==> a.Plus(level, amount) == level + amount
    ensures -TWO_31 <= level - amount < TWO_31 ==> a.Minus(level, amount) == level - amount
  {
    var k := NarrowingShifts(amount);
    ConversionsShift(level + amount, k);
    ConversionsShift(level - amount, -k);
    if -TWO_31 <= level + amount < TWO_31 { InRangeUnchanged(level + amount); }
    if -TWO_31 <= level - amount < TWO_31 { InRangeUnchanged(level - amount); }
  }

  /** Whatever the amount, the machine's result is the 32-bit number congruent to the true one. */
  lemma NarrowingWraps(level: int, amount: int) returns (up: int, down: int)
    ensures Wrapping.Plus(level, amount) == level + amount + up * 0x1_0000_0000
    ensures Wrapping.Minus(level, amount) == level - amount + down * 0x1_0000_0000
    ensures -TWO_31 <= Wrapping.Plus(level, amount) < TWO_31 && -TWO_31 <= Wrapping.Minus(level, amount) < TWO_31
  {
    var k := NarrowingShifts(amount);
    var j := NarrowingShifts(level + ToInt32(amount));
    var l := NarrowingShifts(level - ToInt32(amount));
    up, down := j + k, l - k;
  }
}
