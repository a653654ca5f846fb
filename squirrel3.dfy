/** The Squirrel3 noise generator: a cursor `(seed, offset)` over a
    position-addressed hash. Every draw is a function of the cursor alone and
    moves the cursor one place on. */
module Noise {
  import opened Options
  import opened JsNumbers

  /** The three constants of the mixing schedule. */
  const BitNoise1: int := 0xB5297A4D
  const BitNoise2: int := 0x68E31DA4
  const BitNoise3: int := 0x1B56C4E9

  /** `maxValue`, `(1 << 31) * -1`: the int32 `1 << 31` is -2^31, so this
      is +2^31. */
  function MaxValue(): (r: int)
    ensures r == TwoPow31
  {
    Pow2Values();
    ShiftLeft(1, 31) * -1
  }

  /** The step `value ^= value >>> 8`. */
  function XorShiftRight8(v: int): (r: int)
    ensures IsInt32(r)
  {
    BitXor(v, UnsignedShiftRight(v, 8))
  }

  /** `value ^= value >>> 8` loses nothing: `UnxorShiftRight8` recovers the
      32-bit pattern it was applied to. */
  lemma XorShiftRight8Invertible(v: int)
    ensures UnxorShiftRight8(ToUint32(XorShiftRight8(v))) == ToUint32(v)
  {
    Pow2Values();
    var u := ToUint32(v);
    assert UnsignedShiftRight(v, 8) == u / 0x100;
    XorShiftRight8Inverse(u);
  }

  /** Hence two different 32-bit patterns stay different after
      `value ^= value >>> 8`; on signed 32-bit values, which are determined by
      their patterns, the step is injective. The values the schedule feeds to
      the step are wider; for them `XorShiftRight8Invertible` is the fact that
      applies. */
  lemma XorShiftRight8Injective(a: int, b: int)
    requires IsInt32(a) && IsInt32(b)
    requires XorShiftRight8(a) == XorShiftRight8(b)
    ensures a == b
  {
    XorShiftRight8Invertible(a);
    XorShiftRight8Invertible(b);
    Int32Pattern(a, b);
  }

  /** The step `value ^= value << 8`. */
  function XorShiftLeft8(v: int): (r: int)
    ensures IsInt32(r)
  {
    BitXor(v, ShiftLeft(v, 8))
  }

  /** The mixing schedule: the signed 32-bit value that `float` computes from
      `(seed, offset)` before normalising it. The multiplications and
      additions are double-precision operations on integer-valued Numbers;
      every xor step leaves a signed 32-bit integer. */
  function Mix(seed: int, offset: int): (v: int)
    ensures IsInt32(v)
  {
    var v1 := DoubleMul(offset, BitNoise1);   // value *= 0xB5297A4D
    var v2 := DoubleAdd(v1, seed);            // value += this.seed
    var v3 := XorShiftRight8(v2);             // value ^= value >>> 8
    var v4 := DoubleAdd(v3, BitNoise2);       // value += 0x68E31DA4
    var v5 := XorShiftLeft8(v4);              // value ^= value << 8
    var v6 := DoubleMul(v5, BitNoise3);       // value *= 0x1B56C4E9
    XorShiftRight8(v6)                        // value ^= value >>> 8
  }

  /** A real in [0, 1) that is a multiple of 2^-32. */
  predicate OnGrid(r: real)
  {
    0.0 <= r < 1.0 && (r * TwoPow32 as real).Floor as real == r * TwoPow32 as real
  }

  /** `((value / maxValue) + 1) / 2` for a signed 32-bit `value`: since
      `maxValue` is +2^31 this is `(value + 2^31) / 2^32`, a multiple of 2^-32
      in [0, 1). Every step is exact in double precision. */
  function Normalise(v: int): (r: real)
    requires IsInt32(v)
    ensures r == (v + TwoPow31) as real / TwoPow32 as real
    ensures OnGrid(r)
  {
    var r := ((v as real / MaxValue() as real) + 1.0) / 2.0;
    assert r * TwoPow32 as real == (v + TwoPow31) as real;
    r
  }

  /** The value `float` returns when the generator stands at `(seed, offset)`. */
  function Draw(seed: int, offset: int): (r: real)
    ensures OnGrid(r)
  {
    Normalise(Mix(seed, offset))
  }

  class Squirrel3 {
    var seed: int
    var offset: int

    /** `seed || Date.now()` and `offset || 0`: a missing or zero seed is
        replaced by the clock reading `now`; a missing offset becomes 0. */
    constructor (seed: Option<int>, offset: Option<int>, now: int)
      ensures seed.Some? && seed.value != 0 ==> this.seed == seed.value
      ensures seed.None? || seed.value == 0 ==> this.seed == now
      ensures this.offset == offset.GetOr(0)
    {
      this.seed := if seed.Some? && seed.value != 0 then seed.value else now;
      this.offset := if offset.Some? && offset.value != 0 then offset.value else 0;
    }

    /** Replaces the seed; the offset stays where it is. */
    method SetSeed(seed: int)
      modifies this`seed
      ensures this.seed == seed && offset == old(offset)
    {
      this.seed := seed;
    }

    /** Moves the cursor to `offset`; the seed stays as it is. */
    method SeekTo(offset: int)
      modifies this`offset
      ensures this.offset == offset && seed == old(seed)
    {
      this.offset := offset;
    }

    /** Draws the value at the cursor and advances the cursor by one. */
    method Float() returns (r: real)
      modifies this`offset
      ensures r == Draw(seed, old(offset)) && OnGrid(r)
      ensures offset == old(offset) + 1 && seed == old(seed)
    {
      var value := offset;
      value := DoubleMul(value, BitNoise1);
      value := DoubleAdd(value, seed);
      value := XorShiftRight8(value);
      value := DoubleAdd(value, BitNoise2);
      value := XorShiftLeft8(value);
      value := DoubleMul(value, BitNoise3);
      value := XorShiftRight8(value);
      offset := offset + 1;
      r := Normalise(value);
    }
  }

  /** Seeking back to where a draw was made and drawing again gives the same
      value: the draw depends on `(seed, offset)` and nothing else. */
  method ReplayDraw(g: Squirrel3) returns (first: real, again: real)
    modifies g
    ensures first == again == Draw(old(g.seed), old(g.offset))
    ensures g.seed == old(g.seed) && g.offset == old(g.offset) + 1
  {
    var start := g.offset;
    first := g.Float();
    g.SeekTo(start);
    again := g.Float();
  }
}
