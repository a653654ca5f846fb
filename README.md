# chanter-random: a Dafny model of the Squirrel3 noise cursor and the random source

This project models the core of chanter-random, a deterministic, seekable
random stream for procedural content.

- **Squirrel3** (`src/noise/Squirrel3.js`) is a cursor `(seed, offset)` over a
  position-addressed hash. `setSeed` and `seekTo` overwrite one field each.
  `float()` runs the mixing schedule on `(seed, offset)`, advances the offset
  by one, and normalises the signed 32-bit result into [0, 1).
- **RandomSource** (`src/RandomSource.js`) wraps a Squirrel3 basis. It adds a
  last-in-first-out stack of saved positions (`seekTo` pushes and jumps,
  `return` pops and restores) and derived draws: `bool`, `normal`, `integer`,
  `arrayIndex` and `arrayItem`. Each derived draw takes exactly one value
  from the basis.

Modules:

- `Options` (`options.dfy`): the optional argument (`None` is `undefined`).
- `JsNumbers` (`js_numbers.dfy`): JavaScript Number semantics on
  integer-valued Numbers. It gives ToInt32 and ToUint32, the operators `^`,
  `<<` and `>>>`, and the rounding of a double `*` or `+` to the nearest
  double, ties to even.
- `Noise` (`squirrel3.dfy`): the mixing schedule `Mix`, the normalisation,
  and the `Squirrel3` class with fields `seed` and `offset`.
- `Random` (`random_source.dfy`): the `RandomSource` class. It has a `const`
  basis and a `positionStack: seq<int>` whose top is its last element.

Where the code differs from the usual account of this generator, the model
follows the code:

- The multiplications and additions of the schedule (lines 47, 48, 50 and
  52 of `src/noise/Squirrel3.js`) are double-precision operations. They are
  not 32-bit wrapping ones. Line 52 multiplies a signed 32-bit value by
  0x1B56C4E9, and that product can exceed 2^53. So `DoubleMul` rounds the
  exact product to the nearest double before the following `>>>` and `^`
  read its low 32 bits. No claim is made that the output matches other
  Squirrel3 implementations.
- `maxValue` is `(1 << 31) * -1`, which is +2^31, not -2^31. The result of
  `float()` is therefore `(v + 2^31) / 2^32`. This value rises with the
  signed 32-bit `v`.
- `reseed` keeps the position stack. A later `return` restores a saved
  offset under the new seed.

## Model

| member | source | states |
|---|---|---|
| `JsNumbers.ToUint32` | src/noise/Squirrel3.js:49 | the value `>>>` works on: the unique value in [0, 2^32) congruent to the input modulo 2^32 |
| `JsNumbers.ToInt32` | src/noise/Squirrel3.js:49-53 | the value `^` and `<<` produce: the unique value in [-2^31, 2^31) congruent to the input modulo 2^32; signed 32-bit inputs are unchanged |
| `JsNumbers.Xor` | src/noise/Squirrel3.js:49-53 | the bitwise xor of two patterns is an addition without carries: it has the parity of the sum and never exceeds it |
| `JsNumbers.BitXor` | src/noise/Squirrel3.js:49-53 | `a ^ b` is a signed 32-bit integer whose 32-bit pattern is the bitwise xor of the operands' patterns |
| `JsNumbers.XorBound` | src/noise/Squirrel3.js:49-53 | the xor of two n-bit patterns is an n-bit pattern, so reading a 32-bit xor as int32 loses nothing |
| `JsNumbers.XorShiftRight8Inverse` | src/noise/Squirrel3.js:49 | `w ^ (w >>> 8) ^ (w >>> 16) ^ (w >>> 24)` undoes `w ^= w >>> 8` on every 32-bit pattern |
| `JsNumbers.ShiftLeft` | src/noise/Squirrel3.js:51 | `x << n` is a signed 32-bit integer whose 32-bit pattern is the operand's pattern times 2^n, reduced modulo 2^32 |
| `JsNumbers.UnsignedShiftRight` | src/noise/Squirrel3.js:49 | `x >>> n` is the quotient of the unsigned pattern by 2^n, rounded down |
| `JsNumbers.UlpExponent` | src/noise/Squirrel3.js:52 | the spacing 2^e of doubles around a magnitude m: e = 0 below 2^53, else 2^(52+e) <= m < 2^(53+e) |
| `JsNumbers.RoundToDouble` | src/noise/Squirrel3.js:47-52 | a double `*` or `+` gives a multiple of the double spacing at the exact result, within half a spacing of it, with ties going to an even significand |
| `JsNumbers.RoundToDoubleExact` | src/noise/Squirrel3.js:47-50 | an exact result no larger than MAX_SAFE_INTEGER in magnitude is not rounded |
| `JsNumbers.RoundToDoubleRelativeError` | src/RandomSource.js:102 | rounding moves a result by at most 2^-53 of its magnitude (used for `integer` in double precision) |
| `JsNumbers.DoubleMul` | src/noise/Squirrel3.js:47 | `a * b` is exact when the product is a safe integer |
| `JsNumbers.DoubleAdd` | src/noise/Squirrel3.js:48-50 | `a + b` is exact when the sum is a safe integer |
| `Noise.MaxValue` | src/noise/Squirrel3.js:1 | `(1 << 31) * -1` is +2^31, because `1 << 31` is the int32 -2^31 |
| `Noise.XorShiftRight8` | src/noise/Squirrel3.js:53 | after `value ^= value >>> 8` the working value is a signed 32-bit integer |
| `Noise.XorShiftRight8Invertible` | src/noise/Squirrel3.js:49 | the 32-bit pattern after `value ^= value >>> 8` determines the pattern before it |
| `Noise.XorShiftRight8Injective` | src/noise/Squirrel3.js:49 | `value ^= value >>> 8` is injective on 32-bit patterns, so on signed 32-bit values; the wider values the schedule feeds it are covered by `Noise.XorShiftRight8Invertible` |
| `Noise.XorShiftLeft8` | src/noise/Squirrel3.js:51 | after `value ^= value << 8` the working value is a signed 32-bit integer |
| `Noise.Mix` | src/noise/Squirrel3.js:44-53 | the mixing schedule from `(seed, offset)` ends in a signed 32-bit integer in [-2^31, 2^31) |
| `Noise.Normalise` | src/noise/Squirrel3.js:57 | `((v / maxValue) + 1) / 2` equals `(v + 2^31) / 2^32` for a signed 32-bit `v`, a multiple of 2^-32 in [0, 1) |
| `Noise.Draw` | src/noise/Squirrel3.js:38-57 | the value drawn at `(seed, offset)` is a multiple of 2^-32 in [0, 1) |
| `Noise.Squirrel3.constructor` | src/noise/Squirrel3.js:11-14 | a non-zero seed is kept, a missing or zero seed becomes the clock reading; the offset is the given one, or 0 if none is given |
| `Noise.Squirrel3.SetSeed` | src/noise/Squirrel3.js:22-24 | the seed is replaced and the offset is unchanged |
| `Noise.Squirrel3.SeekTo` | src/noise/Squirrel3.js:34-36 | the offset becomes exactly the argument and the seed is unchanged |
| `Noise.Squirrel3.Float` | src/noise/Squirrel3.js:44-58 | returns the draw determined by the pre-call `(seed, offset)` alone, in [0, 1) on the 2^-32 grid; the offset rises by exactly 1 and the seed is unchanged |
| `Noise.ReplayDraw` | src/noise/Squirrel3.js:26-36 | seeking back to an offset and drawing again repeats the earlier draw |
| `Random.Bounds` | src/RandomSource.js:94-100 | the lower bound is `alpha` only when both arguments are given, else 0; the upper bound is `beta` with both, `alpha` with one, MAX_SAFE_INTEGER with none |
| `Random.NormalSample` | src/RandomSource.js:81 | `mean + deviation * SQRT2 * invErf(2x - 1)` is the mean when the deviation is 0 or `invErf(2x - 1)` is 0 |
| `Random.NormalSampleMonotone` | src/RandomSource.js:79-82 | for a non-decreasing `invErf` and a deviation of at least 0, a larger draw never gives a smaller sample |
| `Random.RoundedScaleFromZero` | src/RandomSource.js:102 | in double precision, with lower bound 0 and any upper bound up to MAX_SAFE_INTEGER, every draw lands in [0, max) |
| `Random.RoundedScaleReachesMax` | src/RandomSource.js:102 | in double precision, `integer(2097152, 2097153)` with the draw `1 - 2^-32` returns the excluded 2097153, where exact arithmetic gives 2097152 |
| `Random.RoundedScale` | src/RandomSource.js:102 | `Math.floor(u * (max - min) + min)` in double precision for a draw `u = k / 2^32`: the width, the product and the sum are each rounded to the nearest double, on values scaled by 2^32, and the floor is the quotient by 2^32; its bounds are stated by `Random.RoundedScaleFromZero` and `Random.RoundedScaleReachesMax` |
| `Random.Scale` | src/RandomSource.js:102 | `Math.floor(u * (max - min) + min)` for u in [0, 1) lies in [min, max) when min < max, is min when they are equal, and lies in [max, min] when they are reversed |
| `Random.RandomSource.constructor` | src/RandomSource.js:13-16 | the given basis is kept, or a fresh generator is made with the clock seed at offset 0; the position stack starts empty |
| `Random.RandomSource.Reseed` | src/RandomSource.js:25-28 | seed becomes the argument and offset becomes 0; the stack is untouched |
| `Random.RandomSource.SeekTo` | src/RandomSource.js:40-43 | the pre-call offset is appended to the stack (one entry longer) and the offset becomes the argument; the seed is unchanged |
| `Random.RandomSource.Return` | src/RandomSource.js:51-55 | on an empty stack nothing changes; otherwise the last entry is removed and becomes the offset |
| `Random.RandomSource.Float` | src/RandomSource.js:60-62 | one basis draw; the offset advances by 1 |
| `Random.RandomSource.Bool` | src/RandomSource.js:70-72 | true exactly when the draw is below the odds (default 0.5); never true for odds <= 0, always true for odds >= 1; the offset advances by 1 |
| `Random.RandomSource.Normal` | src/RandomSource.js:79-82 | one draw x gives `mean + deviation * SQRT2 * invErf(2x - 1)` with defaults 0.5 and 1.0; the offset advances by 1 |
| `Random.RandomSource.Integer` | src/RandomSource.js:93-103 | one draw scaled into [0, MAX_SAFE_INTEGER), [0, alpha) or [alpha, beta) by argument count, with `beta` ignored without `alpha`; the result is inside any non-empty range; the offset advances by 1 |
| `Random.RandomSource.ArrayIndex` | src/RandomSource.js:111-113 | one draw gives an index in [0, length) of a non-empty sequence, and 0 for an empty one; the offset advances by 1 |
| `Random.RandomSource.ArrayItem` | src/RandomSource.js:121-123 | the element at the drawn index for a non-empty sequence, `undefined` for an empty one; the offset advances by 1 |
| `Random.SeekThenReturn` | src/RandomSource.js:40-55 | `seekTo(p)` then `return()` restores both the prior offset and the prior stack |
| `Random.DetourDraw` | src/RandomSource.js:40-62 | a draw after `seekTo(p)`, draw, `return()` is the draw at the pre-detour offset, not at p + 1 |

## Left out

- `src/math/invErf.js` is not part of this model. `normal` takes the inverse error function as the parameter `invErf`.
- Random.RandomSource.Normal: computes in exact reals; the double rounding of the JavaScript expression is not modelled. Nor are infinities: the draw 0 gives `invErf(-1)`, where `Math.log(0)` in `src/math/invErf.js` is `-Infinity`, so `normal` returns `-Infinity` for a positive deviation, `+Infinity` for a negative one, and `NaN` for a deviation of 0; a `real -> real` parameter cannot express that.
- Random.Scale: computes `u * (max - min) + min` in exact reals. JavaScript rounds this expression, and the rounded sum reaches the excluded upper bound once `|min|` is about 2^21 times the width `max - min` or more: `RoundedScaleReachesMax` shows `integer(2097152, 2097153)` returning 2097153 for the draw `1 - 2^-32`. `RoundedScale` models the rounded expression but is not what `Integer` returns.
- Random.RandomSource.Integer: its containment `ensures` (`lo <= r < hi`) holds in exact reals only. In JavaScript it can fail for ranges far from 0 as above. The forms with lower bound 0 (no argument, one argument, and so `arrayIndex`) keep the bound in double precision for every upper bound up to MAX_SAFE_INTEGER (2^53 - 1), as `RoundedScaleFromZero` proves.
- Noise.Squirrel3.Float: the offset increment is exact integer addition. JavaScript's `offset++` on a double stops advancing at 2^53.
- Seeds and offsets are integers. Non-integer, non-numeric and `NaN` seeds or offsets are not modelled. Nor are integers beyond 2^53 that no double holds, and products large enough to overflow to `Infinity`.
- `Date.now()` in the Squirrel3 constructor is the parameter `now`: clock input.
- The pluggable basis: any object with `setSeed`, `seekTo`, `float` and `offset` may serve in the source, but the model's basis is always a `Squirrel3`.
- JavaScript argument quirks: non-integer bounds for `integer` (`integer(2.5)` draws from {0, 1, 2}; the model takes `alpha` and `beta` as integers), `null` for `alpha`/`beta`, non-numeric odds, means or deviations, and strings passed to `arrayIndex`/`arrayItem` (any sequence is accepted instead).
- `require` / `module.exports` wiring.
