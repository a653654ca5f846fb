/** A random source over a Squirrel3 basis: a stack of saved positions, and
    derived draws (boolean, normal, bounded integer, array index and item)
    that each take exactly one value from the basis. */
module Random {
  import opened Options
  import opened JsNumbers
  import opened Noise

  /** Default odds of `bool`. */
  const DefaultOdds: real := 0.5
  /** Default mean and deviation of `normal`. */
  const DefaultMean: real := 0.5
  const DefaultDeviation: real := 1.0
  /** `Math.SQRT2`, the double nearest to the square root of 2. */
  const Sqrt2: real := 6369051672525773.0 / 4503599627370496.0

  /** `Math.floor(u * (max - min) + min)` for a draw `u` in [0, 1): a value in
      [min, max) when the range is non-empty, `min` when it is empty, and a
      value between the two bounds when they are the wrong way round. */
  function Scale(u: real, min: int, max: int): (r: int)
    requires 0.0 <= u < 1.0
    ensures min < max ==> min <= r < max
    ensures min == max ==> r == min
    ensures max < min ==> max <= r <= min
  {
    var y := u * (max - min) as real + min as real;
    ScaledSum(u, min, max);
    assert y.Floor as real <= y < y.Floor as real + 1.0;
    y.Floor
  }

  /** `u * (max - min) + min` lies between the bounds, and below `max` when
      the range is non-empty. */
  lemma ScaledSum(u: real, min: int, max: int)
    requires 0.0 <= u < 1.0
    ensures var y := u * (max - min) as real + min as real;
      && (min < max ==> min as real <= y < max as real)
      && (min == max ==> y == min as real)
      && (max < min ==> max as real <= y <= min as real)
  {
    var w := (max - min) as real;
    ScaledDraw(u, w);
    assert w + min as real == max as real;
  }

  /** A draw in [0, 1) times a width lies between 0 and the width, and
      differs from the width unless the width is 0. */
  lemma ScaledDraw(u: real, w: real)
    requires 0.0 <= u < 1.0
    ensures 0.0 < w ==> 0.0 <= u * w < w
    ensures w <= 0.0 ==> w <= u * w <= 0.0
  {
    assert u * w - w == (u - 1.0) * w;
    if 0.0 < w {
      assert (u - 1.0) * w < 0.0;
    } else {
      assert (u - 1.0) * w >= 0.0;
    }
  }

  /** `mean + deviation * Math.SQRT2 * invErf((x * 2) - 1)`: the mean
      itself when the deviation is 0 or the draw maps to where `invErf`
      vanishes. */
  function NormalSample(x: real, mean: real, deviation: real, invErf: real -> real): (r: real)
    ensures deviation == 0.0 ==> r == mean
    ensures invErf(2.0 * x - 1.0) == 0.0 ==> r == mean
  {
    mean + deviation * Sqrt2 * invErf((x * 2.0) - 1.0)
  }

  /** For a non-decreasing `invErf` and a deviation of at least 0, a larger
      draw never gives a smaller sample. */
  lemma NormalSampleMonotone(x: real, y: real, mean: real, deviation: real, invErf: real -> real)
    requires x <= y && 0.0 <= deviation
    requires forall a, b :: a <= b ==> invErf(a) <= invErf(b)
    ensures NormalSample(x, mean, deviation, invErf) <= NormalSample(y, mean, deviation, invErf)
  {
    var gx, gy := invErf((x * 2.0) - 1.0), invErf((y * 2.0) - 1.0);
    assert gx <= gy;
    assert deviation * Sqrt2 * gy - deviation * Sqrt2 * gx == (deviation * Sqrt2) * (gy - gx);
  }

  /** The range `integer(alpha, beta)` draws from: [0, MAX_SAFE_INTEGER)
      without arguments, [0, alpha) with one, [alpha, beta) with two; a
      `beta` without an `alpha` is ignored. */
  function Bounds(alpha: Option<int>, beta: Option<int>): (r: (int, int))
    ensures r.0 == (if alpha.Some? && beta.Some? then alpha.value else 0)
    ensures alpha.Some? ==> r.1 == beta.GetOr(alpha.value)
    ensures alpha.None? ==> r.1 == MaxSafeInteger
  {
    match (alpha, beta)
    case (None, _) => (0, MaxSafeInteger)
    case (Some(a), None) => (0, a)
    case (Some(a), Some(b)) => (a, b)
  }

  /** `Math.floor(u * (max - min) + min)` in double precision, for a draw `u = k / 2^32` (every draw is
      one, see `Normalise`): the width `max - min`, the product `u * width`
      and the sum `... + min` are each rounded to the nearest double. Scaling
      by 2^32 commutes with that rounding, so the value is computed on the
      integers `k * width` and `... + min * 2^32`, and `Math.floor` of the
      sum is the quotient by 2^32. */
  function RoundedScale(k: nat, min: int, max: int): int
  {
    var width := DoubleAdd(max, -min);
    var product := RoundToDouble(k * width);
    var sum := RoundToDouble(product + min * TwoPow32);
    sum / TwoPow32
  }

  /** With a lower bound of 0 (`integer()`, `integer(alpha)` and so
      `arrayIndex`) the rounded result stays in [0, max) for every draw and
      every upper bound up to MAX_SAFE_INTEGER. */
  lemma RoundedScaleFromZero(k: nat, max: int)
    requires k < TwoPow32 && 0 < max <= MaxSafeInteger
    ensures 0 <= RoundedScale(k, 0, max) < max
  {
    assert DoubleAdd(max, -0) == max;
    var x := k * max;
    DrawTimesWidth(k, max);
    var p := RoundToDouble(x);
    RoundToDoubleRelativeError(x);
    RoundedUp(x, p);
    assert p + 0 * TwoPow32 == p;
    var s := RoundToDouble(p);
    RoundToDoubleRelativeError(p);
    RoundedUp(p, s);
    TwiceRoundedBelow(x, p, s, max);
    assert RoundedScale(k, 0, max) == s / TwoPow32;
  }

  lemma DrawTimesWidth(k: nat, max: int)
    requires k < TwoPow32 && 0 < max
    ensures 0 <= k * max <= (TwoPow32 - 1) * max
  {
    var d: nat := TwoPow32 - 1 - k;
    assert (TwoPow32 - 1) * max == k * max + d * max;
  }

  /** A rounding of a natural `x` within 2^-53 of it is a natural at most
      `x * (1 + 2^-53)`. */
  lemma RoundedUp(x: int, p: int)
    requires 0 <= x && Abs(p - x) * TwoPow53 <= Abs(x)
    ensures 0 <= p && p * TwoPow53 <= x * (TwoPow53 + 1)
  {
  }

  /** Two roundings of at most `(2^32 - 1) * max` stay below `2^32 * max`, so
      the quotient by 2^32 stays below `max`. */
  lemma TwiceRoundedBelow(x: int, p: int, s: int, max: int)
    requires 0 < max && 0 <= x <= (TwoPow32 - 1) * max
    requires 0 <= p && p * TwoPow53 <= x * (TwoPow53 + 1)
    requires 0 <= s && s * TwoPow53 <= p * (TwoPow53 + 1)
    ensures 0 <= s / TwoPow32 < max
  {
    assert s * TwoPow53 * TwoPow53 <= x * (TwoPow53 + 1) * (TwoPow53 + 1);
    assert s < TwoPow32 * max;
  }

  /** Far from 0 the rounding reaches the excluded upper bound:
      `integer(2097152, 2097153)` with the largest draw `1 - 2^-32` sums to
      `2^21 + 1 - 2^-32`, a tie between two doubles that goes to the even one,
      `2^21 + 1`; in exact arithmetic its floor is `2^21`. */
  lemma RoundedScaleReachesMax()
    ensures RoundedScale(TwoPow32 - 1, 0x20_0000, 0x20_0001) == 0x20_0001
    ensures Scale((TwoPow32 - 1) as real / TwoPow32 as real, 0x20_0000, 0x20_0001) == 0x20_0000
  {
    var m := TwoPow53 + TwoPow32 - 1;
    assert UlpExponent(m / 2) == 0;
    assert UlpExponent(m) == 1;
    assert RoundedQuotient(m, 2) == TwoPow53 / 2 + TwoPow31;
    assert RoundToDouble(m) == TwoPow53 + TwoPow32;
  }

  class RandomSource {
    const basis: Squirrel3
    var positionStack: seq<int>

    /** `basis || new Squirrel3()`: the given basis, or a new generator seeded
        with the clock reading `now` at offset 0; the stack starts empty. */
    constructor (basis: Squirrel3?, now: int)
      ensures basis != null ==> this.basis == basis
      ensures basis == null ==> fresh(this.basis) && this.basis.seed == now && this.basis.offset == 0
      ensures positionStack == []
    {
      if basis == null {
        this.basis := new Squirrel3(None, None, now);
      } else {
        this.basis := basis;
      }
      positionStack := [];
    }

    /** Sets the seed and rewinds the basis to position 0; the stack is kept. */
    method Reseed(seed: int)
      modifies basis
      ensures basis.seed == seed && basis.offset == 0
      ensures positionStack == old(positionStack)
    {
      basis.SetSeed(seed);
      basis.SeekTo(0);
    }

    /** Saves the current position on top of the stack and jumps to `position`. */
    method SeekTo(position: int)
      modifies this, basis
      ensures positionStack == old(positionStack) + [old(basis.offset)]
      ensures basis.offset == position && basis.seed == old(basis.seed)
    {
      positionStack := positionStack + [basis.offset];
      basis.SeekTo(position);
    }

    /** Pops the most recently saved position and moves the basis back to it;
        does nothing when no position is saved. */
    method Return()
      modifies this, basis
      ensures old(positionStack) == [] ==>
        positionStack == [] && basis.offset == old(basis.offset)
      ensures old(positionStack) != [] ==>
        positionStack == old(positionStack[..|positionStack| - 1]) &&
        basis.offset == old(positionStack[|positionStack| - 1])
      ensures basis.seed == old(basis.seed)
    {
      if |positionStack| < 1 {
        return;
      }
      var top := positionStack[|positionStack| - 1];
      positionStack := positionStack[..|positionStack| - 1];
      basis.SeekTo(top);
    }

    /** One draw from the basis. */
    method Float() returns (r: real)
      modifies basis
      ensures r == Draw(old(basis.seed), old(basis.offset)) && OnGrid(r)
      ensures basis.offset == old(basis.offset) + 1 && basis.seed == old(basis.seed)
    {
      r := basis.Float();
    }

    /** True with the given odds (0.5 by default): one draw, compared with
        the odds. Odds at or below 0 never give true; odds at or above 1
        always do. */
    method Bool(odds: Option<real>) returns (b: bool)
      modifies basis
      ensures b <==> Draw(old(basis.seed), old(basis.offset)) < odds.GetOr(DefaultOdds)
      ensures odds.GetOr(DefaultOdds) <= 0.0 ==> !b
      ensures 1.0 <= odds.GetOr(DefaultOdds) ==> b
      ensures basis.offset == old(basis.offset) + 1 && basis.seed == old(basis.seed)
    {
      var o := odds.GetOr(DefaultOdds);
      var x := basis.Float();
      b := x < o;
    }

    /** A sample of the normal approximation, `mean + deviation * SQRT2 *
        invErf(2x - 1)` for one draw `x`; the inverse error function is
        supplied by the caller. */
    method Normal(mean: Option<real>, deviation: Option<real>, invErf: real -> real) returns (n: real)
      modifies basis
      ensures n == NormalSample(Draw(old(basis.seed), old(basis.offset)),
        mean.GetOr(DefaultMean), deviation.GetOr(DefaultDeviation), invErf)
      ensures basis.offset == old(basis.offset) + 1 && basis.seed == old(basis.seed)
    {
      var m := mean.GetOr(DefaultMean);
      var d := deviation.GetOr(DefaultDeviation);
      var x := Float();
      n := NormalSample(x, m, d, invErf);
    }

    /** A random integer from one draw, in the range `Bounds(alpha, beta)`:
        the upper bound is excluded whenever the range is non-empty. */
    method Integer(alpha: Option<int>, beta: Option<int>) returns (r: int)
      modifies basis
      ensures var (lo, hi) := Bounds(alpha, beta);
        r == Scale(Draw(old(basis.seed), old(basis.offset)), lo, hi)
      ensures var (lo, hi) := Bounds(alpha, beta);
        lo < hi ==> lo <= r < hi
      ensures basis.offset == old(basis.offset) + 1 && basis.seed == old(basis.seed)
    {
      var min := 0;
      var max := MaxSafeInteger;
      if alpha.Some? {
        min := if beta.Some? then alpha.value else 0;
        max := if beta.Some? then beta.value else alpha.value;
      }
      var x := Float();
      r := Scale(x, min, max);
    }

    /** A random index into `ar`, from one draw: in [0, |ar|) when `ar` is not
        empty, and 0 when it is. */
    method ArrayIndex<T>(ar: seq<T>) returns (i: int)
      modifies basis
      ensures i == Scale(Draw(old(basis.seed), old(basis.offset)), 0, |ar|)
      ensures |ar| > 0 ==> 0 <= i < |ar|
      ensures |ar| == 0 ==> i == 0
      ensures basis.offset == old(basis.offset) + 1 && basis.seed == old(basis.seed)
    {
      i := Integer(Some(|ar|), None);
    }

    /** A random item of `ar`, the one at `ArrayIndex(ar)`, from one draw;
        `None` (JavaScript's `undefined`) when `ar` is empty. */
    method ArrayItem<T>(ar: seq<T>) returns (item: Option<T>)
      modifies basis
      ensures var i := Scale(Draw(old(basis.seed), old(basis.offset)), 0, |ar|);
        if |ar| > 0 then 0 <= i < |ar| && item == Some(ar[i]) else item == None
      ensures basis.offset == old(basis.offset) + 1 && basis.seed == old(basis.seed)
    {
      var i := ArrayIndex(ar);
      item := if 0 <= i < |ar| then Some(ar[i]) else None;
    }
  }

  /** `seekTo(p)` followed at once by `return()` puts back the position and
      the stack as they were, so later draws are the ones that would have
      come without the detour. */
  method SeekThenReturn(src: RandomSource, p: int)
    modifies src, src.basis
    ensures src.positionStack == old(src.positionStack)
    ensures src.basis.offset == old(src.basis.offset) && src.basis.seed == old(src.basis.seed)
  {
    src.SeekTo(p);
    src.Return();
  }

  /** A detour: save the position, draw at `p`, come back and draw again.
      The second draw is the one at the position before the detour, not at
      `p + 1`. */
  method DetourDraw(src: RandomSource, p: int) returns (away: real, back: real)
    modifies src, src.basis
    ensures away == Draw(old(src.basis.seed), p)
    ensures back == Draw(old(src.basis.seed), old(src.basis.offset))
    ensures src.positionStack == old(src.positionStack)
    ensures src.basis.offset == old(src.basis.offset) + 1 && src.basis.seed == old(src.basis.seed)
  {
    src.SeekTo(p);
    away := src.Float();
    src.Return();
    back := src.Float();
  }
}
