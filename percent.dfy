/**
 * Accuracy percentages, `Math.round(correct / total * 100)`, computed exactly
 * in integers. For a non-zero total the JavaScript value is the integer nearest
 * to `100 * correct / total`, with halves rounded towards +infinity; a zero
 * total gives `NaN` or an infinity.
 */
module Percent {
  import opened Wrappers
  import Text

  /** `Math.round(c / t * 100)` for `t != 0`: `floor(100c/t + 1/2)` = `floor((200c + t) / 2t)`. */
  function RoundPercent(c: int, t: int): int
    requires t != 0
  {
    if t > 0 then (200 * c + t) / (2 * t) else (-(200 * c + t)) / (-2 * t)
  }

  /** The result is the integer within a half of `100c/t`, halves going up. */
  lemma RoundPercentBounds(c: int, t: int)
    requires t != 0
    ensures var r := RoundPercent(c, t);
            (t > 0 ==> t * (2 * r - 1) <= 200 * c < t * (2 * r + 1))
            && (t < 0 ==> t * (2 * r + 1) < 200 * c <= t * (2 * r - 1))
  {
  }

  /** Multiplying by a positive number keeps an order. */
  lemma MulMono(t: int, a: int, b: int)
    requires t > 0 && a <= b
    ensures t * a <= t * b
  {
    assert t * b - t * a == t * (b - a);
  }

  /** Only one integer lies within a half of `100c/t`: the bounds above determine the result. */
  lemma RoundPercentUnique(c: int, t: int, r': int)
    requires t > 0
    requires t * (2 * r' - 1) <= 200 * c < t * (2 * r' + 1)
    ensures r' == RoundPercent(c, t)
  {
    var r := RoundPercent(c, t);
    RoundPercentBounds(c, t);
    if r' < r {
      MulMono(t, 2 * r' + 1, 2 * r - 1);
    } else if r' > r {
      MulMono(t, 2 * r + 1, 2 * r' - 1);
    }
  }

  /**
   * With `0 <= c <= t` (a valid record) the percentage lies in [0, 100]; all correct gives 100
   * and none correct gives 0 (199 of 200 also shows 100, since 99.5 rounds up).
   */
  lemma RoundPercentRange(c: int, t: int)
    requires 0 <= c <= t && t > 0
    ensures 0 <= RoundPercent(c, t) <= 100
    ensures c == t ==> RoundPercent(c, t) == 100
    ensures c == 0 ==> RoundPercent(c, t) == 0
  {
    var r := RoundPercent(c, t);
    RoundPercentBounds(c, t);
    if r < 0 {
      MulMono(t, 2 * r + 1, -1);
    }
    if r > 100 {
      MulMono(t, 201, 2 * r - 1);
    }
    if c == 0 && r > 0 {
      MulMono(t, 1, 2 * r - 1);
    }
    if c == 0 {
      RoundPercentUnique(c, t, 0);
    }
    if c == t {
      RoundPercentUnique(c, t, 100);
    }
  }

  /** Rounding is monotone: a larger ratio never gets a smaller percentage. */
  lemma RoundPercentMonotone(c1: int, t1: int, c2: int, t2: int)
    requires t1 > 0 && t2 > 0
    requires c1 * t2 <= c2 * t1
    ensures RoundPercent(c1, t1) <= RoundPercent(c2, t2)
  {
    var r1 := RoundPercent(c1, t1);
    var r2 := RoundPercent(c2, t2);
    RoundPercentBounds(c1, t1);
    RoundPercentBounds(c2, t2);
    if r1 > r2 {
      // 100 c1 / t1 >= r1 - 1/2 >= r2 + 1/2 > 100 c2 / t2
      MulMono(t2, t1 * (2 * r1 - 1), 200 * c1);
      MulMono(t1, 200 * c2 + 1, t2 * (2 * r2 + 1));
      MulMono(t1 * t2, 2 * r2 + 1, 2 * r1 - 1);
      MulMono(200, c1 * t2, c2 * t1);
      assert false;
    }
  }

  /** The cases the application's tests and screens show. */
  lemma RoundPercentExamples()
    ensures RoundPercent(7, 8) == 88 && RoundPercent(18, 20) == 90 && RoundPercent(5, 20) == 25
    ensures RoundPercent(1, 8) == 13 && RoundPercent(2, 3) == 67 && RoundPercent(1, 3) == 33
    ensures RoundPercent(199, 200) == 100
  {
  }

  /** A JavaScript number that `Math.round` can produce from a quotient. */
  datatype Number = Finite(value: int) | NaN | PosInf | NegInf

  /** `Math.round(c / t * 100)` for any integers, `NaN` and infinities included. */
  function Accuracy(c: int, t: int): (r: Number)
    ensures t != 0 <==> r.Finite?
    ensures t == 0 ==> (r == NaN <==> c == 0) && (r == PosInf <==> c > 0)
  {
    if t != 0 then Finite(RoundPercent(c, t))
    else if c == 0 then NaN
    else if c > 0 then PosInf
    else NegInf
  }

  /** The same with operands that may themselves be `NaN` (`None`), as `parseInt` yields. */
  function AccuracyOf(c: Option<int>, t: Option<int>): (r: Number)
    ensures (c.None? || t.None?) ==> r == NaN
    ensures c.Some? && t.Some? ==> r == Accuracy(c.value, t.value)
  {
    if c.Some? && t.Some? then Accuracy(c.value, t.value) else NaN
  }

  /** `String(x)` of such a number. */
  function NumberText(x: Number): (r: string)
    ensures r != []
  {
    match x
    case Finite(v) => Text.IntToString(v)
    case NaN => "NaN"
    case PosInf => "Infinity"
    case NegInf => "-Infinity"
  }

  /**
   * `c1 / t1 < c2 / t2` between two accuracies of valid records, by cross-multiplication
   * (both totals are positive, so the products keep the order of the quotients).
   */
  predicate RatioLess(c1: int, t1: int, c2: int, t2: int)
    requires t1 > 0 && t2 > 0
  {
    c1 * t2 < c2 * t1
  }
}
