/**
 * Shared vocabulary for the models of the browser tools: an optional value, the
 * JavaScript `Math` helpers the tools use on exact reals, and the JavaScript
 * remainder operator, which truncates toward zero unlike Dafny's `%`.
 */
module Common {

  /** The conventional Some/None datatype, standing for a value or `null`/`undefined`. */
  datatype Option<+T> = None | Some(value: T)

  /** A loaded image's width or height in pixels. */
  type Dim = d: int | d > 0 witness 1

  /** The natural size of a loaded image. */
  datatype Size = Size(w: Dim, h: Dim)

  /** A JavaScript number that may have overflowed to an infinity by a division by zero. */
  datatype JsNum = Fin(v: real) | PosInf | NegInf

  /** `a / b` for a finite `a` and `b`, as JavaScript computes it; `0 / 0` (NaN) is excluded. */
  function JsDiv(a: real, b: real): (r: JsNum)
    requires a != 0.0 || b != 0.0
    ensures b != 0.0 ==> r == Fin(a / b)
    ensures b == 0.0 ==> (r.PosInf? <==> a > 0.0) && (r.NegInf? <==> a < 0.0)
  {
    if b != 0.0 then Fin(a / b) else if a > 0.0 then PosInf else NegInf
  }

  /** `Math.min` on two finite numbers. */
  function Min(a: real, b: real): (r: real)
    ensures r <= a && r <= b
    ensures r == a || r == b
  {
    if a <= b then a else b
  }

  /** `Math.max` on two finite numbers. */
  function Max(a: real, b: real): (r: real)
    ensures r >= a && r >= b
    ensures r == a || r == b
  {
    if a >= b then a else b
  }

  /** `Math.max(lo, Math.min(hi, x))`, the clamping idiom the tools use. */
  function Clamp(lo: real, hi: real, x: real): (r: real)
    requires lo <= hi
    ensures lo <= r <= hi
    ensures lo <= x <= hi ==> r == x
    ensures x < lo ==> r == lo
    ensures x > hi ==> r == hi
  {
    Max(lo, Min(hi, x))
  }

  /** The clamping idiom applied to a number that may be infinite. */
  function ClampJs(lo: real, hi: real, x: JsNum): (r: real)
    requires lo <= hi
    ensures lo <= r <= hi
    ensures x.PosInf? ==> r == hi
    ensures x.NegInf? ==> r == lo
    ensures x.Fin? ==> r == Clamp(lo, hi, x.v)
  {
    match x
    case Fin(v) => Clamp(lo, hi, v)
    case PosInf => hi
    case NegInf => lo
  }

  /** Dividing a non-negative number by a larger divisor gives a smaller quotient. */
  lemma DivAntitone(a: real, x: real, y: real)
    requires a >= 0.0 && x >= y > 0.0
    ensures a / x <= a / y
  {
    var q1 := a / x;
    var q2 := a / y;
    assert q1 * x == a && q2 * y == a;
    assert q1 * y <= q1 * x;
    assert (q1 - q2) * y <= 0.0;
  }

  /** `Math.abs`. */
  function Abs(x: real): (r: real)
    ensures r >= 0.0
    ensures r == x || r == -x
  {
    if x < 0.0 then -x else x
  }

  /** `Math.floor`. */
  function Floor(x: real): (r: int)
    ensures r as real <= x < r as real + 1.0
  {
    x.Floor
  }

  /** `Math.ceil`. */
  function Ceil(x: real): (r: int)
    ensures x <= r as real < x + 1.0
  {
    -((-x).Floor)
  }

  /** `Math.round`: the nearest integer, halves rounded toward +Infinity. */
  function Round(x: real): (r: int)
    ensures x - 0.5 < r as real <= x + 0.5
  {
    (x + 0.5).Floor
  }

  /** Truncation toward zero, as JavaScript's `%` uses it. */
  function Trunc(x: real): (r: int)
    ensures x >= 0.0 ==> r as real <= x < r as real + 1.0
    ensures x < 0.0 ==> r as real - 1.0 < x <= r as real
  {
    if x >= 0.0 then x.Floor else -((-x).Floor)
  }

  /** JavaScript's `a % b` on integers: the remainder takes the sign of `a`. */
  function JsRem(a: int, b: int): (r: int)
    requires b > 0
    ensures a >= 0 ==> r == a % b
    ensures a < 0 ==> -b < r <= 0
  {
    if a >= 0 then a % b else -((-a) % b)
  }

  /** JavaScript's `a % m` on reals for the two angle moduli the tools use. */
  function JsRemAngle(a: real, m: real): (r: real)
    requires m == 360.0 || m == 180.0
    ensures a >= 0.0 ==> 0.0 <= r < m
    ensures a < 0.0 ==> -m < r <= 0.0
  {
    a - m * Trunc(a / m) as real
  }

  /** `a` is a final segment of `b`. */
  predicate IsSuffix<T(==)>(a: seq<T>, b: seq<T>)
  {
    |a| <= |b| && a == b[|b| - |a|..]
  }

  /** True when `needle` occurs as a contiguous part of `s` (`String.prototype.includes`). */
  predicate Contains<T(==)>(s: seq<T>, needle: seq<T>)
  {
    exists i | 0 <= i <= |s| - |needle| :: OccursAt(s, needle, i)
  }

  /** True when `needle` occurs in `s` starting at index `i`. */
  predicate OccursAt<T(==)>(s: seq<T>, needle: seq<T>, i: int)
    requires 0 <= i <= |s| - |needle|
  {
    s[i..i + |needle|] == needle
  }

  /** `String.prototype.toLowerCase` restricted to the ASCII letters. */
  function LowerAscii(s: string): (r: string)
    ensures |r| == |s|
    ensures forall i | 0 <= i < |s| :: r[i] == LowerChar(s[i])
  {
    if s == [] then [] else [LowerChar(s[0])] + LowerAscii(s[1..])
  }

  /** The lower-case form of an ASCII capital letter; every other character is kept. */
  function LowerChar(c: char): (r: char)
    ensures 'A' <= c <= 'Z' ==> r as int == c as int + 32
    ensures !('A' <= c <= 'Z') ==> r == c
  {
    if 'A' <= c <= 'Z' then (c as int + 32) as char else c
  }
}
