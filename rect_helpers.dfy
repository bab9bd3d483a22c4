/**
 * Shorthand constructors for a four-sided rectangle of layout values
 * (margins and paddings): every side, the horizontal pair, the vertical pair,
 * or a single side, with the remaining sides at their default.
 */
module RectHelpers {

  /** A layout length. The engine's default length is `Undefined`. */
  datatype Val = Undefined | Auto | Px(px: real) | Percent(percent: real)

  function DefaultVal(): Val {
    Undefined
  }

  datatype Rect = Rect(left: Val, right: Val, top: Val, bottom: Val)

  /** The default rectangle has every side at the default length. */
  function DefaultRect(): (r: Rect)
    ensures r.left == r.right == r.top == r.bottom == DefaultVal()
  {
    Rect(DefaultVal(), DefaultVal(), DefaultVal(), DefaultVal())
  }

  /** True when the sides not named in `set` are at their default. */
  predicate OthersDefault(r: Rect, left: bool, right: bool, top: bool, bottom: bool) {
    && (!left ==> r.left == DefaultVal())
    && (!right ==> r.right == DefaultVal())
    && (!top ==> r.top == DefaultVal())
    && (!bottom ==> r.bottom == DefaultVal())
  }

  function All(s: Val): (r: Rect)
    ensures r.left == s && r.right == s && r.top == s && r.bottom == s
  {
    Rect(s, s, s, s)
  }

  function X(x: Val): (r: Rect)
    ensures r.left == x && r.right == x
    ensures OthersDefault(r, true, true, false, false)
  {
    DefaultRect().(left := x, right := x)
  }

  function Y(y: Val): (r: Rect)
    ensures r.top == y && r.bottom == y
    ensures OthersDefault(r, false, false, true, true)
  {
    DefaultRect().(top := y, bottom := y)
  }

  function XY(x: Val, y: Val): (r: Rect)
    ensures r.left == x && r.right == x
    ensures r.top == y && r.bottom == y
  {
    Rect(x, x, y, y)
  }

  function Left(l: Val): (r: Rect)
    ensures r.left == l
    ensures OthersDefault(r, true, false, false, false)
  {
    DefaultRect().(left := l)
  }

  function Right(rt: Val): (r: Rect)
    ensures r.right == rt
    ensures OthersDefault(r, false, true, false, false)
  {
    DefaultRect().(right := rt)
  }

  function Top(t: Val): (r: Rect)
    ensures r.top == t
    ensures OthersDefault(r, false, false, true, false)
  {
    DefaultRect().(top := t)
  }

  function Bottom(b: Val): (r: Rect)
    ensures r.bottom == b
    ensures OthersDefault(r, false, false, false, true)
  {
    DefaultRect().(bottom := b)
  }

  /** The same length on both axes is the same as on every side. */
  lemma XYDiagonalIsAll(v: Val)
    ensures XY(v, v) == All(v)
  {
  }

  /** The pair helpers are the side helpers laid over each other. */
  lemma PairsAreSides(v: Val)
    ensures X(v) == Left(v).(right := Right(v).right)
    ensures Y(v) == Top(v).(bottom := Bottom(v).bottom)
    ensures XY(v, v) == X(v).(top := v, bottom := v)
  {
  }
}
