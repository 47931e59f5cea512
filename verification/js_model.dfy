/** The few JavaScript runtime values that the handlers and screens inspect. */
module JsModel {

  datatype Option<T> = None | Some(value: T)

  /** A JavaScript number. Finite values are exact reals: IEEE rounding is not modelled. */
  datatype JsNumber = Finite(value: real) | NaN | PosInfinity | NegInfinity

  /** `Math.floor(x)` when the result passes `Number.isFinite`; `None` stands for
      NaN and the two infinities, which `Math.floor` returns unchanged. */
  function FiniteFloor(x: JsNumber): (r: Option<int>)
    ensures r.Some? <==> x.Finite?
    ensures r.Some? ==> r.value as real <= x.value < r.value as real + 1.0
  {
    if x.Finite? then Some(x.value.Floor) else None
  }

  function Min(a: int, b: int): int {
    if a <= b then a else b
  }
}
