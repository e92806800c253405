/** Values read out of catalogue responses.  Floating-point numbers are
    modelled as exact reals plus NaN: rounding and infinities are not
    represented. */
module Photometry {
  import opened Optional

  /** A Python float: a finite value, or NaN (the `np.nan` default of a
      missing `Vmag` column, or a NaN read from a catalogue). */
  datatype Float = Finite(x: real) | NaN

  /** IEEE subtraction: NaN absorbs. */
  function Minus(a: Float, b: Float): (d: Float)
    ensures d.NaN? <==> a.NaN? || b.NaN?
    ensures d.Finite? ==> d.x + b.x == a.x
  {
    if a.NaN? || b.NaN? then NaN else Finite(a.x - b.x)
  }

  /** One cell of a catalogue row: a number, a null (Python `None`), or a
      value `float()` rejects (a masked or malformed entry). */
  datatype Cell = Num(value: Float) | Null | Bad

  /** A catalogue row: the columns it exposes and their cells.  A column
      name that is not a key is a column the row does not have. */
  type Row = map<string, Cell>

  /** `float(cell)`: `None` stands for the exception it raises. */
  function Parse(c: Cell): Option<Float>
  {
    match c
    case Num(v) => Some(v)
    case Null => None
    case Bad => None
  }

  /** The `(bv, ub, vmag)` tuple a probe returns; each part may be `None`. */
  datatype Sample = Sample(bv: Option<Float>, ub: Option<Float>, vmag: Option<Float>)
}
