/** Spreadsheet cells as pandas delivers them, and the Python conversions the
    generator applies to them. Numbers are kept in tenths, the finest step an
    address takes (a bit within a word). */
module Cells {
  import opened Wrappers
  import opened Strings

  /** A non-blank cell: an integer, a decimal number (in tenths) or text.
      A blank cell (NaN) is None wherever a column holds Option<Cell>. */
  datatype Cell = Integer(i: int) | Decimal(tenths: int) | Text(s: string)

  /** int(x) for x = t / 10: truncation toward zero, in whole units. */
  function TruncTenths(t: int): (w: int)
    ensures t >= 0 ==> 0 <= 10 * w <= t < 10 * w + 10
    ensures t < 0 ==> 10 * w - 10 < t <= 10 * w <= 0
  {
    if t >= 0 then t / 10 else -((-t) / 10)
  }

  /** int(cell): a blank cell or text that is not an integer raises ValueError. */
  function IntOf(c: Option<Cell>): (r: Result<int>)
    ensures c.Some? && c.value.Integer? ==> r == Success(c.value.i)
    ensures c.None? ==> r == Failure(ValueError)
  {
    match c
    case None => Failure(ValueError)
    case Some(Integer(i)) => Success(i)
    case Some(Decimal(t)) => Success(TruncTenths(t))
    case Some(Text(s)) =>
      match ParseInt(s)
      case Some(i) => Success(i)
      case None => Failure(ValueError)
  }

  /** shelf_base_addr + i * shelf_reg_size, in tenths: where shelf unit i starts. */
  function ShelfStart(shelfBase: int, regSize: int, i: int): int {
    10 * shelfBase + i * regSize
  }

  /** int(offset) for an offset cell (tenths, None when blank), in whole words. */
  function OffsetWords(o: Option<int>): Result<int> {
    match o
    case None => Failure(ValueError)
    case Some(t) => Success(TruncTenths(t))
  }

  /** The offset cell itself, in tenths, as `cursor += offset` and float(offset) use it. */
  function OffsetTenths(o: Option<int>): Result<int> {
    match o
    case None => Failure(ValueError)
    case Some(t) => Success(t)
  }

  /** The shelf count as range() accepts it: only an integer cell. */
  function ShelfCount(c: Option<Cell>): (r: Result<int>)
    ensures r.Success? <==> c.Some? && c.value.Integer?
  {
    match c
    case Some(Integer(i)) => Success(i)
    case _ => Failure(TypeError)
  }

  /** The register size as `i * shelf_reg_size` uses it, in tenths. */
  function RegisterTenths(c: Option<Cell>): (r: Result<int>)
    ensures r.Success? <==> c.Some? && !c.value.Text?
  {
    match c
    case Some(Integer(i)) => Success(10 * i)
    case Some(Decimal(t)) => Success(t)
    case Some(Text(_)) => Failure(TypeError)
    case None => Failure(ValueError)
  }
}
