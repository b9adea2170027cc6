/** JavaScript values as the epidemic-curve scripts see them: spreadsheet
    cells with JavaScript truthiness and template-literal stringification,
    and JavaScript numbers restricted to the values the statistics can
    produce (a real, or NaN). */
module JsValues {
  import Strings

  /** One spreadsheet cell as delivered by the spreadsheet decoder:
      absent (`undefined`), text, an integral number, or a boolean. */
  datatype Cell = Missing | Text(s: string) | Int(n: int) | Bool(b: bool)

  /** A decoded row: column name to cell; an absent column reads as Missing. */
  type Row = map<string, Cell>

  function Get(row: Row, column: string): (c: Cell)
    ensures column !in row ==> c == Missing
    ensures column in row ==> c == row[column]
  {
    if column in row then row[column] else Missing
  }

  /** JavaScript truthiness: `undefined`, the empty string, 0 and `false`
      are falsy, every other cell is truthy. */
  predicate Truthy(c: Cell) {
    match c
    case Missing => false
    case Text(s) => s != ""
    case Int(n) => n != 0
    case Bool(b) => b
  }

  /** The text `${c}` produces for a cell. */
  function CellText(c: Cell): string {
    match c
    case Missing => "undefined"
    case Text(s) => s
    case Int(n) => Strings.IntToText(n)
    case Bool(b) => if b then "true" else "false"
  }

  /** A JavaScript number as far as the statistics need one: a finite
      value or NaN. NaN absorbs arithmetic and makes every comparison false. */
  datatype Number = NaN | Real(r: real)

  function Add(a: Number, b: Number): (c: Number)
    ensures c.Real? <==> a.Real? && b.Real?
    ensures c.Real? ==> c.r - a.r == b.r
  {
    if a.Real? && b.Real? then Real(a.r + b.r) else NaN
  }

  function Scale(k: real, a: Number): (c: Number)
    ensures c.Real? <==> a.Real?
    ensures c.Real? ==> c.r == k * a.r
  {
    if a.Real? then Real(k * a.r) else NaN
  }

  /** `a > b` on numbers: false whenever either side is NaN. */
  predicate Greater(a: Number, b: Number) {
    a.Real? && b.Real? && a.r > b.r
  }
}
