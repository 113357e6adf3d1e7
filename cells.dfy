/**
 * What the graders see of a spreadsheet: the values of row 1 of a named sheet,
 * the sheet's `max_column`, and Python's `==` on cell values.
 */
module Cells {
  import opened Wrappers

  /**
   * A non-empty cell value as the workbook reader hands it over with cached
   * formula results: text, an integer, a float (held exactly, as the real
   * number it denotes) or a boolean. An empty cell is `None` and is not a Value.
   */
  datatype Value =
    | Text(chars: string)
    | Int(i: int)
    | Float(x: real)
    | Bool(b: bool)

  /** The number Python compares a non-text value as: `True` is 1 and `False` is 0. */
  function Numeric(v: Value): real
  {
    match v
    case Text(_) => 0.0
    case Int(i) => i as real
    case Float(x) => x
    case Bool(b) => if b then 1.0 else 0.0
  }

  /**
   * Python's `==` on two cell values: text equals text with exactly the same
   * characters, never a number; numbers and booleans compare by value, so
   * `1 == 1.0 == True`.
   */
  predicate PyEq(a: Value, b: Value)
    ensures PyEq(a, b) ==> (a.Text? <==> b.Text?)
    ensures a.Text? && b.Text? ==> (PyEq(a, b) <==> a.chars == b.chars)
  {
    if a.Text? || b.Text? then a.Text? && b.Text? && a.chars == b.chars
    else Numeric(a) == Numeric(b)
  }

  /** `==` on cell values is an equivalence relation. */
  lemma PyEqIsEquivalence(a: Value, b: Value, c: Value)
    ensures PyEq(a, a)
    ensures PyEq(a, b) <==> PyEq(b, a)
    ensures PyEq(a, b) && PyEq(b, c) ==> PyEq(a, c)
  {
  }

  /** Text comparison is exact and case-sensitive, and text never equals a number or a boolean. */
  lemma TextComparison(x: string, y: string, v: Value)
    ensures PyEq(Text(x), Text(y)) <==> x == y
    ensures !v.Text? ==> !PyEq(Text(x), v) && !PyEq(v, Text(x))
    ensures !PyEq(Text("Y"), Text("y"))
    ensures !PyEq(Int(1), Text("1"))
  {
  }

  /** Equality is not type-sensitive between the numeric kinds: `1 == 1.0 == True`, `0 == False`. */
  lemma NumericKindsMix()
    ensures PyEq(Int(1), Float(1.0)) && PyEq(Float(1.0), Bool(true)) && PyEq(Int(0), Bool(false))
    ensures !PyEq(Int(2), Bool(true))
  {
  }

  /** A sheet as the scorer reads it: the reported `max_column` and the non-empty cells of row 1. */
  datatype SheetData = SheetData(maxColumn: nat, row1: map<nat, Value>)

  /** `max_column` bounds every non-empty cell: columns are numbered from 1 up to `maxColumn`. */
  type Sheet = s: SheetData | forall c :: c in s.row1 ==> 1 <= c <= s.maxColumn
    witness SheetData(1, map[])

  /** The value of the cell in row 1 at column `col`: `None` when empty, and so beyond `max_column`. */
  function Cell(s: Sheet, col: nat): (v: Option<Value>)
    ensures col == 0 || col > s.maxColumn ==> v.None?
    ensures v.Some? <==> col in s.row1
  {
    if col in s.row1 then Some(s.row1[col]) else None
  }

  /** A workbook, by sheet name (`sheetnames` and `wb[name]`). */
  type Workbook = map<string, Sheet>

  /** The outcome of opening a workbook file: its sheets, or the text of the exception raised. */
  datatype WorkbookLoad = Opened(book: Workbook) | Unreadable(reason: string)
}
