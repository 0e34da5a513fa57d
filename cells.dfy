/**
 * A spreadsheet cell value as the scripts see it after reading a row:
 * a Python object of one of a few types, with Python's truthiness and `str()`.
 */
module Cells {
  import opened Text

  /**
   * `Float` carries the float's `repr` text (how Python prints it); `DateTime`
   * carries the text `str()` gives; `Other` is any other object, with its
   * `str()` text and its truthiness.
   */
  datatype Cell =
    | Str(s: string)
    | Int(i: int)
    | Float(repr: string)
    | Bool(b: bool)
    | DateTime(text: string)
    | NoneCell
    | Other(text: string, truthy: bool)

  /** Python's `bool(value)`. */
  predicate Truthy(c: Cell)
  {
    match c
    case Str(s) => s != ""
    case Int(i) => i != 0
    case Float(repr) => repr != "0.0" && repr != "-0.0"
    case Bool(b) => b
    case DateTime(_) => true
    case NoneCell => false
    case Other(_, t) => t
  }

  /** Python's `str(value)`. */
  function CellText(c: Cell): string
  {
    match c
    case Str(s) => s
    case Int(i) => IntToString(i)
    case Float(repr) => repr
    case Bool(b) => if b then "True" else "False"
    case DateTime(text) => text
    case NoneCell => "None"
    case Other(text, _) => text
  }
}
