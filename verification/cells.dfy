/**
  One cell of the survey table as pandas holds it after loading: missing (NaN), or a
  value. A value carries its text form, `str(value)`, and what `pd.to_numeric(value,
  errors='coerce')` makes of it (None where that gives NaN). Both are inputs here:
  number parsing and Python's float formatting are not part of this model.
 */
module Cells {
  import opened Optional
  import opened Text

  datatype Cell = Missing | Value(text: string, number: Option<real>)

  /** `astype(str)`: a missing cell becomes the text 'nan'. */
  function AsText(c: Cell): string {
    match c
    case Missing => "nan"
    case Value(text, _) => text
  }

  /** `fillna('').astype(str)`: a missing cell becomes the empty text. */
  function FilledText(c: Cell): string {
    match c
    case Missing => ""
    case Value(text, _) => text
  }

  /** `pd.to_numeric(cell, errors='coerce')`: None stands for NaN. */
  function Numeric(c: Cell): Option<real> {
    match c
    case Missing => None
    case Value(_, number) => number
  }

  /**
    The object-movement test: the cell is present and holds something other than
    whitespace. Any such text counts, '0' and 'ne' included.
   */
  predicate Observed(c: Cell) {
    c.Value? && !AllSpace(c.text)
  }

  /** Observed is the source's test `pd.notna(val) and str(val).strip() != ''`. */
  lemma ObservedIsSourceTest(c: Cell)
    ensures Observed(c) <==> !c.Missing? && Strip(AsText(c)) != ""
  {
  }

}
