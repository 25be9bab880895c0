/**
 * Spreadsheet cells and the two cell functions of app.py: `limpar_valor`
 * (clean a value) and `valor_nao_nulo` (is the cleaned value non-empty).
 */
module Cells {
  import opened Text

  /**
   * A cell as the spreadsheet loader delivers it: missing (pandas NaN), a
   * string, or a number. A number is represented by the text Python's
   * `str()` gives it (for example "123.0" for an Excel float).
   */
  datatype Cell = Empty | Str(text: string) | Number(rendered: string)

  /** The string pandas' `astype(str)` gives a missing value. */
  const NullText := "nan"

  /** `str(v)`, and pandas `astype(str)`, of one cell. */
  function AsStr(c: Cell): string {
    match c
    case Empty => NullText
    case Str(s) => s
    case Number(r) => r
  }

  /** `limpar_valor` (app.py:12-15). */
  function Clean(c: Cell): string {
    if c.Empty? then "" else Strip(AsStr(c))
  }

  /**
   * What `limpar_valor` returns: "" exactly for a missing cell or one whose
   * string form is all whitespace; otherwise a slice of the string form with
   * only whitespace around it, neither beginning nor ending with whitespace.
   */
  lemma CleanSpec(c: Cell)
    ensures Clean(c) == "" <==> c.Empty? || AllSpace(AsStr(c))
    ensures Clean(c) == [] || (!IsSpace(Clean(c)[0]) && !IsSpace(Clean(c)[|Clean(c)| - 1]))
    ensures !c.Empty? ==> exists i :: 0 <= i <= |AsStr(c)| && Clean(c) <= AsStr(c)[i..]
                                 && AllSpace(AsStr(c)[..i]) && AllSpace(AsStr(c)[i + |Clean(c)|..])
  {
    if !c.Empty? {
      var s := AsStr(c);
      StripEmpty(s);
      StripSpec(s);
      var i := LeadingSpace(s);
      assert Strip(s) <= s[i..];
    }
  }

  /** Cleaning an already cleaned value returns it unchanged. */
  lemma CleanIdempotent(c: Cell)
    ensures Clean(Str(Clean(c))) == Clean(c)
  {
    StripIdempotent(AsStr(c));
  }

  /** `valor_nao_nulo` (app.py:18-19). */
  predicate IsPresent(c: Cell) {
    Clean(c) != ""
  }

  /** A cell is present exactly when it is not missing and its string form has a non-whitespace character. */
  lemma PresentSpec(c: Cell)
    ensures IsPresent(c) <==> !c.Empty? && exists k :: 0 <= k < |AsStr(c)| && !IsSpace(AsStr(c)[k])
  {
    CleanSpec(c);
  }

  /** A cleaned value is present exactly when it is not the empty string. */
  lemma PresentAfterClean(c: Cell)
    ensures IsPresent(Str(Clean(c))) <==> Clean(c) != ""
  {
    CleanIdempotent(c);
  }

  /** A cell of the identifier column after `apply(limpar_valor)`. */
  function CleanCell(c: Cell): Cell {
    Str(Clean(c))
  }

  /** A cell of the customer column after `astype(str)`. */
  function CoerceCell(c: Cell): Cell {
    Str(AsStr(c))
  }
}
