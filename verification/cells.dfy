/** Spreadsheet cell values and the two per-cell conversions the pipeline applies. */
module Cells {
  import opened Wrappers
  import opened Numerals

  /**
   One cell of a decoded spreadsheet: text, a number, or an empty cell
   (pandas' NaN).
   */
  datatype Cell = Text(s: string) | Number(x: real) | Blank

  /** String form of a cell, as `astype(str)` renders it; an empty cell renders as "nan". */
  function Show(c: Cell): (s: string)
    ensures c.Text? ==> s == c.s
    ensures c.Blank? ==> s == "nan"
    ensures c.Number? ==> HasDigit(s)
  {
    match c
    case Text(t) => t
    case Number(x) => NumberText(x)
    case Blank => "nan"
  }

  /**
   Numeric coercion with errors='coerce': numbers stay, text is parsed, and
   whatever does not parse (and an empty cell) becomes None.
   */
  function Coerce(c: Cell): (g: Option<real>)
    ensures c.Number? ==> g == Some(c.x)
    ensures c.Blank? ==> g == None
    ensures c.Text? && g.Some? ==> HasDigit(c.s) && NumeralAlphabet(c.s)
  {
    match c
    case Number(x) => Some(x)
    case Text(t) => ParseNumber(t)
    case Blank => None
  }

  /** An integer grade coerces to the same value whether the sheet stores it as a number or as its text. */
  lemma {:induction false} CoerceIntegerText(i: int)
    ensures Coerce(Text(Show(Number(i as real)))) == Coerce(Number(i as real))
  {
    NumberTextOfInteger(i);
    ParseIntText(i);
  }

  /** A letter grade such as "Α" coerces to None. */
  lemma {:induction false} LetterGradeIsNull()
    ensures Coerce(Text("Α")) == None
  {
    LetterIsNotNumber('Α');
  }
}
