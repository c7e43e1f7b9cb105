/**
 * .NET text: a string or a `char` sequence is made of UTF-16 code units, so
 * an index or a length counts code units, a character outside the Basic
 * Multilingual Plane takes two of them, and a lone surrogate is an ordinary
 * element.
 */
module Text {
  /** A UTF-16 code unit, the .NET `char`. */
  newtype CodeUnit = x: int | 0 <= x < 0x1_0000

  /** A .NET string: UTF-16 code units, well-formed or not. */
  type Utf16 = seq<CodeUnit>
}
