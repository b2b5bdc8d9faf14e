/**
 * `Store::convert_sym_case`: symbol names are upper-cased with
 * `make_ascii_uppercase`, which changes only the letters `a`..`z`.
 */
module Ascii {

  predicate IsAsciiLower(c: char) {
    'a' <= c <= 'z'
  }

  /** `char::to_ascii_uppercase`. */
  function ToAsciiUpper(c: char): (u: char)
    ensures !IsAsciiLower(u)
    ensures IsAsciiLower(c) ==> u as int == c as int - 32
    ensures !IsAsciiLower(c) ==> u == c
  {
    if IsAsciiLower(c) then (c as int - 32) as char else c
  }

  /** `str::make_ascii_uppercase`, as `convert_sym_case` applies it to a symbol name. */
  function ConvertSymCase(s: string): (r: string)
    ensures |r| == |s|
    ensures forall i :: 0 <= i < |s| ==> r[i] == ToAsciiUpper(s[i])
  {
    if s == [] then [] else [ToAsciiUpper(s[0])] + ConvertSymCase(s[1..])
  }

  /** A converted name has no lower-case ASCII letter, and converting it again changes nothing. */
  lemma {:induction false} ConvertSymCaseIdempotent(s: string)
    ensures forall i :: 0 <= i < |s| ==> !IsAsciiLower(ConvertSymCase(s)[i])
    ensures ConvertSymCase(ConvertSymCase(s)) == ConvertSymCase(s)
  {
    var u := ConvertSymCase(s);
    assert forall i :: 0 <= i < |u| ==> ToAsciiUpper(u[i]) == u[i];
  }

  /** Names that differ only in the case of ASCII letters convert to the same name. */
  lemma ConvertSymCaseIgnoresCase(a: string, b: string)
    requires |a| == |b|
    requires forall i :: 0 <= i < |a| ==> ToAsciiUpper(a[i]) == ToAsciiUpper(b[i])
    ensures ConvertSymCase(a) == ConvertSymCase(b)
  {
  }

  /** `"nil"`, `"Nil"` and `"NIL"` all convert to `"NIL"`. */
  lemma NilSpellings()
    ensures ConvertSymCase("nil") == "NIL"
    ensures ConvertSymCase("Nil") == "NIL"
    ensures ConvertSymCase("NIL") == "NIL"
  {
  }
}
