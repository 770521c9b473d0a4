/** The string operations the adapter relies on: `toUpperCase`, `startsWith` and the
    capitalisation of a raw API name. Upper-casing is restricted to ASCII letters. */
module Ascii {

  predicate IsLower(c: char)
  {
    'a' <= c <= 'z'
  }

  predicate IsUpper(c: char)
  {
    'A' <= c <= 'Z'
  }

  /** `Character.toUpperCase` on ASCII: a lower-case letter becomes its capital,
      every other character is kept. */
  function UpperChar(c: char): (r: char)
    ensures !IsLower(r)
    ensures IsLower(c) ==> IsUpper(r) && r as int - 'A' as int == c as int - 'a' as int
    ensures !IsLower(c) ==> r == c
  {
    if IsLower(c) then (c as int - 'a' as int + 'A' as int) as char else c
  }

  /** `String.toUpperCase`: the string upper-cased character by character. */
  function Upper(s: string): (r: string)
    ensures |r| == |s|
    ensures forall i :: 0 <= i < |s| ==> r[i] == UpperChar(s[i])
    ensures forall i :: 0 <= i < |r| ==> !IsLower(r[i])
  {
    if s == [] then [] else [UpperChar(s[0])] + Upper(s[1..])
  }

  /** `String.startsWith`: `prefix` is an initial segment of `s`. */
  predicate StartsWith(s: string, prefix: string)
  {
    |prefix| <= |s| && s[..|prefix|] == prefix
  }

  /** `name.substring(0, 1).toUpperCase() + name.substring(1)`. `substring(0, 1)` throws
      on the empty string, hence the precondition. */
  function Capitalize(name: string): (r: string)
    requires |name| > 0
    ensures |r| == |name|
    ensures !IsLower(r[0])
    ensures UpperChar(r[0]) == UpperChar(name[0])
    ensures r[1..] == name[1..]
  {
    [UpperChar(name[0])] + name[1..]
  }

  /** Upper-casing an upper-cased string changes nothing. */
  lemma UpperIdempotent(s: string)
    ensures Upper(Upper(s)) == Upper(s)
  {
  }

  /** Capitalising a name never changes which search terms it matches: once both sides
      are upper-cased, the display name and the raw name are the same string. */
  lemma UpperCapitalize(name: string)
    requires |name| > 0
    ensures Upper(Capitalize(name)) == Upper(name)
  {
  }

  /** Capitalising twice is the same as capitalising once. */
  lemma CapitalizeIdempotent(name: string)
    requires |name| > 0
    ensures Capitalize(Capitalize(name)) == Capitalize(name)
  {
  }

  /** Every string starts with the empty string, so after upper-casing an empty search term
      matches everything. */
  lemma EmptyTermMatchesAll(s: string)
    ensures StartsWith(Upper(s), Upper(""))
  {
  }
}
