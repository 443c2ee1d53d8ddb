/// Case-insensitive comparison of column names. StringComparer.OrdinalIgnoreCase
/// compares the invariant-culture upper-case forms of two strings; this model
/// upper-cases the ASCII letters only, which agrees with it on ASCII names.
module CaseFold {

  function UpperChar(c: char): (r: char)
    ensures 'a' <= c <= 'z' ==> r as int == c as int - 32
    ensures !('a' <= c <= 'z') ==> r == c
  {
    if 'a' <= c <= 'z' then (c as int - 32) as char else c
  }

  /** The key under which a name is looked up: its letters upper-cased. */
  function Fold(s: string): (r: string)
    ensures |r| == |s|
    ensures forall i :: 0 <= i < |s| ==> r[i] == UpperChar(s[i])
  {
    if s == [] then [] else [UpperChar(s[0])] + Fold(s[1..])
  }

  /** Two names are the same column name when their folds agree. */
  predicate EqualsIgnoreCase(a: string, b: string) {
    Fold(a) == Fold(b)
  }
}
