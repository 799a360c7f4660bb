module Basics {

  /** How many values a 32-bit word has. */
  const WORD: nat := 0x1_0000_0000

  /** A value that may be missing: a NULL pointer or an unset register. */
  datatype Option<+T> = None | Some(value: T)

  predicate Distinct(s: seq<nat>) {
    forall i, j :: 0 <= i < j < |s| ==> s[i] != s[j]
  }
}
