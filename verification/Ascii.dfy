/** The case of ASCII letters, in text kept as bytes. */
module Ascii {
  import opened Bytes

  const DASH: byte := 45

  predicate IsUpper(c: byte) { 65 <= c <= 90 }

  predicate IsLower(c: byte) { 97 <= c <= 122 }

  predicate IsDigit(c: byte) { 48 <= c <= 57 }

  /** `to_ascii_lowercase`. */
  function Lower(c: byte): byte {
    if IsUpper(c) then c + 32 else c
  }

  function LowerAll(s: seq<byte>): (t: seq<byte>)
    ensures |t| == |s| && forall i :: 0 <= i < |s| ==> t[i] == Lower(s[i])
  {
    seq(|s|, i requires 0 <= i < |s| => Lower(s[i]))
  }

  lemma {:induction false} LowerTwice(s: seq<byte>)
    ensures LowerAll(LowerAll(s)) == LowerAll(s)
  {
  }
}
