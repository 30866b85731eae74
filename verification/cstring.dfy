/*
 * NUL-terminated strings: the bytes a C string denotes are those before its first NUL.
 */
module CString {
  /** The bytes of s before its first NUL byte (all of s when it holds none). */
  function BeforeNul(s: seq<bv8>): (r: seq<bv8>)
    ensures |r| <= |s| && r == s[..|r|]
    ensures forall i | 0 <= i < |r| :: r[i] != 0
    ensures |r| < |s| ==> s[|r|] == 0
  {
    if |s| == 0 || s[0] == 0 then [] else [s[0]] + BeforeNul(s[1..])
  }
}
