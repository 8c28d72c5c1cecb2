/** What several modules share. */
module Wrappers {

  datatype Option<+T> = None | Some(value: T)
}

/** 64-bit numbers */
module Words {

  const U64: int := 0x1_0000_0000_0000_0000

  type u64 = x: int | 0 <= x < U64
}

/** Text in general */
module Text {

  predicate StartsWith(s: string, p: string) { |p| <= |s| && s[..|p|] == p }

  function HexDigit(x: nat): char
    requires x < 16
  {
    if x < 10 then '0' + x as char else 'a' + (x - 10) as char
  }
}

/** Bytes as numbers */
module Bytes {

  type byte = x: int | 0 <= x < 256

  function Zeros(n: nat): (z: seq<byte>)
    ensures |z| == n && forall i :: 0 <= i < n ==> z[i] == 0
  {
    if n == 0 then [] else Zeros(n - 1) + [0]
  }
}

/** Bytes as bit vectors, where the code shifts and combines bits */
module BitBytes {

  type byte = bv8

  function Zeros(n: nat): (z: seq<byte>)
    ensures |z| == n && forall i :: 0 <= i < n ==> z[i] == 0
  {
    if n == 0 then [] else Zeros(n - 1) + [0]
  }
}
