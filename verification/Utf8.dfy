/** The UTF-8 checker of the JSON printer (`check_utf8` of lib/json.cpp). */
module Utf8 {

  import opened BitBytes

  // ---------------------------------------------------------------------
  // RFC 3629

  /** Section 3: a character number outside the UTF-16 surrogates */
  predicate Scalar(u: bv32) { u < 0xd800 || 0xdfff < u <= 0x10_ffff }

  predicate Tail(c: byte) { c & 0xc0 == 0x80 }
  predicate Ascii(c: byte) { c & 0x80 == 0 }
  predicate LeadTwo(c: byte) { c & 0xe0 == 0xc0 }
  predicate LeadThree(c: byte) { c & 0xf0 == 0xe0 }
  predicate LeadFour(c: byte) { c & 0xf8 == 0xf0 }

  function Low6(u: bv32): byte { ((u & 0x3f) | 0x80) as byte }

  function High6(u: bv32): byte { Low6(u >> 6) }
  function Top6(u: bv32): byte { Low6(u >> 12) }

  function FirstOfTwo(u: bv32): byte { (((u >> 6) & 0x1f) | 0xc0) as byte }
  function FirstOfThree(u: bv32): byte { (((u >> 12) & 0x0f) | 0xe0) as byte }
  function FirstOfFour(u: bv32): byte { (((u >> 18) & 0x07) | 0xf0) as byte }

  predicate OneOctet(u: bv32) { u < 0x80 }
  predicate TwoOctets(u: bv32) { 0x80 <= u < 0x800 }
  predicate ThreeOctets(u: bv32) { 0x800 <= u < 0x1_0000 }

  /** Section 3: the octets of a character number */
  function Encode(u: bv32): (e: seq<byte>)
    requires Scalar(u)
    ensures 1 <= |e| <= 4
  {
    if OneOctet(u) then [u as byte]
    else if TwoOctets(u) then [FirstOfTwo(u), Low6(u)]
    else if ThreeOctets(u) then [FirstOfThree(u), High6(u), Low6(u)]
    else [FirstOfFour(u), Top6(u), High6(u), Low6(u)]
  }

  /** Section 4: UTF8-2, UTF8-3 and UTF8-4 */
  predicate Utf8Two(a: byte, b: byte) { 0xc2 <= a <= 0xdf && Tail(b) }

  predicate Utf8Three(a: byte, b: byte, c: byte) {
    && Tail(b) && Tail(c)
    && ((a == 0xe0 && 0xa0 <= b) || 0xe1 <= a <= 0xec || (a == 0xed && b <= 0x9f) || 0xee <= a <= 0xef)
  }

  predicate Utf8Four(a: byte, b: byte, c: byte, d: byte) {
    && Tail(b) && Tail(c) && Tail(d)
    && ((a == 0xf0 && 0x90 <= b) || 0xf1 <= a <= 0xf3 || (a == 0xf4 && b <= 0x8f))
  }

  /** The number of octets of the character at the front, zero if there is none */
  function CharSize(s: seq<byte>): (n: nat)
    ensures n <= 4 && n <= |s|
  {
    if |s| >= 1 && s[0] < 0x80 then 1
    else if |s| >= 2 && Utf8Two(s[0], s[1]) then 2
    else if |s| >= 3 && Utf8Three(s[0], s[1], s[2]) then 3
    else if |s| >= 4 && Utf8Four(s[0], s[1], s[2], s[3]) then 4
    else 0
  }

  /** Section 4: UTF8-octets = *( UTF8-char ) */
  predicate Octets(s: seq<byte>) {
    s == [] || (CharSize(s) > 0 && Octets(s[CharSize(s)..]))
  }

  /** Section 3: the concatenation of the encodings */
  function EncodeAll(us: seq<bv32>): seq<byte>
    requires forall i :: 0 <= i < |us| ==> Scalar(us[i])
  {
    if us == [] then [] else Encode(us[0]) + EncodeAll(us[1..])
  }

  // The two sections agree

  lemma OneMatches(u: bv32)
    requires OneOctet(u)
    ensures u as byte < 0x80
  {
  }

  lemma TwoMatches(u: bv32)
    requires TwoOctets(u)
    ensures FirstOfTwo(u) >= 0x80 && Utf8Two(FirstOfTwo(u), Low6(u))
  {
  }

  lemma ThreeMatches(u: bv32)
    requires ThreeOctets(u) && Scalar(u)
    ensures FirstOfThree(u) >= 0xe0 && Utf8Three(FirstOfThree(u), High6(u), Low6(u))
  {
  }

  lemma FourMatches(u: bv32)
    requires !OneOctet(u) && !TwoOctets(u) && !ThreeOctets(u) && Scalar(u)
    ensures FirstOfFour(u) >= 0xf0 && Utf8Four(FirstOfFour(u), Top6(u), High6(u), Low6(u))
  {
  }

  lemma EncodeSize(u: bv32, rest: seq<byte>)
    requires Scalar(u)
    ensures CharSize(Encode(u) + rest) == |Encode(u)|
  {
    hide Utf8Two, Utf8Three, Utf8Four, Low6, High6, Top6, FirstOfTwo, FirstOfThree, FirstOfFour;
    hide OneOctet, TwoOctets, ThreeOctets, Scalar;
    if OneOctet(u) {
      OneMatches(u);
    } else if TwoOctets(u) {
      TwoMatches(u);
    } else if ThreeOctets(u) {
      ThreeMatches(u);
      NotTwo(FirstOfThree(u), High6(u));
    } else {
      FourMatches(u);
      NotTwo(FirstOfFour(u), Top6(u));
      NotThree(FirstOfFour(u), Top6(u), High6(u));
    }
  }

  lemma NotTwo(a: byte, b: byte)
    requires a >= 0xe0
    ensures a >= 0x80 && !Utf8Two(a, b)
  {
  }

  lemma NotThree(a: byte, b: byte, c: byte)
    requires a >= 0xf0
    ensures !Utf8Three(a, b, c)
  {
  }

  /** Every concatenation of encodings matches the grammar. */
  lemma {:induction false} EncodedIsOctets(us: seq<bv32>)
    requires forall i :: 0 <= i < |us| ==> Scalar(us[i])
    ensures Octets(EncodeAll(us))
  {
    hide CharSize, Encode, Scalar;
    if us != [] {
      EncodedIsOctets(us[1..]);
      EncodeSize(us[0], EncodeAll(us[1..]));
      assert (Encode(us[0]) + EncodeAll(us[1..]))[|Encode(us[0])|..] == EncodeAll(us[1..]);
    }
  }

  /** `(c & mask) << shift` */
  function Bits(c: byte, mask: byte, shift: nat): bv32 {
    var x := (c & mask) as bv32;
    if shift == 0 then x else if shift == 6 then x << 6 else if shift == 12 then x << 12 else x << 18
  }

  function DecodeTwo(a: byte, b: byte): bv32 { Bits(a, 0x1f, 6) | Bits(b, 0x3f, 0) }

  function DecodeThree(a: byte, b: byte, c: byte): bv32 { Bits(a, 0x0f, 12) | Bits(b, 0x3f, 6) | Bits(c, 0x3f, 0) }

  function DecodeFour(a: byte, b: byte, c: byte, d: byte): bv32 {
    Bits(a, 0x07, 18) | Bits(b, 0x3f, 12) | Bits(c, 0x3f, 6) | Bits(d, 0x3f, 0)
  }

  /** The character number of the character at the front */
  function Decode(s: seq<byte>): bv32
    requires CharSize(s) > 0
  {
    var n := CharSize(s);
    if n == 1 then s[0] as bv32
    else if n == 2 then DecodeTwo(s[0], s[1])
    else if n == 3 then DecodeThree(s[0], s[1], s[2])
    else DecodeFour(s[0], s[1], s[2], s[3])
  }

  lemma OneRead(a: byte)
    requires a < 0x80
    ensures var u := a as bv32; OneOctet(u) && Scalar(u) && u as byte == a
  {
  }

  lemma TwoRead(a: byte, b: byte)
    requires Utf8Two(a, b)
    ensures var u := DecodeTwo(a, b);
      && TwoOctets(u) && !OneOctet(u) && Scalar(u)
      && FirstOfTwo(u) == a && Low6(u) == b
  {
  }

  lemma ThreeRead(a: byte, b: byte, c: byte)
    requires Utf8Three(a, b, c)
    ensures var u := DecodeThree(a, b, c);
      && ThreeOctets(u) && !OneOctet(u) && !TwoOctets(u) && Scalar(u)
      && FirstOfThree(u) == a && High6(u) == b && Low6(u) == c
  {
  }

  lemma FourRead(a: byte, b: byte, c: byte, d: byte)
    requires Utf8Four(a, b, c, d)
    ensures var u := DecodeFour(a, b, c, d);
      && !OneOctet(u) && !TwoOctets(u) && !ThreeOctets(u) && Scalar(u)
      && FirstOfFour(u) == a && Top6(u) == b && High6(u) == c && Low6(u) == d
  {
  }

  lemma DecodeEncode(s: seq<byte>)
    requires CharSize(s) > 0
    ensures Scalar(Decode(s)) && Encode(Decode(s)) == s[..CharSize(s)]
  {
    hide DecodeTwo, DecodeThree, DecodeFour, Scalar, Utf8Two, Utf8Three, Utf8Four;
    hide Low6, High6, Top6, FirstOfTwo, FirstOfThree, FirstOfFour, OneOctet, TwoOctets, ThreeOctets;
    var n := CharSize(s);
    if n == 1 {
      OneRead(s[0]);
    } else if n == 2 {
      TwoRead(s[0], s[1]);
    } else if n == 3 {
      ThreeRead(s[0], s[1], s[2]);
    } else {
      FourRead(s[0], s[1], s[2], s[3]);
    }
  }

  function DecodeAll(s: seq<byte>): (us: seq<bv32>)
    requires Octets(s)
  {
    if s == [] then [] else [Decode(s)] + DecodeAll(s[CharSize(s)..])
  }

  /** Everything that matches the grammar is a concatenation of encodings. */
  lemma {:induction false} OctetsAreEncoded(s: seq<byte>)
    requires Octets(s)
    ensures forall i :: 0 <= i < |DecodeAll(s)| ==> Scalar(DecodeAll(s)[i])
    ensures EncodeAll(DecodeAll(s)) == s
  {
    hide CharSize, Encode, Decode, Scalar;
    if s != [] {
      var n := CharSize(s);
      OctetsAreEncoded(s[n..]);
      DecodeEncode(s);
      assert DecodeAll(s)[1..] == DecodeAll(s[n..]);
      assert s == s[..n] + s[n..];
    }
  }

  // ---------------------------------------------------------------------
  // The checker

  /** The variables of the loop: what is missing of a character */
  datatype State = State(shift: nat, val: bv32, minval: bv32)

  function Combine(a: bv32, b: bv32): bv32 { a | b }

  /** What one byte does to the variables; nothing at an error */
  datatype Move = Error | To(s: State)

  predicate InRange(val: bv32, minval: bv32) {
    minval <= val <= 0x10_ffff && (val < 0x00_d800 || 0x00_dfff < val)
  }

  function Next(s: State, c: byte): Move {
    if Tail(c) then
      if s.shift < 6 then Error else
      var val := Combine(s.val, Bits(c, 0x3f, s.shift - 6));
      if s.shift == 6 && !InRange(val, s.minval) then Error else To(State(s.shift - 6, val, s.minval))
    else if s.shift > 0 then Error
    else if Ascii(c) then To(s)
    else if LeadTwo(c) then To(State(6, Bits(c, 0x1f, 6), 0x80))
    else if LeadThree(c) then To(State(12, Bits(c, 0x0f, 12), 0x800))
    else if LeadFour(c) then To(State(18, Bits(c, 0x07, 18), 0x1_0000))
    else Error
  }

  /** The index of the first error, or -1 */
  function Check(st: State, s: seq<byte>, i: nat): int
    requires i <= |s|
    decreases |s| - i
  {
    if i == |s| then (if st.shift > 0 then i else -1)
    else match Next(st, s[i])
      case Error => i
      case To(st') => Check(st', s, i + 1)
  }

  // ---------------------------------------------------------------------
  // The checker accepts exactly UTF-8

  lemma Classes(c: byte)
    ensures Ascii(c) <==> c < 0x80
    ensures Tail(c) || Ascii(c) || LeadTwo(c) ==> !LeadThree(c) && !LeadFour(c)
    ensures Tail(c) || Ascii(c) || LeadThree(c) || LeadFour(c) ==> !LeadTwo(c)
    ensures LeadThree(c) ==> !LeadFour(c)
    ensures Tail(c) ==> !Ascii(c) && !LeadTwo(c) && !LeadThree(c) && !LeadFour(c)
    ensures Ascii(c) ==> !Tail(c) && !LeadTwo(c) && !LeadThree(c) && !LeadFour(c)
  {
  }

  lemma TwoInRange(a: byte, b: byte)
    ensures Utf8Two(a, b) <==>
            LeadTwo(a) && Tail(b) && InRange(Combine(Bits(a, 0x1f, 6), Bits(b, 0x3f, 0)), 0x80)
  {
  }

  lemma ThreeInRange(a: byte, b: byte, c: byte)
    ensures Utf8Three(a, b, c) <==>
            && LeadThree(a) && Tail(b) && Tail(c)
            && InRange(Combine(Combine(Bits(a, 0x0f, 12), Bits(b, 0x3f, 6)), Bits(c, 0x3f, 0)), 0x800)
  {
  }

  lemma FourInRange(a: byte, b: byte, c: byte, d: byte)
    ensures Utf8Four(a, b, c, d) <==>
            && LeadFour(a) && Tail(b) && Tail(c) && Tail(d)
            && InRange(Combine(
                Combine(Combine(Bits(a, 0x07, 18), Bits(b, 0x3f, 12)), Bits(c, 0x3f, 6)), Bits(d, 0x3f, 0)), 0x1_0000)
  {
  }

  /** The variables after the octets of a character, if the check gets there */
  lemma TwoChecked(st: State, s: seq<byte>, i: nat) returns (st': State)
    requires i < |s| && st.shift == 0 && LeadTwo(s[i])
    ensures st'.shift == 0
    ensures if i + 2 <= |s| && Utf8Two(s[i], s[i + 1])
        then Check(st, s, i) == Check(st', s, i + 2) else Check(st, s, i) != -1
  {
    hide Tail, Ascii, LeadTwo, LeadThree, LeadFour, InRange, Combine, Bits, Utf8Two;
    Classes(s[i]);
    var st1 := State(6, Bits(s[i], 0x1f, 6), 0x80);
    st' := State(0, 0, 0);
    if i + 1 < |s| {
      TwoInRange(s[i], s[i + 1]);
      Classes(s[i + 1]);
      st' := State(0, Combine(st1.val, Bits(s[i + 1], 0x3f, 0)), 0x80);
    }
  }

  lemma ThreeChecked(st: State, s: seq<byte>, i: nat) returns (st': State)
    requires i < |s| && st.shift == 0 && LeadThree(s[i])
    ensures st'.shift == 0
    ensures if i + 3 <= |s| && Utf8Three(s[i], s[i + 1], s[i + 2]) then Check(st, s, i) == Check(st', s, i + 3)
            else Check(st, s, i) != -1
  {
    hide Tail, Ascii, LeadTwo, LeadThree, LeadFour, InRange, Combine, Bits, Utf8Three;
    Classes(s[i]);
    var st1 := State(12, Bits(s[i], 0x0f, 12), 0x800);
    st' := State(0, 0, 0);
    assert Check(st, s, i) == Check(st1, s, i + 1);
    if i + 1 < |s| && Tail(s[i + 1]) {
      var st2 := State(6, Combine(st1.val, Bits(s[i + 1], 0x3f, 6)), 0x800);
      assert Check(st1, s, i + 1) == Check(st2, s, i + 2);
      if i + 2 < |s| {
        ThreeInRange(s[i], s[i + 1], s[i + 2]);
        st' := State(0, Combine(st2.val, Bits(s[i + 2], 0x3f, 0)), 0x800);
      }
    } else if i + 2 < |s| {
      ThreeInRange(s[i], s[i + 1], s[i + 2]);
    }
  }

  lemma FourChecked(st: State, s: seq<byte>, i: nat) returns (st': State)
    requires i < |s| && st.shift == 0 && LeadFour(s[i])
    ensures st'.shift == 0
    ensures if i + 4 <= |s| && Utf8Four(s[i], s[i + 1], s[i + 2], s[i + 3]) then Check(st, s, i) == Check(st', s, i + 4)
            else Check(st, s, i) != -1
  {
    hide Tail, Ascii, LeadTwo, LeadThree, LeadFour, InRange, Combine, Bits, Utf8Four;
    Classes(s[i]);
    var st1 := State(18, Bits(s[i], 0x07, 18), 0x1_0000);
    st' := State(0, 0, 0);
    assert Check(st, s, i) == Check(st1, s, i + 1);
    if i + 3 < |s| {
      FourInRange(s[i], s[i + 1], s[i + 2], s[i + 3]);
    }
    if i + 1 < |s| && Tail(s[i + 1]) {
      var st2 := State(12, Combine(st1.val, Bits(s[i + 1], 0x3f, 12)), 0x1_0000);
      assert Check(st1, s, i + 1) == Check(st2, s, i + 2);
      if i + 2 < |s| && Tail(s[i + 2]) {
        var st3 := State(6, Combine(st2.val, Bits(s[i + 2], 0x3f, 6)), 0x1_0000);
        assert Check(st2, s, i + 2) == Check(st3, s, i + 3);
        if i + 3 < |s| {
          st' := State(0, Combine(st3.val, Bits(s[i + 3], 0x3f, 0)), 0x1_0000);
        }
      }
    }
  }

  lemma FrontSize(s: seq<byte>)
    requires s != []
    ensures Ascii(s[0]) ==> CharSize(s) == 1
    ensures Tail(s[0]) ==> CharSize(s) == 0
    ensures LeadTwo(s[0]) ==> CharSize(s) == if |s| >= 2 && Utf8Two(s[0], s[1]) then 2 else 0
    ensures LeadThree(s[0]) ==> CharSize(s) == if |s| >= 3 && Utf8Three(s[0], s[1], s[2]) then 3 else 0
    ensures LeadFour(s[0]) ==> CharSize(s) == if |s| >= 4 && Utf8Four(s[0], s[1], s[2], s[3]) then 4 else 0
    ensures !Ascii(s[0]) && !Tail(s[0]) && !LeadTwo(s[0]) && !LeadThree(s[0]) && !LeadFour(s[0]) ==> CharSize(s) == 0
  {
    hide Tail, Ascii, LeadTwo, LeadThree, LeadFour, InRange, Combine, Bits, Utf8Two, Utf8Three, Utf8Four;
    Classes(s[0]);
    if |s| >= 2 {
      TwoInRange(s[0], s[1]);
    }
    if |s| >= 3 {
      ThreeInRange(s[0], s[1], s[2]);
    }
    if |s| >= 4 {
      FourInRange(s[0], s[1], s[2], s[3]);
    }
  }

  lemma {:induction false} CheckFrom(st: State, s: seq<byte>, i: nat)
    requires i <= |s| && st.shift == 0
    ensures Check(st, s, i) == -1 <==> Octets(s[i..])
    decreases |s| - i
  {
    hide Tail, Ascii, LeadTwo, LeadThree, LeadFour, InRange, Combine, Bits, Utf8Two, Utf8Three, Utf8Four, CharSize;
    if i < |s| {
      var t := s[i..];
      FrontSize(t);
      Classes(s[i]);
      var n := CharSize(t);
      var st' := st;
      if LeadTwo(s[i]) {
        st' := TwoChecked(st, s, i);
      } else if LeadThree(s[i]) {
        st' := ThreeChecked(st, s, i);
      } else if LeadFour(s[i]) {
        st' := FourChecked(st, s, i);
      }
      if n > 0 {
        CheckFrom(st', s, i + n);
        assert t[n..] == s[i + n..];
      }
    }
  }

  /** `check_utf8` returns -1 exactly for concatenations of UTF-8 encodings. */
  lemma CheckIsUtf8(s: seq<byte>)
    ensures Check(State(0, 0, 0), s, 0) == -1 <==> Octets(s)
    ensures -1 <= Check(State(0, 0, 0), s, 0) <= |s|
  {
    CheckFrom(State(0, 0, 0), s, 0);
    assert s[0..] == s;
    CheckIndex(State(0, 0, 0), s, 0);
  }

  lemma {:induction false} CheckIndex(st: State, s: seq<byte>, i: nat)
    requires i <= |s|
    ensures Check(st, s, i) == -1 || i <= Check(st, s, i) <= |s|
    decreases |s| - i
  {
    hide Next;
    if i < |s| {
      match Next(st, s[i])
      case Error =>
      case To(st') => CheckIndex(st', s, i + 1);
    }
  }

  ghost predicate Encoded(us: seq<bv32>, s: seq<byte>) {
    (forall i :: 0 <= i < |us| ==> Scalar(us[i])) && EncodeAll(us) == s
  }

  /** Section 3 of RFC 3629 and the checker agree on every byte string. */
  lemma CheckMeansEncoded(s: seq<byte>)
    ensures Check(State(0, 0, 0), s, 0) == -1 <==> exists us :: Encoded(us, s)
  {
    hide Scalar, Check, Octets, EncodeAll, DecodeAll;
    CheckIsUtf8(s);
    if Octets(s) {
      OctetsAreEncoded(s);
      assert Encoded(DecodeAll(s), s);
    }
    if us :| Encoded(us, s) {
      EncodedIsOctets(us);
    }
  }

  method CheckUtf8(s: seq<byte>) returns (r: int)
    requires forall i :: 0 <= i < |s| ==> s[i] != 0
    ensures r == Check(State(0, 0, 0), s, 0)
    ensures r == -1 <==> Octets(s)
  {
    hide InRange, Bits, Tail, Ascii, LeadTwo, LeadThree, LeadFour, Combine, Octets;
    var shift: nat, val: bv32, minval: bv32 := 0, 0, 0;
    CheckIsUtf8(s);
    var i := 0;
    while i < |s|
      invariant i <= |s|
      invariant Check(State(shift, val, minval), s, i) == Check(State(0, 0, 0), s, 0)
    {
      var c := s[i];
      if Tail(c) {
        if shift < 6 {
          return i;
        }
        shift := shift - 6;
        val := Combine(val, Bits(c, 0x3f, shift));
        if shift == 0 && !InRange(val, minval) {
          return i;
        }
      } else if shift > 0 {
        return i;
      } else if Ascii(c) {
      } else if LeadTwo(c) {
        shift, val, minval := 6, Bits(c, 0x1f, 6), 0x80;
      } else if LeadThree(c) {
        shift, val, minval := 12, Bits(c, 0x0f, 12), 0x800;
      } else if LeadFour(c) {
        shift, val, minval := 18, Bits(c, 0x07, 18), 0x1_0000;
      } else {
        return i;
      }
      i := i + 1;
    }
    if shift > 0 {
      return i;
    }
    r := -1;
  }
}
