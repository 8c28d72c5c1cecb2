/** Keys of JSON objects (`json::str2key` of lib/json.cpp). */
module JsonKey {

  predicate Digit(c: char) { '0' <= c <= '9' }
  predicate LowerCase(c: char) { 'a' <= c <= 'z' }
  predicate UpperCase(c: char) { 'A' <= c <= 'Z' }
  predicate Alnum(c: char) { Digit(c) || LowerCase(c) || UpperCase(c) }

  function Lower(c: char): char { if UpperCase(c) then c + ('a' - 'A') else c }

  // ---------------------------------------------------------------------
  // What a key means: the words of the name, joined by single underscores

  predicate InWord(s: string) { s != "" && Alnum(s[|s| - 1]) }

  /** The maximal runs of letters and digits, in lower case */
  function Words(s: string): (w: seq<string>)
    ensures InWord(s) ==> w != []
    ensures forall i :: 0 <= i < |w| ==> IsWord(w[i])
  {
    if s == "" then [] else
    var before, c := s[..|s| - 1], s[|s| - 1];
    var w := Words(before);
    if !Alnum(c) then w
    else if InWord(before) then w[..|w| - 1] + [w[|w| - 1] + [Lower(c)]]
    else w + [[Lower(c)]]
  }

  predicate IsWord(w: string) { w != "" && forall i :: 0 <= i < |w| ==> Digit(w[i]) || LowerCase(w[i]) }

  function Join(w: seq<string>): string {
    if w == [] then ""
    else if |w| == 1 then w[0]
    else Join(w[..|w| - 1]) + "_" + w[|w| - 1]
  }

  function Key(s: string): string { if Words(s) == [] then "_" else Join(Words(s)) }

  // ---------------------------------------------------------------------
  // The loop

  /** What the loop has stored after reading `s` */
  function Stored(s: string): string {
    Join(Words(s)) + if Words(s) != [] && !InWord(s) then "_" else ""
  }

  lemma JoinLast(w: seq<string>, x: string)
    ensures Join(w + [x]) == if w == [] then x else Join(w) + "_" + x
  {
    assert (w + [x])[..|w|] == w;
  }

  lemma JoinGrows(w: seq<string>, c: char)
    requires w != []
    ensures Join(w[..|w| - 1] + [w[|w| - 1] + [c]]) == Join(w) + [c]
  {
    JoinLast(w[..|w| - 1], w[|w| - 1] + [c]);
  }

  lemma {:induction false} JoinNonempty(w: seq<string>)
    requires w != [] && forall i :: 0 <= i < |w| ==> IsWord(w[i])
    ensures Join(w) != "" && Join(w)[|Join(w)| - 1] != '_' && Join(w)[0] != '_'
  {
    if |w| > 1 {
      JoinNonempty(w[..|w| - 1]);
    }
  }

  lemma StoredNext(s: string, c: char)
    ensures Stored(s + [c]) ==
            if Alnum(c) then Stored(s) + [Lower(c)]
            else if Stored(s) != "" && InWord(s) then Stored(s) + "_"
            else Stored(s)
  {
    assert (s + [c])[..|s|] == s;
    var w := Words(s);
    if Alnum(c) {
      if InWord(s) {
        JoinGrows(w, Lower(c));
      } else {
        JoinLast(w, [Lower(c)]);
      }
    } else if w != [] {
      JoinNonempty(w);
    }
  }

  /** The key is what the loop has stored, without an underscore at its end. */
  lemma KeyFromStored(s: string)
    ensures var b := Stored(s);
      Key(s) == if b == "" then "_" else if b[|b| - 1] == '_' then b[..|b| - 1] else b
    ensures InWord(s) ==> Stored(s) != ""
  {
    if Words(s) != [] {
      JoinNonempty(Words(s));
    }
  }

  /** A key is never longer than a non-empty name. */
  method Str2Key(str: string) returns (res: string)
    requires str != ""
    ensures res == Key(str)
    ensures |res| <= |str|
  {
    hide Stored, Key, Words;
    var prevUnderscore := false;
    var oInd := 0;
    var buf := new char[|str|](_ => ' ');
    assert Stored(str[..0]) == "" by {
      StoredNothing();
    }
    for i := 0 to |str|
      invariant oInd <= i && buf[..oInd] == Stored(str[..i])
      invariant prevUnderscore <==> oInd > 0 && !InWord(str[..i])
    {
      var c := str[i];
      assert str[..i + 1] == str[..i] + [c];
      StoredNext(str[..i], c);
      if Digit(c) || LowerCase(c) {
        buf[oInd] := c;
        oInd := oInd + 1;
        prevUnderscore := false;
      } else if UpperCase(c) {
        buf[oInd] := c + ('a' - 'A');
        oInd := oInd + 1;
        prevUnderscore := false;
      } else if oInd > 0 && !prevUnderscore {
        buf[oInd] := '_';
        oInd := oInd + 1;
        prevUnderscore := true;
      }
    }
    assert str[..|str|] == str;
    KeyFromStored(str);
    if oInd == 0 {
      buf[oInd] := '_';
      oInd := oInd + 1;
    } else if buf[oInd - 1] == '_' {
      oInd := oInd - 1;
    }
    res := buf[..oInd];
  }

  lemma StoredNothing()
    ensures Stored("") == ""
  {
  }

  // ---------------------------------------------------------------------
  // Keys

  /** No underscore at either end, none doubled. */
  predicate Tidy(k: string) {
    && (forall i :: 0 <= i < |k| ==> Digit(k[i]) || LowerCase(k[i]) || k[i] == '_')
    && k != "" && k[0] != '_' && k[|k| - 1] != '_'
    && forall i :: 0 < i < |k| ==> !(k[i - 1] == '_' && k[i] == '_')
  }

  lemma {:induction false} JoinTidy(w: seq<string>)
    requires w != [] && forall i :: 0 <= i < |w| ==> IsWord(w[i])
    ensures Tidy(Join(w))
  {
    if |w| > 1 {
      JoinTidy(w[..|w| - 1]);
    }
  }

  /** Every key is tidy, or the single underscore of a name without letters and digits. */
  lemma KeyTidy(s: string)
    ensures Tidy(Key(s)) || (Key(s) == "_" && Words(s) == [])
  {
    if Words(s) != [] {
      JoinTidy(Words(s));
    }
  }

  lemma WordsNext(s: string, c: char)
    ensures Words(s + [c]) ==
            if !Alnum(c) then Words(s)
            else if InWord(s) then Words(s)[..|Words(s)| - 1] + [Words(s)[|Words(s)| - 1] + [Lower(c)]]
            else Words(s) + [[Lower(c)]]
    ensures InWord(s + [c]) == Alnum(c)
  {
    hide Alnum, Lower;
    assert (s + [c])[..|s|] == s;
  }

  lemma WordLetter(w: string)
    requires w != "" && IsWord(w)
    ensures Alnum(w[|w| - 1]) && Lower(w[|w| - 1]) == w[|w| - 1]
    ensures |w| > 1 ==> IsWord(w[..|w| - 1])
  {
  }

  lemma {:induction false} WordsOfMore(s: string, t: string)
    requires t != "" && IsWord(t) && !InWord(s)
    ensures Words(s + t) == Words(s) + [t] && InWord(s + t)
  {
    hide Words, InWord, IsWord, Alnum, Lower;
    WordLetter(t);
    var before, c := t[..|t| - 1], t[|t| - 1];
    assert t == before + [c];
    assert s + t == (s + before) + [c];
    WordsNext(s + before, c);
    if |t| > 1 {
      WordsOfMore(s, before);
    } else {
      assert s + before == s;
    }
  }

  lemma {:induction false} WordsOfJoin(w: seq<string>)
    requires w != [] && forall i :: 0 <= i < |w| ==> IsWord(w[i])
    ensures Words(Join(w)) == w
  {
    if |w| == 1 {
      assert "" + w[0] == w[0];
      WordsOfMore("", w[0]);
    } else {
      var before, last := w[..|w| - 1], w[|w| - 1];
      WordsOfJoin(before);
      var j := Join(before);
      assert (j + "_")[..|j|] == j;
      WordsOfMore(j + "_", last);
      assert before + [last] == w;
    }
  }

  /** A key is its own key. */
  lemma KeyIdempotent(s: string)
    ensures Key(Key(s)) == Key(s)
  {
    if Words(s) != [] {
      WordsOfJoin(Words(s));
    } else {
      assert Words("_") == [];
    }
  }

  // ---------------------------------------------------------------------
  // What the key of a name is, piece by piece

  const LETTERS := "abcdefghijklmnopqrstuvwxyz"

  predicate HasAlnum(s: string) { exists i :: 0 <= i < |s| && Alnum(s[i]) }

  /** Anything but a letter or a digit separates words. */
  lemma {:induction false} WordsConcat(a: string, c: char, b: string)
    requires !Alnum(c)
    ensures Words(a + [c] + b) == Words(a) + Words(b)
  {
    hide Lower, Alnum, Words, InWord;
    if b == "" {
      assert a + [c] + b == a + [c];
      WordsNext(a, c);
      WordsOfEmpty();
      assert Words(a) + [] == Words(a);
    } else {
      var before, x := b[..|b| - 1], b[|b| - 1];
      WordsConcat(a, c, before);
      assert a + [c] + b == a + [c] + before + [x] && b == before + [x];
      WordsNext(a + [c] + before, x);
      WordsNext(before, x);
      SameInWord(a, c, before);
      if InWord(before) {
        LastOfBoth(Words(a), Words(before));
      }
    }
  }

  lemma WordsOfEmpty()
    ensures Words("") == []
  {
  }

  lemma SameInWord(a: string, c: char, b: string)
    requires !Alnum(c)
    ensures InWord(a + [c] + b) <==> InWord(b)
  {
    hide Alnum;
  }

  lemma LastOfBoth(v: seq<string>, w: seq<string>)
    requires w != []
    ensures (v + w)[..|v + w| - 1] == v + w[..|w| - 1] && (v + w)[|v + w| - 1] == w[|w| - 1]
  {
  }

  lemma {:induction false} WordsOfNothing(s: string)
    ensures Words(s) == [] <==> !HasAlnum(s)
  {
    hide Alnum, Lower;
    if s != "" {
      WordsOfNothing(s[..|s| - 1]);
      if HasAlnum(s[..|s| - 1]) {
        var i :| 0 <= i < |s| - 1 && Alnum(s[..|s| - 1][i]);
        assert Alnum(s[i]);
      }
    }
  }

  /** The letter or digit in lower case */
  function LowerOf(c: char): char
    requires Alnum(c)
  {
    if 'A' <= c <= 'Z' then LETTERS[(c - 'A') as int] else c
  }

  lemma LowerIs(c: char)
    requires Alnum(c)
    ensures Lower(c) == LowerOf(c)
  {
    if 'A' <= c <= 'Z' {
      LetterAt((c - 'A') as int);
    }
  }

  lemma LetterAt(i: int)
    requires 0 <= i < 26
    ensures LETTERS[i] == 'a' + i as char
  {
  }

  lemma KeyOfOne(s: string, w: string)
    requires Words(s) == [w]
    ensures Key(s) == w
  {
    hide Words;
  }

  /** A name of letters and digits is its key in lower case. */
  lemma {:induction false} KeyOfWord(s: string)
    requires s != "" && forall i :: 0 <= i < |s| ==> Alnum(s[i])
    ensures Words(s) == [Key(s)] && |Key(s)| == |s| && forall i :: 0 <= i < |s| ==> Key(s)[i] == LowerOf(s[i])
  {
    hide Alnum, Lower, LowerOf, Words, Key, IsWord;
    var before, c := s[..|s| - 1], s[|s| - 1];
    LowerIs(c);
    assert s == before + [c];
    WordsNext(before, c);
    if before != "" {
      assert Alnum(before[|before| - 1]);
      KeyOfWord(before);
      assert Words(s) == [Key(before) + [Lower(c)]];
      KeyOfOne(s, Key(before) + [Lower(c)]);
    } else {
      WordsOfNothing(before);
      assert Words(s) == [[Lower(c)]];
      KeyOfOne(s, [Lower(c)]);
    }
  }

  lemma {:induction false} JoinBoth(v: seq<string>, w: seq<string>)
    requires v != [] && w != []
    ensures Join(v + w) == Join(v) + "_" + Join(w)
  {
    hide Join;
    var before, x := w[..|w| - 1], w[|w| - 1];
    assert v + w == v + before + [x] && w == before + [x];
    JoinLast(v + before, x);
    JoinLast(before, x);
    if before != [] {
      JoinBoth(v, before);
      Reassociate(Join(v), Join(before), x);
    } else {
      assert v + before == v;
    }
  }

  lemma Reassociate(a: string, b: string, c: string)
    ensures a + "_" + b + "_" + c == a + "_" + (b + "_" + c)
  {
  }

  /** At anything else the key is the keys of both sides with one underscore between them,
      where a side without letters and digits leaves nothing. */
  lemma KeyJoins(a: string, c: char, b: string)
    requires !Alnum(c)
    ensures Key(a + [c] + b) == if !HasAlnum(a) then Key(b)
                                else if !HasAlnum(b) then Key(a)
                                else Key(a) + "_" + Key(b)
  {
    hide Alnum, Lower, Words, Join, HasAlnum;
    WordsConcat(a, c, b);
    WordsOfNothing(a);
    WordsOfNothing(b);
    assert [] + Words(b) == Words(b) && Words(a) + [] == Words(a);
    if Words(a) != [] && Words(b) != [] {
      JoinBoth(Words(a), Words(b));
    }
  }
}
