/**
  The texts that the drive database parser accepts: exactly the files of
  DriveDbRoundTrip, so that anything else is reported as an error.
 */
module DriveDbAccepts {
  import opened DriveDbLexer
  import opened DriveDbParser
  import opened DriveDbRoundTrip

  // ---------------------------------------------------------------------
  // White space

  lemma {:induction false} LineSplit(p: Source) returns (t: string)
    ensures p == t + LineEnd(p)
    ensures BlankOk(LineComment(t)) && BlankOk(NulComment(t))
    decreases |p|
  {
    if Cur(p) == NUL || Cur(p) == '\n' {
      t := "";
    } else {
      var u := LineSplit(p[1..]);
      t := [p[0]] + u;
      assert p == [p[0]] + p[1..];
    }
  }

  lemma {:induction false} BlockSplit(p: Source) returns (t: string)
    ensures BlankOk(BlockComment(t))
    ensures BlockEnd(p).Closed? ==> p == t + "*" + BlockEnd(p).rest
    ensures BlockEnd(p).Missing? ==> p == t + BlockEnd(p).rest
    decreases |p|
  {
    if Cur(p) == NUL {
      t := "";
    } else if p[0] == '*' && Cur(p[1..]) == '/' {
      t := "";
      assert p == ['*'] + p[1..];
    } else {
      var u := BlockSplit(p[1..]);
      t := [p[0]] + u;
      assert p == [p[0]] + p[1..];
      assert u != "" ==> u[0] == p[1];
      Associate([p[0]], u, "*");
      Associate([p[0]], u + "*", BlockEnd(p).rest);
      Associate([p[0]], u, BlockEnd(p).rest);
    }
  }

  /** A white space or a comment in front of `rest` */
  ghost predicate Opens(p: Source, b: Blank, rest: Source) {
    BlankOk(b) && p == BlankText(b) + rest && White(p) == White(rest) && |rest| < |p|
  }

  lemma OpenChar(p: Source) returns (b: Blank)
    requires Cur(p) == ' ' || Cur(p) == '\t' || Cur(p) == '\n'
    ensures Opens(p, b, p[1..])
  {
    hide White;
    b := if p[0] == ' ' then Space else if p[0] == '\t' then Tab else LineFeed;
    WhiteIs(p);
    assert p == [p[0]] + p[1..];
  }

  lemma OpenLineComment(p: Source) returns (open: bool, b: Blank, t: Tail, rest: Source)
    requires Cur(p) == '/' && Peek(p) == '/'
    ensures open ==> TailOk(t) && p == TailText(t) && Cur(White(p)) == NUL
    ensures !open ==> Opens(p, b, rest)
  {
    hide White, LineEnd, BlockEnd, BlankOk;
    WhiteIs(p);
    assert p == "//" + p[2..];
    var e := LineEnd(p[2..]);
    var text := LineSplit(p[2..]);
    open, b, t, rest := e == "", Space, OpenLine(text), Next(e);
    if open {
      WhiteIs("");
      assert text + "" == text;
    } else {
      b := if e[0] == '\n' then LineComment(text) else NulComment(text);
      assert e == [e[0]] + rest;
    }
  }

  lemma OpenBlockComment(p: Source) returns (open: bool, b: Blank, t: Tail, rest: Source)
    requires Cur(p) == '/' && Peek(p) == '*'
    ensures open ==> TailOk(t) && p == TailText(t) && Cur(White(p)) == NUL
    ensures !open ==> Opens(p, b, rest)
  {
    hide White, LineEnd, BlockEnd, BlankOk, BlankText;
    WhiteIs(p);
    assert p == "/*" + p[2..];
    var e := BlockEnd(p[2..]).rest;
    var text := BlockSplit(p[2..]);
    open, b, t, rest := BlockEnd(p[2..]).Missing?, BlockComment(text), OpenBlock(text, e), Next(e);
    if open {
      Associate("/*", text, e);
    } else {
      assert e == "/" + rest;
      BlockTextIs(text, rest);
    }
  }

  lemma BlockTextIs(text: string, rest: string)
    ensures BlankText(BlockComment(text)) + rest == "/*" + (text + "*" + ("/" + rest))
  {
  }

  /** White space and comments, and the first other character or the end of the input */
  ghost predicate Skipped(p: Source, e: Ending) {
    if Cur(White(p)) == NUL then TailOk(e.tail) && p == EndingText(e) else p == GapText(e.gap) + White(p)
  }

  lemma SkippedMore(p: Source, b: Blank, rest: Source, e: Ending)
    requires Opens(p, b, rest) && Skipped(rest, e)
    ensures Skipped(p, Ending([b] + e.gap, e.tail))
  {
    hide White, BlankOk, BlankText, TailOk, TailText, GapText;
    GapIs(b, e.gap);
    if Cur(White(p)) == NUL {
      assert p == BlankText(b) + (GapText(e.gap) + TailText(e.tail));
    } else {
      assert p == BlankText(b) + (GapText(e.gap) + White(p));
    }
  }

  /** What `White` skips is white space and comments; at the end of the input the last
      comment may be left open. */
  lemma {:induction false} WhiteSplit(p: Source) returns (e: Ending)
    ensures Skipped(p, e)
    decreases |p|
  {
    hide White, BlankOk, BlankText, TailOk, TailText, GapText;
    WhiteIs(p);
    NoGap();
    var open, b, t, rest := false, Space, Stop(p), p;
    if Cur(p) == ' ' || Cur(p) == '\t' || Cur(p) == '\n' {
      b := OpenChar(p);
      rest := p[1..];
    } else if Cur(p) == '/' && Peek(p) == '/' {
      open, b, t, rest := OpenLineComment(p);
    } else if Cur(p) == '/' && Peek(p) == '*' {
      open, b, t, rest := OpenBlockComment(p);
    } else {
      open := true;
      NothingSkipped(p);
    }
    if open {
      assert p == "" + p;
      return Ending([], t);
    }
    e := WhiteSplit(rest);
    SkippedMore(p, b, rest, e);
    e := Ending([b] + e.gap, e.tail);
  }

  lemma NothingSkipped(p: Source)
    ensures Cur(p) == NUL ==> TailOk(Stop(p)) && TailText(Stop(p)) == p
  {
  }

  lemma GapIs(b: Blank, g: Gap)
    requires BlankOk(b)
    ensures GapText([b] + g) == BlankText(b) + GapText(g)
  {
    assert ([b] + g)[1..] == g;
  }

  /** Behind white space there is none. */
  lemma {:induction false} WhiteTwice(p: Source)
    ensures White(White(p)) == White(p)
    decreases |p|
  {
    hide LineEnd, BlockEnd, White;
    WhiteIs(p);
    if Cur(p) == ' ' || Cur(p) == '\t' || Cur(p) == '\n' {
      WhiteTwice(Next(p));
    } else if Cur(p) == '/' && Peek(p) == '/' {
      WhiteTwice(Next(LineEnd(p[2..])));
    } else if Cur(p) == '/' && Peek(p) == '*' {
      if BlockEnd(p[2..]).Closed? {
        WhiteTwice(Next(BlockEnd(p[2..]).rest));
      } else {
        WhiteIs(BlockEnd(p[2..]).rest);
      }
    }
  }

  // ---------------------------------------------------------------------
  // Strings

  lemma {:induction false} ErrorStays(p: Source, value: string)
    ensures Chars(p, '?', value).token.kind == '?'
    decreases |p|
  {
    hide White;
    if Cur(p) == '"' {
      var u := White(p[1..]);
      if Cur(u) == '"' {
        ErrorStays(u[1..], value);
      }
    } else if Cur(p) == NUL || Cur(p) == '\n' || (Cur(p) == '\\' && Peek(p) == NUL) {
    } else if Cur(p) != '\\' {
      ErrorStays(p[1..], value + [p[0]]);
    } else if p[1] == 'n' {
      ErrorStays(p[2..], value + "\n");
    } else if p[1] == '\n' || p[1] == '\\' || p[1] == '"' {
      ErrorStays(p[2..], value + [p[1]]);
    } else {
      ErrorStays(p[2..], value);
    }
  }

  /** A first character of a string constant, and the rest of it */
  lemma CharSplit(p: Source, value: string) returns (f: Form)
    requires Cur(p) != '"' && Chars(p, '"', value).token.kind == '"'
    ensures FormOk(f) && |FormText(f)| <= |p| && p == FormText(f) + p[|FormText(f)|..]
    ensures Chars(p, '"', value) == Chars(p[|FormText(f)|..], '"', value + [FormValue(f)])
  {
    hide White;
    if Cur(p) != '\\' {
      f := Raw(p[0]);
    } else if p[1] == 'n' {
      f := EscapedN;
    } else if p[1] == '\n' {
      f := Continued;
    } else if p[1] == '\\' || p[1] == '"' {
      f := Quoted(p[1]);
    } else {
      ErrorStays(p[2..], value);
      assert false;
    }
  }

  lemma ChunkIs(f: Form, c: Chunk)
    requires FormOk(f)
    ensures ChunkText([f] + c) == FormText(f) + ChunkText(c)
  {
    assert ([f] + c)[1..] == c;
  }

  lemma PiecesIs(p: Piece, ps: seq<Piece>)
    ensures PiecesText([p] + ps) == GapText(p.gap) + "\"" + ChunkText(p.chunk) + "\"" + PiecesText(ps)
    ensures PiecesText([]) == "" && ChunkText([]) == ""
  {
    assert ([p] + ps)[1..] == ps;
  }

  /** Behind an opening quotation mark: the constant, those joined to it, and what follows */
  ghost predicate Joined(p: Source, l: Literal, after: Source) {
    p == ChunkText(l.first) + "\"" + PiecesText(l.more) + after
  }

  lemma JoinedOnly(after: Source)
    ensures Joined("\"" + after, Literal([], []), after)
  {
    hide White;
    PiecesIs(Piece([], []), []);
    assert "" + "\"" + "" + after == "\"" + after;
  }

  lemma JoinedNext(g: Gap, u: Source, k: Literal, after: Source)
    requires Joined(u, k, after)
    ensures Joined("\"" + (GapText(g) + ("\"" + u)), Literal([], [Piece(g, k.first)] + k.more), after)
  {
    hide GapText, ChunkText, PiecesText;
    PiecesIs(Piece(g, k.first), k.more);
    assert "" + "\"" == "\"";
  }

  lemma JoinedChar(f: Form, u: Source, k: Literal, after: Source)
    requires FormOk(f) && Joined(u, k, after)
    ensures Joined(FormText(f) + u, Literal([f] + k.first, k.more), after)
  {
    hide ChunkText, PiecesText, FormText;
    ChunkIs(f, k.first);
  }

  lemma {:induction false} CharsSplit(p: Source, value: string) returns (l: Literal, after: Source)
    requires Chars(p, '"', value).token.kind == '"'
    ensures Joined(p, l, after)
    ensures Chars(p, '"', value).rest == White(after) && Cur(White(after)) != '"'
    decreases |p|
  {
    hide White, FormText, GapText, Chars, Joined;
    if Cur(p) == '"' {
      var u := White(p[1..]);
      QuoteIs(p, value);
      assert p == "\"" + p[1..];
      if Cur(u) == '"' {
        var k, a := CharsSplit(u[1..], value);
        var e := WhiteSplit(p[1..]);
        l, after := Literal([], [Piece(e.gap, k.first)] + k.more), a;
        assert u == "\"" + u[1..];
        JoinedNext(e.gap, u[1..], k, a);
      } else {
        l, after := Literal([], []), p[1..];
        JoinedOnly(after);
      }
    } else {
      var f := CharSplit(p, value);
      var rest := p[|FormText(f)|..];
      FormNonempty(f);
      var k, a := CharsSplit(rest, value + [FormValue(f)]);
      l, after := Literal([f] + k.first, k.more), a;
      JoinedChar(f, rest, k, a);
    }
  }

  lemma FormNonempty(f: Form)
    ensures |FormText(f)| > 0
  {
  }

  lemma QuoteIs(p: Source, value: string)
    requires Cur(p) == '"'
    ensures var u := White(p[1..]);
      Chars(p, '"', value) == if Cur(u) == '"' then Chars(u[1..], '"', value) else Lexed(Token('"', value), u)
  {
    hide White;
  }

  /** A text begins with a string, in front of anything but another string. */
  ghost predicate BeginsString(text: Source, g: Gap, l: Literal, rest: Source) {
    text == GapText(g) + LiteralText(l) + rest && Cur(White(rest)) != '"'
  }

  lemma LexSplit(text: Source) returns (g: Gap, l: Literal, rest: Source)
    requires Lex(text).token.kind == '"'
    ensures BeginsString(text, g, l, rest) && Lex(text).rest == White(rest)
  {
    hide White, GapText, ChunkText, PiecesText, Chars;
    var t := White(text);
    var e := WhiteSplit(text);
    g := e.gap;
    l, rest := CharsSplit(t[1..], "");
    assert t == "\"" + t[1..];
    assert text == GapText(g) + LiteralText(l) + rest;
  }

  /** The lexer returns a string exactly for a string of the language of the files:
      any other text between quotation marks is an error. */
  lemma StringCondition(text: Source)
    ensures Lex(text).token.kind == '"' <==> exists g, l, rest :: BeginsString(text, g, l, rest)
  {
    hide White, GapText, LiteralText, Lex;
    if Lex(text).token.kind == '"' {
      var g, l, rest := LexSplit(text);
    }
    forall g, l, rest | BeginsString(text, g, l, rest)
      ensures Lex(text).token.kind == '"'
    {
      LexLiteral(g, l, rest);
    }
  }

  lemma MarkSplit(text: Source) returns (g: Gap)
    requires var c := Lex(text).token.kind; c == '{' || c == '}' || c == ','
    ensures text == GapText(g) + [Lex(text).token.kind] + Lex(text).rest
  {
    hide White, GapText, Chars;
    var t := White(text);
    if Cur(t) == '"' {
      CharsKind(t[1..], '"', "");
      assert false;
    }
    var e := WhiteSplit(text);
    g := e.gap;
    assert t == [t[0]] + t[1..];
  }

  lemma {:induction false} CharsKind(p: Source, kind: char, value: string)
    ensures Chars(p, kind, value).token.kind in {kind, '?'}
    decreases |p|
  {
    hide White;
    if Cur(p) == '"' {
      var u := White(p[1..]);
      if Cur(u) == '"' {
        CharsKind(u[1..], kind, value);
      }
    } else if Cur(p) == NUL || Cur(p) == '\n' || (Cur(p) == '\\' && Peek(p) == NUL) {
    } else if Cur(p) != '\\' {
      CharsKind(p[1..], kind, value + [p[0]]);
    } else if p[1] == 'n' {
      CharsKind(p[2..], kind, value + "\n");
    } else if p[1] == '\n' || p[1] == '\\' || p[1] == '"' {
      CharsKind(p[2..], kind, value + [p[1]]);
    } else {
      CharsKind(p[2..], '?', value);
    }
  }

  lemma EndSplit(text: Source) returns (e: Ending)
    requires Lex(text).token.kind == NUL
    ensures TailOk(e.tail) && text == EndingText(e)
  {
    hide White, EndingText, Chars, TailOk;
    var t := White(text);
    if Cur(t) == '"' {
      CharsKind(t[1..], '"', "");
      assert false;
    }
    e := WhiteSplit(text);
  }

  // ---------------------------------------------------------------------
  // Entries

  /** A run that is accepted */
  ghost predicate Accepts(s: State, text: Source, check: Check) {
    s.Valid() && Parse(s, Tokens(text), check).ok
  }

  lemma {:induction false} ErrorRemains(s: State, tokens: seq<Token>, check: Check)
    requires s.Valid() && tokens != [] && tokens[|tokens| - 1].kind == NUL && !s.ok
    ensures !Parse(s, tokens, check).ok
    decreases |tokens|, s.state
  {
    hide Recovered, Parse;
    ParseIs(s, tokens, check);
    if tokens[0].kind == NUL && (s.state == 0 || s.state == 4) {
    } else if tokens[0].kind != Expected(s.state) {
      var rest := Recovered(tokens);
      if rest[0].kind != NUL {
        SmallerAgain(s, tokens);
        ErrorRemains(s.(ok := false, state := 0), rest, check);
      }
    } else {
      ErrorRemains(Step(s, tokens[0], check), tokens[1..], check);
    }
  }

  /** An opening brace is not unexpected where an entry may begin. */
  lemma SmallerAgain(s: State, tokens: seq<Token>)
    requires s.Valid() && tokens != [] && tokens[0].kind != Expected(s.state)
    requires tokens[|tokens| - 1].kind == NUL && Recovered(tokens)[0].kind != NUL
    ensures |Recovered(tokens)| < |tokens| || s.state > 0
  {
  }

  /** One step of an accepted run: the token is the expected one, and the rest of the
      text is accepted. */
  lemma AcceptsStep(s: State, text: Source, check: Check)
    requires Accepts(s, text, check)
    ensures var token := Lex(text).token;
      if token.kind == NUL && (s.state == 0 || s.state == 4) then true
      else token.kind == Expected(s.state) && Accepts(Step(s, token, check), Lex(text).rest, check)
  {
    hide Parse, Tokens, Lex, Step, Recovered;
    TokensIs(text);
    ParseIs(s, Tokens(text), check);
    var token := Lex(text).token;
    if token.kind == NUL && (s.state == 0 || s.state == 4) {
    } else if token.kind != Expected(s.state) {
      var rest := Recovered(Tokens(text));
      if rest[0].kind != NUL {
        ErrorRemains(s.(ok := false, state := 0), rest, check);
      }
      assert false;
    } else if token.kind == NUL {
      assert false;
    } else {
      assert Tokens(text)[1..] == Tokens(Lex(text).rest);
    }
  }

  /** White space may be skipped first. */
  lemma AcceptsWhite(s: State, text: Source, check: Check)
    requires Accepts(s, White(text), check)
    ensures Accepts(s, text, check)
  {
    hide Parse, White, Chars;
    WhiteTwice(text);
    TokensIs(text);
    TokensIs(White(text));
    assert Lex(text) == Lex(White(text));
  }

  lemma FieldsIs(f: Field, fs: seq<Field>)
    ensures FieldsText([f] + fs) ==
            GapText(f.before) + LiteralText(f.literal) + GapText(f.after) + (if fs != [] then "," else "}")
            + FieldsText(fs)
  {
    assert ([f] + fs)[1..] == fs;
  }

  lemma StepField(s: State, token: Token, check: Check)
    requires s.Valid() && s.state == 1 && token.kind == '"'
    ensures var r := Step(s, token, check);
      r.field == s.field + 1 && r.state == (if r.field < FIELDS then 2 else 3)
  {
  }

  lemma StepMark(s: State, token: Token, check: Check)
    requires s.Valid() && (s.state == 2 || s.state == 3) && token.kind == Expected(s.state)
    ensures var r := Step(s, token, check); r.field == s.field && r.state == (if s.state == 2 then 1 else 4)
  {
  }

  /** The rest of an entry: its fields, and the text behind its closing brace */
  lemma {:induction false} FieldsSplit(s: State, text: Source, check: Check)
    returns (fs: seq<Field>, rest: Source, s1: State)
    requires Accepts(s, text, check) && s.state == 1
    ensures |fs| == FIELDS - s.field && text == FieldsText(fs) + rest
    ensures Accepts(s1, rest, check) && s1.state == 4 && |rest| < |text|
    decreases FIELDS - s.field
  {
    hide Parse, Tokens, Lex, Step, White, GapText, LiteralText, FieldsText;
    AcceptsStep(s, text, check);
    StepField(s, Lex(text).token, check);
    var before, l, behind := LexSplit(text);
    var s2 := Step(s, Lex(text).token, check);
    AcceptsWhite(s2, behind, check);
    AcceptsStep(s2, behind, check);
    var after := MarkSplit(behind);
    StepMark(s2, Lex(behind).token, check);
    s1, rest, fs := Step(s2, Lex(behind).token, check), Lex(behind).rest, [];
    var f := Field(before, l, after);
    NoFields();
    FieldsIs(f, []);
    if s2.state == 2 {
      var more, r, t := FieldsSplit(s1, rest, check);
      FieldsIs(f, more);
      assert text == FieldsText([f] + more) + r;
      fs, rest, s1 := [f] + more, r, t;
    } else {
      fs := [f];
      assert [f] + [] == [f];
      assert text == FieldsText(fs) + rest;
    }
  }

  lemma NoFields()
    ensures FieldsText([]) == ""
  {
  }

  lemma FileIs(e: Entry, es: File, trailing: bool, end: Ending)
    requires |e.fields| == FIELDS
    ensures FileText([e] + es, trailing, end) ==
            EntryText(e) + (if es != [] || trailing then GapText(e.comma) + "," else "") + FileText(es, trailing, end)
  {
    assert ([e] + es)[1..] == es;
  }

  lemma FileEnd(trailing: bool, end: Ending)
    ensures FileText([], trailing, end) == EndingText(end)
  {
  }

  /** An accepted text is a file. */
  lemma {:induction false} FileSplit(s: State, text: Source, check: Check)
    returns (es: File, trailing: bool, end: Ending)
    requires Accepts(s, text, check) && s.state == 0
    ensures TailOk(end.tail) && text == FileText(es, trailing, end)
    decreases |text|
  {
    hide Parse, Tokens, Lex, Step, White, GapText, FieldsText, EndingText, FileText, TailOk;
    AcceptsStep(s, text, check);
    if Lex(text).token.kind == NUL {
      end := EndSplit(text);
      FileEnd(false, end);
      return [], false, end;
    }
    var before := MarkSplit(text);
    var s1 := Step(s, Lex(text).token, check);
    StepBrace(s, Lex(text).token, check);
    var fs, behind, s2 := FieldsSplit(s1, Lex(text).rest, check);
    AcceptsStep(s2, behind, check);
    var e := Entry(before, fs, []);
    assert text == EntryText(e) + behind;
    if Lex(behind).token.kind == NUL {
      end := EndSplit(behind);
      FileIs(e, [], false, end);
      FileEnd(false, end);
      es, trailing := [e] + [], false;
    } else {
      var comma := MarkSplit(behind);
      StepComma(s2, Lex(behind).token, check);
      es, trailing, end := FileSplit(Step(s2, Lex(behind).token, check), Lex(behind).rest, check);
      e := e.(comma := comma);
      FileEnd(trailing, end);
      FileEnd(true, end);
      trailing := es == [] || trailing;
      FileIs(e, es, trailing, end);
      es := [e] + es;
    }
  }

  lemma StepBrace(s: State, token: Token, check: Check)
    requires s.Valid() && s.state == 0 && token.kind == '{'
    ensures var r := Step(s, token, check); r.state == 1 && r.field == 0
  {
  }

  lemma StepComma(s: State, token: Token, check: Check)
    requires s.Valid() && s.state == 4 && token.kind == ','
    ensures Step(s, token, check).state == 0
  {
  }

  /** A text is a file without errors in its fields. */
  ghost predicate IsFile(text: Source, es: File, trailing: bool, end: Ending, check: Check) {
    TailOk(end.tail) && text == FileText(es, trailing, end) && FileChecked(Start().values, es, check)
  }

  /** The parser returns true exactly for the files of the layout whose fields pass
      their checks, and then the database holds exactly their entries. */
  lemma AcceptedCondition(text: Source, check: Check)
    ensures ParseText(text, check).ok <==> exists es, trailing, end :: IsFile(text, es, trailing, end, check)
    ensures forall es, trailing, end ::
              IsFile(text, es, trailing, end, check) ==> ParseText(text, check).entries == AllSettings(es)
  {
    hide Parse, Tokens, FileText, FileChecked, AllSettings, TailOk;
    if ParseText(text, check).ok {
      var es, trailing, end := FileSplit(Start(), text, check);
      ReadBack(es, trailing, end, check);
      assert IsFile(text, es, trailing, end, check);
    }
    forall es, trailing, end | IsFile(text, es, trailing, end, check)
      ensures ParseText(text, check).ok && ParseText(text, check).entries == AllSettings(es)
    {
      ReadBack(es, trailing, end, check);
    }
  }
}
