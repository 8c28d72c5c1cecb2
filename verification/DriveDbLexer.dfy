/**
  The lexer of drive database files (`skip_white` and `get_token` of
  lib/knowndrives.cpp).  A position in the input is the text from there on; a NUL
  character reads like the end of the input.
 */
module DriveDbLexer {

  type Source = string

  const NUL: char := 0 as char

  /** `*p`, `p[1]` and `++p` */
  function Cur(p: Source): char { if p == "" then NUL else p[0] }
  function Peek(p: Source): char { if |p| < 2 then NUL else p[1] }
  function Next(p: Source): Source { if p == "" then p else p[1..] }

  function Newlines(p: Source): nat {
    if p == "" then 0 else (if p[0] == '\n' then 1 else 0) + Newlines(p[1..])
  }

  // ---------------------------------------------------------------------
  // White space and comments

  /** The end of the line, or of the input */
  function LineEnd(p: Source): (r: Source)
    ensures |r| <= |p| && (Cur(r) == '\n' || Cur(r) == NUL)
    ensures Cur(p) != NUL && Cur(p) != '\n' ==> |r| < |p|
    ensures Newlines(r) == Newlines(p)
  {
    if Cur(p) == NUL || Cur(p) == '\n' then p else LineEnd(p[1..])
  }

  datatype Block = Closed(rest: Source) | Missing(rest: Source)

  /** The slash that closes a block comment, or the end of the input */
  function BlockEnd(p: Source): (r: Block)
    ensures |r.rest| <= |p|
    ensures r.Closed? ==> Cur(r.rest) == '/'
    ensures r.Missing? ==> Cur(r.rest) == NUL
  {
    if Cur(p) == NUL then Missing(p)
    else if p[0] == '*' && Cur(p[1..]) == '/' then Closed(p[1..])
    else BlockEnd(p[1..])
  }

  /** The first position behind white space and comments */
  function White(p: Source): (r: Source)
    ensures |r| <= |p|
    decreases |p|
  {
    if Cur(p) == ' ' || Cur(p) == '\t' || Cur(p) == '\n' then White(p[1..])
    else if Cur(p) == '/' && Peek(p) == '/' then White(Next(LineEnd(p[2..])))
    else if Cur(p) == '/' && Peek(p) == '*' then
      match BlockEnd(p[2..])
      case Missing(rest) => rest
      case Closed(rest) => White(Next(rest))
    else p
  }

  /** `skip_white`; the line number counts the line ends that have been passed. */
  method SkipWhite(p: Source, line0: nat) returns (src: Source, line: nat)
    ensures src == White(p)
    ensures line + Newlines(src) == line0 + Newlines(p)
  {
    hide White, LineEnd, BlockEnd;
    src, line := p, line0;
    while true
      invariant White(src) == White(p)
      invariant line + Newlines(src) == line0 + Newlines(p)
      decreases |src|
    {
      WhiteIs(src);
      if Cur(src) == ' ' || Cur(src) == '\t' {
        src := Next(src);
      } else if Cur(src) == '\n' {
        line := line + 1;
        src := Next(src);
      } else if Cur(src) == '/' && Peek(src) == '/' {
        NewlinesTwo(src);
        src := SkipLine(Next(Next(src)));
        if Cur(src) != NUL {
          line := line + 1;
        }
        src := Next(src);
      } else if Cur(src) == '/' && Peek(src) == '*' {
        NewlinesTwo(src);
        var closed;
        src, line, closed := SkipBlock(Next(Next(src)), line);
        if !closed {
          return;
        }
        src := Next(src);
      } else {
        return;
      }
    }
  }

  lemma NewlinesTwo(p: Source)
    requires Cur(p) == '/' && (Peek(p) == '/' || Peek(p) == '*')
    ensures Newlines(Next(Next(p))) == Newlines(p) && Next(Next(p)) == p[2..]
  {
    assert p[1..][1..] == p[2..];
  }

  lemma WhiteIs(p: Source)
    ensures White(p) ==
            if Cur(p) == ' ' || Cur(p) == '\t' || Cur(p) == '\n' then White(Next(p))
            else if Cur(p) == '/' && Peek(p) == '/' then White(Next(LineEnd(p[2..])))
            else if Cur(p) == '/' && Peek(p) == '*' then
              (match BlockEnd(p[2..]) case Missing(rest) => rest case Closed(rest) => White(Next(rest)))
            else p
  {
    hide LineEnd, BlockEnd;
  }

  method SkipLine(p: Source) returns (src: Source)
    ensures src == LineEnd(p)
  {
    src := p;
    while Cur(src) != NUL && Cur(src) != '\n'
      invariant LineEnd(src) == LineEnd(p)
      decreases |src|
    {
      src := Next(src);
    }
  }

  method SkipBlock(p: Source, line0: nat) returns (src: Source, line: nat, closed: bool)
    ensures BlockEnd(p) == if closed then Closed(src) else Missing(src)
    ensures line + Newlines(src) == line0 + Newlines(p)
  {
    src, line, closed := p, line0, false;
    while !closed
      invariant if closed then BlockEnd(p) == Closed(src) else BlockEnd(src) == BlockEnd(p)
      invariant line + Newlines(src) == line0 + Newlines(p)
      decreases !closed, |src|
    {
      if Cur(src) == NUL {
        return;
      }
      var c := Cur(src);
      src := Next(src);
      if c == '\n' {
        line := line + 1;
      } else if c == '*' && Cur(src) == '/' {
        closed := true;
      }
    }
  }

  // ---------------------------------------------------------------------
  // Tokens

  /** `token_info`: a brace, a comma, `"` for a string, `?` for an error, or NUL at
      the end of the input. */
  datatype Token = Token(kind: char, value: string)

  datatype Lexed = Lexed(token: Token, rest: Source)

  /** A string constant from behind its opening quotation mark on, with all constants
      that follow it; `kind` turns from `"` to `?` at an unknown escape sequence. */
  function Chars(p: Source, kind: char, value: string): (r: Lexed)
    ensures |r.rest| <= |p|
    decreases |p|
  {
    if Cur(p) == '"' then
      var u := White(p[1..]);
      if Cur(u) == '"' then Chars(u[1..], kind, value) else Lexed(Token(kind, value), u)
    else if Cur(p) == NUL || Cur(p) == '\n' || (Cur(p) == '\\' && Peek(p) == NUL) then
      Lexed(Token('?', value), p)
    else if Cur(p) != '\\' then Chars(p[1..], kind, value + [p[0]])
    else if p[1] == 'n' then Chars(p[2..], kind, value + "\n")
    else if p[1] == '\n' || p[1] == '\\' || p[1] == '"' then Chars(p[2..], kind, value + [p[1]])
    else Chars(p[2..], '?', value)
  }

  function Lex(p: Source): (r: Lexed)
    ensures |r.rest| <= |p|
    ensures r.token.kind != NUL ==> |r.rest| < |p|
  {
    var t := White(p);
    if Cur(t) == '{' || Cur(t) == '}' || Cur(t) == ',' then Lexed(Token(t[0], ""), t[1..])
    else if Cur(t) == '"' then Chars(t[1..], '"', "")
    else if Cur(t) == NUL then Lexed(Token(NUL, ""), t)
    else Lexed(Token('?', ""), LineEnd(t))
  }

  method LexString(p: Source, line0: nat) returns (token: Token, src: Source, line: nat)
    ensures Lexed(token, src) == Chars(p, '"', "")
    ensures line + Newlines(src) == line0 + Newlines(p)
  {
    hide White;
    var kind, value := '"', "";
    src, line := p, line0;
    while true
      invariant Chars(src, kind, value) == Chars(p, '"', "")
      invariant line + Newlines(src) == line0 + Newlines(p)
      decreases |src|
    {
      var c := Cur(src);
      if c == '"' {
        src, line := SkipWhite(Next(src), line);
        if Cur(src) != '"' {
          token := Token(kind, value);
          return;
        }
        src := Next(src);
      } else if c == NUL || c == '\n' || (c == '\\' && Peek(src) == NUL) {
        token := Token('?', value);
        return;
      } else {
        if c == '\\' {
          assert src[1..][1..] == src[2..];
          src := Next(src);
          c := Cur(src);
          if c == 'n' {
            value := value + "\n";
          } else if c == '\n' {
            line := line + 1;
            value := value + [c];
          } else if c == '\\' || c == '"' {
            value := value + [c];
          } else {
            kind := '?';
          }
        } else {
          value := value + [c];
        }
        src := Next(src);
      }
    }
  }

  /** `get_token`: every token but the end of the input consumes a character. */
  method GetToken(p: Source, line0: nat) returns (token: Token, src: Source, line: nat)
    ensures Lexed(token, src) == Lex(p)
    ensures line + Newlines(src) == line0 + Newlines(p)
  {
    hide White, Chars;
    src, line := SkipWhite(p, line0);
    var c := Cur(src);
    if c == '{' || c == '}' || c == ',' {
      token := Token(c, "");
      src := Next(src);
    } else if c == '"' {
      token, src, line := LexString(Next(src), line);
    } else if c == NUL {
      token := Token(NUL, "");
    } else {
      token := Token('?', "");
      src := SkipLine(src);
    }
  }
}
