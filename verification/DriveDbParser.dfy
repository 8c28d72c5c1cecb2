/**
  The parser of drive database files (`parse_drive_database` of lib/knowndrives.cpp)
  and the database that it fills.
 */
module DriveDbParser {
  import opened DriveDbLexer

  /** `drive_settings` */
  datatype Settings = Settings(
    modelFamily: string, modelRegexp: string, firmwareRegexp: string, warningMsg: string, presets: string)

  const FIELDS := 5

  // ---------------------------------------------------------------------
  // The parser on tokens

  /** The tokens up to the end of the input */
  function Tokens(p: Source): (r: seq<Token>)
    ensures r != [] && r[|r| - 1].kind == NUL
    ensures forall i :: 0 <= i < |r| - 1 ==> r[i].kind != NUL
    decreases |p|
  {
    var l := Lex(p);
    if l.token.kind == NUL then [l.token] else [l.token] + Tokens(l.rest)
  }

  /** Regular expressions and option strings: what is wrong with the value of a field,
      given the fields before it. */
  type Check = (nat, seq<string>, string) -> bool

  datatype State = State(state: nat, field: nat, values: seq<string>, ok: bool, entries: seq<Settings>) {
    predicate Valid() {
      && state <= 4 && |values| == FIELDS
      && (state == 1 ==> field < FIELDS) && (state == 2 ==> 1 <= field < FIELDS) && (state == 3 ==> field == FIELDS)
    }
  }

  function Expected(state: nat): char
    requires state <= 4
  {
    if state == 0 then '{' else if state == 1 then '"' else if state == 2 then ',' else if state == 3 then '}' else ','
  }

  function Start(): State { State(0, 0, ["", "", "", "", ""], true, []) }

  /** One expected token */
  function Step(s: State, token: Token, check: Check): (r: State)
    requires s.Valid() && token.kind == Expected(s.state)
    ensures r.Valid()
  {
    if s.state == 0 then s.(state := 1, field := 0)
    else if s.state == 1 then
      s.(ok := s.ok && check(s.field, s.values, token.value), values := s.values[s.field := token.value],
         state := if s.field + 1 < FIELDS then 2 else 3, field := s.field + 1)
    else if s.state == 2 then s.(state := 1)
    else if s.state == 3 then
      s.(state := 4, entries := s.entries + [Settings(s.values[0], s.values[1], s.values[2], s.values[3], s.values[4])])
    else s.(state := 0)
  }

  /** The tokens from the next opening brace on, or from the end of the input */
  function Recovered(tokens: seq<Token>): (r: seq<Token>)
    requires tokens != []
    ensures r != [] && |r| <= |tokens|
    ensures tokens[|tokens| - 1].kind == NUL ==> r[|r| - 1].kind == NUL && (r[0].kind == NUL || r[0].kind == '{')
  {
    if tokens[0].kind == NUL || tokens[0].kind == '{' || |tokens| == 1 then tokens else Recovered(tokens[1..])
  }

  /** The whole run over a list of tokens */
  function Parse(s: State, tokens: seq<Token>, check: Check): (r: State)
    requires s.Valid() && tokens != [] && tokens[|tokens| - 1].kind == NUL
    decreases |tokens|, s.state
  {
    var token := tokens[0];
    if token.kind == NUL && (s.state == 0 || s.state == 4) then s
    else if token.kind != Expected(s.state) then
      var rest := Recovered(tokens);
      var s1 := s.(ok := false, state := 0);
      if rest[0].kind == NUL then s1 else Parse(s1, rest, check)
    else
      Parse(Step(s, token, check), tokens[1..], check)
  }

  // ---------------------------------------------------------------------
  // The database

  class DriveDatabase {
    var customTab: seq<Settings>
    var builtinTab: seq<Settings>

    constructor ()
      ensures customTab == [] && builtinTab == []
    {
      customTab, builtinTab := [], [];
    }

    method PushBack(src: Settings)
      modifies `customTab
      ensures customTab == old(customTab) + [src]
    {
      customTab := customTab + [src];
    }

    method Append(tab: seq<Settings>)
      modifies `builtinTab
      ensures builtinTab == tab
    {
      builtinTab := tab;
    }

    function Size(): nat
      reads this
    {
      |customTab| + |builtinTab|
    }

    /** `operator[]`: entries from a file come before the builtin ones. */
    function At(i: nat): (r: Settings)
      requires i < Size()
      reads this
      ensures r == (customTab + builtinTab)[i]
    {
      if i < |customTab| then customTab[i] else builtinTab[i - |customTab|]
    }
  }

  lemma TokensIs(p: Source)
    ensures Tokens(p) == if Lex(p).token.kind == NUL then [Lex(p).token] else [Lex(p).token] + Tokens(Lex(p).rest)
  {
    hide Lex;
  }

  /** The parser: it reads to the end of the input, and fills the database with the
      entries of the run over all tokens. */
  method ParseDriveDatabase(text: Source, db: DriveDatabase, check: Check) returns (ok: bool)
    modifies db`customTab
    ensures var r := Parse(Start(), Tokens(text), check);
      ok == r.ok && db.customTab == old(db.customTab) + r.entries
  {
    hide Tokens, Lex, Parse;
    var state: nat, field: nat := 0, 0;
    var values := ["", "", "", "", ""];
    ok := true;
    var line: nat := 1;
    var token, src;
    TokensIs(text);
    token, src, line := GetToken(text, line);
    ghost var entries: seq<Settings> := [];
    ghost var tokens := Tokens(text);
    while true
      invariant State(state, field, values, ok, entries).Valid()
      invariant tokens == if token.kind == NUL then [token] else [token] + Tokens(src)
      invariant Parse(State(state, field, values, ok, entries), tokens, check) == Parse(Start(), Tokens(text), check)
      invariant db.customTab == old(db.customTab) + entries
      invariant line + Newlines(src) == 1 + Newlines(text)
      decreases |tokens|, state
    {
      ghost var s := State(state, field, values, ok, entries);
      ParseIs(s, tokens, check);
      if token.kind == NUL && (state == 0 || state == 4) {
        break;
      }
      if token.kind != Expected(state) {
        ok := false;
        token, src, line, tokens := SkipToEntry(token, src, line, tokens);
        state := 0;
        if token.kind != NUL {
          continue;
        }
        break;
      }
      if state == 0 {
        state, field := 1, 0;
      } else if state == 1 {
        if !check(field, values, token.value) {
          ok := false;
        }
        values := values[field := token.value];
        field := field + 1;
        state := if field < 5 then 2 else 3;
      } else if state == 2 {
        state := 1;
      } else if state == 3 {
        var entry := Settings(values[0], values[1], values[2], values[3], values[4]);
        db.PushBack(entry);
        entries := entries + [entry];
        state := 4;
      } else {
        state := 0;
      }
      tokens := Tokens(src);
      TokensIs(src);
      token, src, line := GetToken(src, line);
    }
  }

  lemma ParseIs(s: State, tokens: seq<Token>, check: Check)
    requires s.Valid() && tokens != [] && tokens[|tokens| - 1].kind == NUL
    ensures Parse(s, tokens, check) ==
            if tokens[0].kind == NUL && (s.state == 0 || s.state == 4) then s
            else if tokens[0].kind != Expected(s.state) then
              var rest := Recovered(tokens);
              var s1 := s.(ok := false, state := 0);
              if rest[0].kind == NUL then s1 else Parse(s1, rest, check)
            else Parse(Step(s, tokens[0], check), tokens[1..], check)
  {
    hide Step, Recovered;
  }

  /** Error recovery: skips to the next entry. */
  method SkipToEntry(token0: Token, src0: Source, line0: nat, ghost tokens0: seq<Token>)
    returns (token: Token, src: Source, line: nat, ghost tokens: seq<Token>)
    requires tokens0 == if token0.kind == NUL then [token0] else [token0] + Tokens(src0)
    ensures tokens == Recovered(tokens0)
    ensures tokens == if token.kind == NUL then [token] else [token] + Tokens(src)
    ensures line + Newlines(src) == line0 + Newlines(src0)
  {
    hide Tokens, Lex;
    token, src, line, tokens := token0, src0, line0, tokens0;
    while token.kind != NUL && token.kind != '{'
      invariant tokens == if token.kind == NUL then [token] else [token] + Tokens(src)
      invariant Recovered(tokens) == Recovered(tokens0)
      invariant line + Newlines(src) == line0 + Newlines(src0)
      decreases |tokens|
    {
      tokens := Tokens(src);
      TokensIs(src);
      token, src, line := GetToken(src, line);
    }
  }
}
