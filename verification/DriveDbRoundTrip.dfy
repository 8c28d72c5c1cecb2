/**
  Reading back a drive database file: every way of writing a list of entries, with
  comments, escapes and split strings, gives exactly these entries.
 */
module DriveDbRoundTrip {
  import opened DriveDbLexer
  import opened DriveDbParser

  // ---------------------------------------------------------------------
  // Layout

  /** White space and comments; a NUL ends a line comment like a line end. */
  datatype Blank =
    Space | Tab | LineFeed | LineComment(text: string) | NulComment(text: string) | BlockComment(text: string)

  predicate BlankOk(b: Blank) {
    match b
    case LineComment(t) => forall i :: 0 <= i < |t| ==> t[i] != '\n' && t[i] != NUL
    case NulComment(t) => forall i :: 0 <= i < |t| ==> t[i] != '\n' && t[i] != NUL
    case BlockComment(t) =>
      && (forall i :: 0 <= i < |t| ==> t[i] != NUL)
      && (forall i :: 0 <= i < |t| - 1 ==> !(t[i] == '*' && t[i + 1] == '/'))
    case _ => true
  }

  function BlankText(b: Blank): string {
    match b
    case Space => " "
    case Tab => "\t"
    case LineFeed => "\n"
    case LineComment(t) => "//" + t + "\n"
    case NulComment(t) => "//" + t + [NUL]
    case BlockComment(t) => "/*" + t + "*/"
  }

  type Gap = g: seq<Blank> | forall i :: 0 <= i < |g| ==> BlankOk(g[i]) witness []

  function GapText(g: Gap): string {
    if g == [] then "" else BlankText(g[0]) + GapText(g[1..])
  }

  /** What may stand at the end of a file: nothing, or a NUL with anything behind it,
      or a comment that is left open. */
  datatype Tail = Stop(after: string) | OpenLine(text: string) | OpenBlock(text: string, after: string)

  predicate AtNul(s: string) { s == "" || s[0] == NUL }

  predicate TailOk(t: Tail) {
    match t
    case Stop(after) => AtNul(after)
    case OpenLine(text) => BlankOk(LineComment(text))
    case OpenBlock(text, after) => BlankOk(BlockComment(text)) && AtNul(after)
  }

  function TailText(t: Tail): string {
    match t
    case Stop(after) => after
    case OpenLine(text) => "//" + text
    case OpenBlock(text, after) => "/*" + text + after
  }

  datatype Ending = Ending(gap: Gap, tail: Tail)

  function EndingText(e: Ending): string { GapText(e.gap) + TailText(e.tail) }

  /** A character of a string constant: as it stands, behind a backslash, as `\n`, or
      as a line end behind a backslash. */
  datatype Form = Raw(c: char) | Quoted(c: char) | EscapedN | Continued

  predicate FormOk(f: Form) {
    match f
    case Raw(c) => c != '"' && c != '\\' && c != '\n' && c != NUL
    case Quoted(c) => c == '"' || c == '\\'
    case _ => true
  }

  function FormText(f: Form): string {
    match f
    case Raw(c) => [c]
    case Quoted(c) => ['\\', c]
    case EscapedN => "\\n"
    case Continued => "\\\n"
  }

  function FormValue(f: Form): char {
    match f
    case Raw(c) => c
    case Quoted(c) => c
    case _ => '\n'
  }

  type Chunk = f: seq<Form> | forall i :: 0 <= i < |f| ==> FormOk(f[i]) witness []

  function ChunkText(f: Chunk): string { if f == [] then "" else FormText(f[0]) + ChunkText(f[1..]) }
  function ChunkValue(f: Chunk): string { if f == [] then "" else [FormValue(f[0])] + ChunkValue(f[1..]) }

  /** A string: a first constant, and more that are joined to it */
  datatype Piece = Piece(gap: Gap, chunk: Chunk)
  datatype Literal = Literal(first: Chunk, more: seq<Piece>)

  function PiecesText(ps: seq<Piece>): string {
    if ps == [] then "" else GapText(ps[0].gap) + "\"" + ChunkText(ps[0].chunk) + "\"" + PiecesText(ps[1..])
  }

  function PiecesValue(ps: seq<Piece>): string {
    if ps == [] then "" else ChunkValue(ps[0].chunk) + PiecesValue(ps[1..])
  }

  function LiteralText(l: Literal): string { "\"" + ChunkText(l.first) + "\"" + PiecesText(l.more) }
  function LiteralValue(l: Literal): string { ChunkValue(l.first) + PiecesValue(l.more) }

  // ---------------------------------------------------------------------
  // White space is skipped

  lemma {:induction false} LineCommentEnd(t: string, rest: string)
    requires forall i :: 0 <= i < |t| ==> t[i] != '\n' && t[i] != NUL
    requires AtNul(rest) || rest[0] == '\n'
    ensures LineEnd(t + rest) == rest
  {
    if t == "" {
      assert t + rest == rest;
    } else {
      assert (t + rest)[1..] == t[1..] + rest;
      LineCommentEnd(t[1..], rest);
    }
  }

  lemma {:induction false} BlockCommentEnd(t: string, rest: string)
    requires BlankOk(BlockComment(t))
    ensures BlockEnd(t + ("*/" + rest)) == Closed("/" + rest)
  {
    var s := t + ("*/" + rest);
    if t == "" {
      assert s == "*/" + rest;
      assert s[1..] == "/" + rest;
    } else {
      assert s[1..] == t[1..] + ("*/" + rest);
      assert forall i :: 0 <= i < |t[1..]| ==> t[1..][i] == t[i + 1];
      BlockCommentEnd(t[1..], rest);
    }
  }

  lemma WhiteLineComment(t: string, end: char, rest: string)
    requires BlankOk(LineComment(t)) || BlankOk(NulComment(t))
    requires end == '\n' || end == NUL
    ensures White("//" + t + [end] + rest) == White(rest)
  {
    hide White, LineEnd, BlockEnd;
    var s := "//" + t + [end] + rest;
    WhiteIs(s);
    LineCommentEnd(t, [end] + rest);
    assert s[2..] == t + ([end] + rest);
    assert ([end] + rest)[1..] == rest;
  }

  lemma WhiteBlockComment(t: string, rest: string)
    requires BlankOk(BlockComment(t))
    ensures White("/*" + t + "*/" + rest) == White(rest)
  {
    hide White, LineEnd, BlockEnd, BlankOk;
    var s := "/*" + t + "*/" + rest;
    WhiteIs(s);
    BlockCommentEnd(t, rest);
    assert s[2..] == t + ("*/" + rest);
    assert ("/" + rest)[1..] == rest;
  }

  lemma WhiteChar(c: char, rest: string)
    requires c == ' ' || c == '\t' || c == '\n'
    ensures White([c] + rest) == White(rest)
  {
    hide White, LineEnd, BlockEnd;
    WhiteIs([c] + rest);
    assert ([c] + rest)[1..] == rest;
  }

  lemma WhiteBlank(b: Blank, rest: string)
    requires BlankOk(b)
    ensures White(BlankText(b) + rest) == White(rest)
  {
    hide White, BlankOk;
    match b
    case Space => WhiteChar(' ', rest);
    case Tab => WhiteChar('\t', rest);
    case LineFeed => WhiteChar('\n', rest);
    case LineComment(t) => WhiteLineComment(t, '\n', rest);
    case NulComment(t) => WhiteLineComment(t, NUL, rest);
    case BlockComment(t) => WhiteBlockComment(t, rest);
  }

  lemma {:induction false} WhiteGap(g: Gap, rest: string)
    ensures White(GapText(g) + rest) == White(rest)
  {
    hide White, BlankText;
    if g == [] {
      assert GapText(g) + rest == rest;
    } else {
      WhiteBlank(g[0], GapText(g[1..]) + rest);
      assert GapText(g) + rest == BlankText(g[0]) + (GapText(g[1..]) + rest);
      WhiteGap(g[1..], rest);
    }
  }

  lemma {:induction false} BlockMissing(t: string, rest: string)
    requires BlankOk(BlockComment(t)) && AtNul(rest)
    ensures BlockEnd(t + rest) == Missing(rest)
  {
    var s := t + rest;
    if t == "" {
      assert s == rest;
    } else {
      assert s[1..] == t[1..] + rest;
      assert forall i :: 0 <= i < |t[1..]| ==> t[1..][i] == t[i + 1];
      BlockMissing(t[1..], rest);
    }
  }

  lemma WhiteTail(t: Tail)
    requires TailOk(t)
    ensures Cur(White(TailText(t))) == NUL
  {
    hide White, LineEnd, BlockEnd;
    var s := TailText(t);
    WhiteIs(s);
    match t
    case Stop(_) =>
    case OpenLine(text) =>
      assert s[2..] == text + "";
      LineCommentEnd(text, "");
      WhiteIs("");
    case OpenBlock(text, after) =>
      assert s[2..] == text + after;
      BlockMissing(text, after);
  }

  // ---------------------------------------------------------------------
  // Strings

  lemma {:induction false} CharsChunk(f: Chunk, rest: string, kind: char, value: string)
    ensures Chars(ChunkText(f) + rest, kind, value) == Chars(rest, kind, value + ChunkValue(f))
  {
    hide White;
    if f == [] {
      assert ChunkText(f) + rest == rest;
      assert value + "" == value;
    } else {
      var s := ChunkText(f) + rest;
      var behind := ChunkText(f[1..]) + rest;
      assert s == FormText(f[0]) + behind;
      assert s[|FormText(f[0])|..] == behind;
      CharsChunk(f[1..], rest, kind, value + [FormValue(f[0])]);
      assert value + [FormValue(f[0])] + ChunkValue(f[1..]) == value + ChunkValue(f);
      assert Chars(s, kind, value) == Chars(behind, kind, value + [FormValue(f[0])]);
    }
  }

  /** Behind the closing quotation mark of a constant: more constants, then `rest`. */
  lemma {:induction false} CharsPieces(ps: seq<Piece>, rest: string, kind: char, value: string)
    requires Cur(White(rest)) != '"'
    ensures Chars("\"" + PiecesText(ps) + rest, kind, value) == Lexed(Token(kind, value + PiecesValue(ps)), White(rest))
  {
    hide White, ChunkText, ChunkValue, GapText;
    var s := "\"" + PiecesText(ps) + rest;
    if ps == [] {
      assert s[1..] == rest;
      assert value + "" == value;
    } else {
      var p := ps[0];
      var quoted := "\"" + (ChunkText(p.chunk) + ("\"" + PiecesText(ps[1..]) + rest));
      assert s[1..] == GapText(p.gap) + quoted;
      WhiteGap(p.gap, quoted);
      WhiteIs(quoted);
      assert quoted[1..] == ChunkText(p.chunk) + ("\"" + PiecesText(ps[1..]) + rest);
      CharsChunk(p.chunk, "\"" + PiecesText(ps[1..]) + rest, kind, value);
      CharsPieces(ps[1..], rest, kind, value + ChunkValue(p.chunk));
      assert value + ChunkValue(p.chunk) + PiecesValue(ps[1..]) == value + PiecesValue(ps);
    }
  }

  lemma Associate(a: string, b: string, c: string)
    ensures a + b + c == a + (b + c)
  {
  }

  lemma BehindQuote(a: string, b: string, c: string)
    ensures ("\"" + a + "\"" + b + c)[1..] == a + ("\"" + b + c)
  {
  }

  /** A string in the file, in front of anything but another string. */
  lemma LexLiteral(g: Gap, l: Literal, rest: string)
    requires Cur(White(rest)) != '"'
    ensures Lex(GapText(g) + LiteralText(l) + rest) == Lexed(Token('"', LiteralValue(l)), White(rest))
  {
    hide White, ChunkText, ChunkValue, GapText, PiecesText, PiecesValue, Chars;
    var text := LiteralText(l) + rest;
    Associate(GapText(g), LiteralText(l), rest);
    WhiteGap(g, text);
    WhiteIs(text);
    BehindQuote(ChunkText(l.first), PiecesText(l.more), rest);
    CharsChunk(l.first, "\"" + PiecesText(l.more) + rest, '"', "");
    assert "" + ChunkValue(l.first) == ChunkValue(l.first);
    CharsPieces(l.more, rest, '"', ChunkValue(l.first));
  }

  lemma LexMark(g: Gap, c: char, rest: string)
    requires c == '{' || c == '}' || c == ','
    ensures Lex(GapText(g) + [c] + rest) == Lexed(Token(c, ""), rest)
    ensures Cur(White(GapText(g) + [c] + rest)) == c
  {
    hide White, GapText;
    var text := [c] + rest;
    assert GapText(g) + [c] + rest == GapText(g) + text;
    WhiteGap(g, text);
    WhiteIs(text);
    assert text[1..] == rest;
  }

  // ---------------------------------------------------------------------
  // Entries and files

  /** A string with the white space before it, and before what follows it */
  datatype Field = Field(before: Gap, literal: Literal, after: Gap)

  /** An entry; `comma` is the white space in front of the comma behind it. */
  datatype Entry = Entry(before: Gap, fields: seq<Field>, comma: Gap)

  type File = es: seq<Entry> | forall i :: 0 <= i < |es| ==> |es[i].fields| == FIELDS witness []

  function FieldsText(fs: seq<Field>): string {
    if fs == [] then "" else
    GapText(fs[0].before) + LiteralText(fs[0].literal) + GapText(fs[0].after)
    + (if |fs| > 1 then "," else "}") + FieldsText(fs[1..])
  }

  function EntryText(e: Entry): string { GapText(e.before) + "{" + FieldsText(e.fields) }

  /** The entries, with commas between them and perhaps behind the last one */
  function FileText(es: File, trailing: bool, end: Ending): string {
    if es == [] then EndingText(end) else
    EntryText(es[0]) + (if |es| > 1 || trailing then GapText(es[0].comma) + "," else "")
    + FileText(es[1..], trailing, end)
  }

  function Value(f: Field): string { LiteralValue(f.literal) }

  function SettingsOf(e: Entry): Settings
    requires |e.fields| == FIELDS
  {
    Settings(Value(e.fields[0]), Value(e.fields[1]), Value(e.fields[2]), Value(e.fields[3]), Value(e.fields[4]))
  }

  function AllSettings(es: File): seq<Settings> {
    if es == [] then [] else [SettingsOf(es[0])] + AllSettings(es[1..])
  }

  function FieldTokens(fs: seq<Field>): seq<Token> {
    if fs == [] then [] else
    [Token('"', Value(fs[0])), Token(if |fs| > 1 then ',' else '}', "")] + FieldTokens(fs[1..])
  }

  function FileTokens(es: File, trailing: bool): seq<Token> {
    if es == [] then [Token(NUL, "")] else
    EntryTokens(es[0]) + (if |es| > 1 || trailing then [Token(',', "")] else [])
    + FileTokens(es[1..], trailing)
  }

  lemma TokensMark(g: Gap, c: char, rest: string)
    requires c == '{' || c == '}' || c == ','
    ensures Tokens(GapText(g) + [c] + rest) == [Token(c, "")] + Tokens(rest)
  {
    hide Tokens, Lex, GapText, White;
    LexMark(g, c, rest);
    TokensIs(GapText(g) + [c] + rest);
  }

  /** A field and the mark behind it */
  lemma TokensOfField(f: Field, mark: char, rest: string)
    requires mark == ',' || mark == '}'
    ensures Tokens(GapText(f.before) + LiteralText(f.literal) + (GapText(f.after) + [mark] + rest)) ==
            [Token('"', Value(f)), Token(mark, "")] + Tokens(rest)
  {
    hide Tokens, Lex, GapText, White, LiteralText, Value;
    var text := GapText(f.after) + [mark] + rest;
    WhiteMark(f.after, mark, rest);
    LexLiteral(f.before, f.literal, text);
    TokensIs(GapText(f.before) + LiteralText(f.literal) + text);
    TokensAtMark(mark, rest);
    ValueIs(f);
  }

  lemma ValueIs(f: Field)
    ensures Value(f) == LiteralValue(f.literal)
  {
    hide LiteralValue;
  }

  lemma TokensAtMark(mark: char, rest: string)
    requires mark == ',' || mark == '}'
    ensures Tokens([mark] + rest) == [Token(mark, "")] + Tokens(rest)
  {
    hide Tokens, GapText;
    TokensMark([], mark, rest);
    NoGap();
    assert "" + [mark] + rest == [mark] + rest;
  }

  lemma {:induction false} TokensOfFields(fs: seq<Field>, rest: string)
    ensures Tokens(FieldsText(fs) + rest) == FieldTokens(fs) + Tokens(rest)
  {
    hide Tokens, GapText, LiteralText, Value;
    if fs == [] {
      assert FieldsText(fs) + rest == rest;
      assert FieldTokens(fs) + Tokens(rest) == Tokens(rest);
    } else {
      var f, mark := fs[0], if |fs| > 1 then ',' else '}';
      TokensOfField(f, mark, FieldsText(fs[1..]) + rest);
      TokensOfFields(fs[1..], rest);
      RegroupText(GapText(f.before) + LiteralText(f.literal), GapText(f.after), [mark], FieldsText(fs[1..]), rest);
      Associates([Token('"', Value(f)), Token(mark, "")], FieldTokens(fs[1..]), Tokens(rest));
    }
  }

  lemma RegroupText(a: string, b: string, c: string, d: string, e: string)
    ensures (a + b + c + d) + e == a + (b + c + (d + e))
  {
  }

  lemma NoGap()
    ensures GapText([]) == ""
  {
  }

  lemma WhiteMark(g: Gap, c: char, rest: string)
    requires c == '{' || c == '}' || c == ','
    ensures White(GapText(g) + [c] + rest) == [c] + rest
  {
    hide White, GapText;
    WhiteGap(g, [c] + rest);
    WhiteIs([c] + rest);
    assert GapText(g) + [c] + rest == GapText(g) + ([c] + rest);
  }

  lemma TokensOfEnd(end: Ending)
    requires TailOk(end.tail)
    ensures Tokens(EndingText(end)) == [Token(NUL, "")]
  {
    hide White, GapText, TailText, TailOk;
    WhiteGap(end.gap, TailText(end.tail));
    WhiteTail(end.tail);
  }

  function EntryTokens(e: Entry): seq<Token> { [Token('{', "")] + FieldTokens(e.fields) }

  lemma TokensOfEntry(e: Entry, rest: string)
    ensures Tokens(EntryText(e) + rest) == EntryTokens(e) + Tokens(rest)
  {
    hide Tokens, GapText, FieldsText, FieldTokens;
    assert EntryText(e) + rest == GapText(e.before) + ['{'] + (FieldsText(e.fields) + rest);
    TokensMark(e.before, '{', FieldsText(e.fields) + rest);
    TokensOfFields(e.fields, rest);
    assert [Token('{', "")] + (FieldTokens(e.fields) + Tokens(rest)) == EntryTokens(e) + Tokens(rest);
  }

  /** The tokens of a file are those of its layout. */
  lemma {:induction false} TokensOfFile(es: File, trailing: bool, end: Ending)
    requires TailOk(end.tail)
    ensures Tokens(FileText(es, trailing, end)) == FileTokens(es, trailing)
  {
    hide Tokens, GapText, EntryText, EntryTokens;
    if es == [] {
      TokensOfEnd(end);
    } else {
      var e, more := es[0], FileText(es[1..], trailing, end);
      TokensOfFile(es[1..], trailing, end);
      if |es| > 1 || trailing {
        var behind := GapText(e.comma) + [','] + more;
        assert FileText(es, trailing, end) == EntryText(e) + behind;
        TokensMark(e.comma, ',', more);
        TokensOfEntry(e, behind);
        Associates(EntryTokens(e), [Token(',', "")], FileTokens(es[1..], trailing));
      } else {
        assert FileText(es, trailing, end) == EntryText(e) + more;
        TokensOfEntry(e, more);
        Associates(EntryTokens(e), [], FileTokens(es[1..], trailing));
      }
    }
  }

  lemma Associates(a: seq<Token>, b: seq<Token>, c: seq<Token>)
    ensures a + (b + c) == a + b + c
    ensures b == [] ==> b + c == c
  {
  }

  // ---------------------------------------------------------------------
  // Parsing the tokens

  /** The fields of `values` from the front replaced by those of `fs` */
  function Filled(values: seq<string>, fs: seq<Field>, n: nat): (r: seq<string>)
    requires n <= |fs| && |fs| == FIELDS && |values| == FIELDS
    ensures |r| == FIELDS
    ensures forall i :: 0 <= i < FIELDS ==> r[i] == if i < n then Value(fs[i]) else values[i]
  {
    if n == 0 then values else Filled(values, fs, n - 1)[n - 1 := Value(fs[n - 1])]
  }

  /** Nothing is wrong with the first `n` fields of an entry. */
  predicate Checked(values: seq<string>, fs: seq<Field>, n: nat, check: Check)
    requires n <= |fs| && |fs| == FIELDS && |values| == FIELDS
  {
    forall i :: 0 <= i < n ==> check(i, Filled(values, fs, i), Value(fs[i]))
  }

  /** The state in front of the `n`-th field of an entry, or behind its closing brace */
  ghost function At(s: State, e: Entry, n: nat, check: Check): (r: State)
    requires s.Valid() && |e.fields| == FIELDS && n <= FIELDS
    ensures r.Valid()
  {
    State(if n < FIELDS then 1 else 4, n, Filled(s.values, e.fields, n), s.ok && Checked(s.values, e.fields, n, check),
          if n < FIELDS then s.entries else s.entries + [SettingsOf(e)])
  }

  ghost predicate Ends(tokens: seq<Token>) { tokens != [] && tokens[|tokens| - 1].kind == NUL }

  lemma ParseOne(s: State, token: Token, more: seq<Token>, check: Check)
    requires s.Valid() && token.kind == Expected(s.state) && Ends(more)
    ensures Parse(s, [token] + more, check) == Parse(Step(s, token, check), more, check)
  {
    hide Parse, Step, Recovered;
    ParseIs(s, [token] + more, check);
    assert ([token] + more)[1..] == more;
  }

  function Mark(n: nat): Token { Token(if n < FIELDS - 1 then ',' else '}', "") }

  /** A string and the comma or brace behind it */
  lemma FieldSteps(s: State, e: Entry, n: nat, check: Check)
    requires s.Valid() && |e.fields| == FIELDS && n < FIELDS
    ensures var s1 := Step(At(s, e, n, check), Token('"', Value(e.fields[n])), check);
      Expected(s1.state) == Mark(n).kind && Step(s1, Mark(n), check) == At(s, e, n + 1, check)
  {
    hide Filled, SettingsOf, Checked, Value;
    FilledNext(s.values, e.fields, n, check);
    if n + 1 == FIELDS {
      AllFilled(s.values, e);
    }
  }

  lemma FieldTokensNext(e: Entry, n: nat)
    requires |e.fields| == FIELDS && n < FIELDS
    ensures FieldTokens(e.fields[n..]) == [Token('"', Value(e.fields[n])), Mark(n)] + FieldTokens(e.fields[n + 1..])
  {
    assert e.fields[n..][1..] == e.fields[n + 1..];
  }

  lemma {:induction false} ParseFieldsOf(s: State, e: Entry, n: nat, rest: seq<Token>, check: Check)
    requires s.Valid() && |e.fields| == FIELDS && n <= FIELDS && Ends(rest)
    ensures Parse(At(s, e, n, check), FieldTokens(e.fields[n..]) + rest, check)
        == Parse(At(s, e, FIELDS, check), rest, check)
    decreases FIELDS - n
  {
    hide Parse, Step, At, FieldTokens, Value;
    if n == FIELDS {
      NoTokens(e);
      assert FieldTokens(e.fields[n..]) + rest == rest;
    } else {
      var literal := Token('"', Value(e.fields[n]));
      var more := FieldTokens(e.fields[n + 1..]) + rest;
      FieldTokensNext(e, n);
      assert FieldTokens(e.fields[n..]) + rest == [literal] + ([Mark(n)] + more);
      FieldSteps(s, e, n, check);
      AtState(s, e, n, check);
      ParseOne(At(s, e, n, check), literal, [Mark(n)] + more, check);
      ParseOne(Step(At(s, e, n, check), literal, check), Mark(n), more, check);
      ParseFieldsOf(s, e, n + 1, rest, check);
    }
  }

  lemma NoTokens(e: Entry)
    requires |e.fields| == FIELDS
    ensures FieldTokens(e.fields[FIELDS..]) == []
  {
  }

  lemma AtState(s: State, e: Entry, n: nat, check: Check)
    requires s.Valid() && |e.fields| == FIELDS && n <= FIELDS
    ensures At(s, e, n, check).state == if n < FIELDS then 1 else 4
  {
  }

  lemma FilledNext(values: seq<string>, fs: seq<Field>, n: nat, check: Check)
    requires n < |fs| && |fs| == FIELDS && |values| == FIELDS
    ensures Filled(values, fs, n)[n := Value(fs[n])] == Filled(values, fs, n + 1)
    ensures Checked(values, fs, n + 1, check) ==
            (Checked(values, fs, n, check) && check(n, Filled(values, fs, n), Value(fs[n])))
  {
    hide Value;
  }

  lemma AllFilled(values: seq<string>, e: Entry)
    requires |e.fields| == FIELDS && |values| == FIELDS
    ensures var v := Filled(values, e.fields, FIELDS); SettingsOf(e) == Settings(v[0], v[1], v[2], v[3], v[4])
  {
    hide Value;
  }

  /** Nothing is wrong with the entries of a file. */
  ghost predicate FileChecked(values: seq<string>, es: File, check: Check)
    requires |values| == FIELDS
    decreases es
  {
    es == [] ||
    (&& Checked(values, es[0].fields, FIELDS, check)
     && FileChecked(Filled(values, es[0].fields, FIELDS), es[1..], check))
  }

  lemma {:induction false} FileTokensEnd(es: File, trailing: bool)
    ensures Ends(FileTokens(es, trailing))
  {
    hide FieldTokens;
    if es != [] {
      FileTokensEnd(es[1..], trailing);
    }
  }

  /** One entry, from its opening brace to its closing brace */
  lemma ParseEntry(s: State, e: Entry, rest: seq<Token>, check: Check)
    requires s.Valid() && s.state == 0 && |e.fields| == FIELDS && Ends(rest)
    ensures Parse(s, EntryTokens(e) + rest, check) == Parse(At(s, e, FIELDS, check), rest, check)
  {
    hide Parse, FieldTokens, Filled, At;
    assert EntryTokens(e) + rest == [Token('{', "")] + (FieldTokens(e.fields) + rest);
    assert e.fields[0..] == e.fields;
    AtStart(s, e, check);
    ParseOne(s, Token('{', ""), FieldTokens(e.fields) + rest, check);
    ParseFieldsOf(s, e, 0, rest, check);
  }

  lemma ParseEnd(s: State, check: Check)
    requires s.Valid() && (s.state == 0 || s.state == 4)
    ensures Parse(s, [Token(NUL, "")], check) == s
  {
  }

  lemma {:induction false} ParseEntries(s: State, es: File, trailing: bool, check: Check)
    requires s.Valid() && s.state == 0
    requires Ends(FileTokens(es, trailing))
    ensures var r := Parse(s, FileTokens(es, trailing), check);
      r.entries == s.entries + AllSettings(es) && r.ok == (s.ok && FileChecked(s.values, es, check))
    decreases es
  {
    hide Parse, EntryTokens, Filled, SettingsOf, Checked;
    if es == [] {
      ParseEnd(s, check);
      assert s.entries + [] == s.entries;
    } else {
      var e := es[0];
      var more := FileTokens(es[1..], trailing);
      FileTokensEnd(es[1..], trailing);
      var t := At(s, e, FIELDS, check);
      assert t.entries + AllSettings(es[1..]) == s.entries + AllSettings(es);
      if |es| > 1 || trailing {
        var comma := Token(',', "");
        Associates(EntryTokens(e), [comma], more);
        ParseEntry(s, e, [comma] + more, check);
        ParseOne(t, comma, more, check);
        ParseEntries(t.(state := 0), es[1..], trailing, check);
      } else {
        assert es[1..] == [];
        Associates(EntryTokens(e), [], more);
        ParseEntry(s, e, more, check);
        ParseEnd(t, check);
      }
    }
  }

  lemma AtStart(s: State, e: Entry, check: Check)
    requires s.Valid() && |e.fields| == FIELDS
    ensures s.(state := 1, field := 0) == At(s, e, 0, check)
  {
  }

  /** The parser on a text */
  function ParseText(text: Source, check: Check): State { Parse(Start(), Tokens(text), check) }

  /** A file read back: exactly its entries, in their order, whatever the layout, and
      no error but those of the checks. */
  lemma ReadBack(es: File, trailing: bool, end: Ending, check: Check)
    requires TailOk(end.tail)
    ensures var r := ParseText(FileText(es, trailing, end), check);
      r.entries == AllSettings(es) && r.ok == FileChecked(Start().values, es, check)
  {
    hide Parse, Tokens, FileText, FileTokens, FileChecked;
    TokensOfFile(es, trailing, end);
    FileTokensEnd(es, trailing);
    ParseEntries(Start(), es, trailing, check);
    assert [] + AllSettings(es) == AllSettings(es);
  }

  // ---------------------------------------------------------------------
  // Which entries can be written

  predicate NulFree(s: string) { NUL !in s }

  predicate Writable(e: Settings) {
    && NulFree(e.modelFamily) && NulFree(e.modelRegexp) && NulFree(e.firmwareRegexp)
    && NulFree(e.warningMsg) && NulFree(e.presets)
  }

  /** A string as one constant: quotes, backslashes and line ends escaped, the rest as it
      stands */
  function ChunkOf(s: string): (f: Chunk)
    requires NulFree(s)
    ensures ChunkValue(f) == s
  {
    if s == "" then [] else
    var c := s[0];
    [if c == '"' || c == '\\' then Quoted(c) else if c == '\n' then EscapedN else Raw(c)] + ChunkOf(s[1..])
  }

  function FieldOf(s: string): (f: Field)
    requires NulFree(s)
    ensures Value(f) == s
  {
    Field([], Literal(ChunkOf(s), []), [])
  }

  function EntryOf(e: Settings): (r: Entry)
    requires Writable(e)
    ensures |r.fields| == FIELDS && SettingsOf(r) == e
  {
    Entry([], [FieldOf(e.modelFamily), FieldOf(e.modelRegexp), FieldOf(e.firmwareRegexp), FieldOf(e.warningMsg),
               FieldOf(e.presets)], [])
  }

  function FileOf(es: seq<Settings>): (f: File)
    requires forall i :: 0 <= i < |es| ==> Writable(es[i])
    ensures AllSettings(f) == es
  {
    hide SettingsOf, Writable, EntryOf, AllSettings, Before;
    NoSettings();
    if es == [] then [] else Before(EntryOf(es[0]), FileOf(es[1..]))
  }

  /** One more entry in front of a file */
  function Before(e: Entry, es: File): (f: File)
    requires |e.fields| == FIELDS
    ensures AllSettings(f) == [SettingsOf(e)] + AllSettings(es)
  {
    hide SettingsOf;
    assert ([e] + es)[1..] == es;
    [e] + es
  }

  lemma NoSettings()
    ensures AllSettings([]) == []
  {
  }

  lemma {:induction false} ChunkNulFree(f: Chunk)
    ensures NulFree(ChunkValue(f))
  {
    if f != [] {
      ChunkNulFree(f[1..]);
      assert FormOk(f[0]);
    }
  }

  lemma {:induction false} PiecesNulFree(ps: seq<Piece>)
    ensures NulFree(PiecesValue(ps))
  {
    if ps != [] {
      ChunkNulFree(ps[0].chunk);
      PiecesNulFree(ps[1..]);
    }
  }

  lemma ValueNulFree(f: Field)
    ensures NulFree(Value(f))
  {
    ChunkNulFree(f.literal.first);
    PiecesNulFree(f.literal.more);
  }

  lemma {:induction false} FileWritable(es: File)
    ensures |AllSettings(es)| == |es|
    ensures forall i :: 0 <= i < |es| ==> Writable(AllSettings(es)[i])
  {
    hide Value, NulFree;
    if es != [] {
      FileWritable(es[1..]);
      ValueNulFree(es[0].fields[0]);
      ValueNulFree(es[0].fields[1]);
      ValueNulFree(es[0].fields[2]);
      ValueNulFree(es[0].fields[3]);
      ValueNulFree(es[0].fields[4]);
    }
  }

  /** A list of entries can be written as a file, and so be read back, exactly if its
      strings are free of NUL. */
  lemma WritableEntries(es: seq<Settings>)
    ensures (exists f: File :: AllSettings(f) == es) <==> forall i :: 0 <= i < |es| ==> Writable(es[i])
  {
    hide Writable, AllSettings;
    if forall i :: 0 <= i < |es| ==> Writable(es[i]) {
      assert AllSettings(FileOf(es)) == es;
    }
    forall f: File | AllSettings(f) == es
      ensures forall i :: 0 <= i < |es| ==> Writable(es[i])
    {
      FileWritable(f);
    }
  }

  /** Any such list comes back from the file that `FileOf` lays out. */
  lemma AnyEntriesReadBack(es: seq<Settings>, check: Check)
    requires forall i :: 0 <= i < |es| ==> Writable(es[i])
    ensures ParseText(FileText(FileOf(es), false, Ending([], Stop(""))), check).entries == es
  {
    hide Writable, AllSettings, FileText, Parse, Tokens, FileOf;
    ReadBack(FileOf(es), false, Ending([], Stop("")), check);
  }

  // ---------------------------------------------------------------------
  // Errors

  lemma {:induction false} RecoveredAt(broken: seq<Token>, rest: seq<Token>)
    requires forall i :: 0 <= i < |broken| ==> broken[i].kind != NUL && broken[i].kind != '{'
    requires rest != [] && rest[0].kind == '{'
    ensures Recovered(broken + rest) == rest
  {
    if broken == [] {
      assert broken + rest == rest;
    } else {
      assert (broken + rest)[1..] == broken[1..] + rest;
      RecoveredAt(broken[1..], rest);
    }
  }

  /** An unexpected token costs the entry it stands in, and no entry behind it. */
  lemma {:induction false} LaterEntriesSurvive(s: State, broken: seq<Token>, es: File, trailing: bool, check: Check)
    requires s.Valid() && es != [] && broken != [] && broken[0].kind != Expected(s.state)
    requires forall i :: 0 <= i < |broken| ==> broken[i].kind != NUL && broken[i].kind != '{'
    requires Ends(broken + FileTokens(es, trailing))
    ensures var r := Parse(s, broken + FileTokens(es, trailing), check);
      r.entries == s.entries + AllSettings(es) && !r.ok
  {
    hide Parse, FieldTokens, Recovered, AllSettings, FileChecked;
    var file := FileTokens(es, trailing);
    FileTokensEnd(es, trailing);
    ParseIs(s, broken + file, check);
    RecoveredAt(broken, file);
    ParseEntries(s.(ok := false, state := 0), es, trailing, check);
  }
}
