/** JSON texts of strings, arrays and objects: a writer of token sequences, a reader of
    texts, and a proof that the reader accepts exactly what the writer can write.

    Escapes are not decoded: a string that would need one is not read. Numbers, booleans
    and null do not occur in policy documents and are not read either.
 */
module Json {

  import opened Errors

  datatype Value = Str(text: string) | Array(items: seq<Value>) | Object(fields: seq<Field>)

  datatype Field = Field(name: string, value: Value)

  datatype Token = LeftBrace | RightBrace | LeftBracket | RightBracket | Colon | Comma | Text(text: string)

  // ---------------------------------------------------------------------------------
  // Values as tokens
  // ---------------------------------------------------------------------------------

  function Tokens(v: Value): seq<Token> {
    match v
    case Str(text) => [Text(text)]
    case Array(items) => [LeftBracket] + ItemTokens(items) + [RightBracket]
    case Object(fields) => [LeftBrace] + FieldTokens(fields) + [RightBrace]
  }

  function ItemTokens(items: seq<Value>): seq<Token> {
    if items == [] then []
    else if |items| == 1 then Tokens(items[0])
    else Tokens(items[0]) + [Comma] + ItemTokens(items[1..])
  }

  function FieldTokens(fields: seq<Field>): seq<Token> {
    if fields == [] then []
    else if |fields| == 1 then [Text(fields[0].name), Colon] + Tokens(fields[0].value)
    else [Text(fields[0].name), Colon] + Tokens(fields[0].value) + [Comma] + FieldTokens(fields[1..])
  }

  // ---------------------------------------------------------------------------------
  // Reading tokens
  // ---------------------------------------------------------------------------------

  /** What was read, and the tokens after it. */
  datatype Parsed<+T> = Parsed(value: T, rest: seq<Token>)

  function ParseValue(ts: seq<Token>): (r: Option<Parsed<Value>>)
    ensures r.Some? ==> |r.value.rest| < |ts|
    decreases |ts|, 0
  {
    if ts == [] then None
    else
      match ts[0]
      case Text(text) => Some(Parsed(Str(text), ts[1..]))
      case LeftBracket =>
        if |ts| > 1 && ts[1] == RightBracket then Some(Parsed(Array([]), ts[2..]))
        else (match ParseItems(ts[1..])
              case None => None
              case Some(p) => Some(Parsed(Array(p.value), p.rest)))
      case LeftBrace =>
        if |ts| > 1 && ts[1] == RightBrace then Some(Parsed(Object([]), ts[2..]))
        else (match ParseFields(ts[1..])
              case None => None
              case Some(p) => Some(Parsed(Object(p.value), p.rest)))
      case _ => None
  }

  /** One or more values, separated by commas, up to the closing bracket. */
  function ParseItems(ts: seq<Token>): (r: Option<Parsed<seq<Value>>>)
    ensures r.Some? ==> |r.value.rest| < |ts|
    decreases |ts|, 1
  {
    match ParseValue(ts)
    case None => None
    case Some(first) =>
      if first.rest == [] then None
      else
        match first.rest[0]
        case RightBracket => Some(Parsed([first.value], first.rest[1..]))
        case Comma =>
          (match ParseItems(first.rest[1..])
           case None => None
           case Some(p) => Some(Parsed([first.value] + p.value, p.rest)))
        case _ => None
  }

  /** One or more fields, separated by commas, up to the closing brace. */
  function ParseFields(ts: seq<Token>): (r: Option<Parsed<seq<Field>>>)
    ensures r.Some? ==> |r.value.rest| < |ts|
    decreases |ts|, 1
  {
    if |ts| < 2 || !ts[0].Text? || ts[1] != Colon then None
    else
      match ParseValue(ts[2..])
      case None => None
      case Some(first) =>
        if first.rest == [] then None
        else
          match first.rest[0]
          case RightBrace => Some(Parsed([Field(ts[0].text, first.value)], first.rest[1..]))
          case Comma =>
            (match ParseFields(first.rest[1..])
             case None => None
             case Some(p) => Some(Parsed([Field(ts[0].text, first.value)] + p.value, p.rest)))
          case _ => None
  }

  // ---------------------------------------------------------------------------------
  // The reader of tokens inverts the writer
  // ---------------------------------------------------------------------------------

  lemma {:induction false} ReadsBackValue(v: Value, rest: seq<Token>)
    ensures ParseValue(Tokens(v) + rest) == Some(Parsed(v, rest))
    decreases v, 0
  {
    var ts := Tokens(v) + rest;
    match v
    case Str(text) =>
    case Array(items) =>
      assert ts[1..] == ItemTokens(items) + ([RightBracket] + rest);
      if items == [] {
        assert ts[2..] == rest;
      } else {
        FirstOfItems(items);
        ReadsBackItems(items, rest);
      }
    case Object(fields) =>
      assert ts[1..] == FieldTokens(fields) + ([RightBrace] + rest);
      if fields == [] {
        assert ts[2..] == rest;
      } else {
        ReadsBackFields(fields, rest);
      }
  }

  lemma FirstOfItems(items: seq<Value>)
    requires items != []
    ensures ItemTokens(items) != [] && ItemTokens(items)[0] != RightBracket
  {
    assert Tokens(items[0]) != [] && Tokens(items[0])[0] != RightBracket;
  }

  /** One item or field read, and what its reader does next. */
  lemma {:induction false} ItemsStep(ts: seq<Token>, v: Value, rest: seq<Token>)
    requires ParseValue(ts) == Some(Parsed(v, rest))
    ensures rest != [] && rest[0] == RightBracket ==> ParseItems(ts) == Some(Parsed([v], rest[1..]))
    ensures rest != [] && rest[0] == Comma && ParseItems(rest[1..]).Some? ==>
      ParseItems(ts) == Some(Parsed([v] + ParseItems(rest[1..]).value.value, ParseItems(rest[1..]).value.rest))
  {
  }

  lemma {:induction false} FieldsStep(name: string, ts: seq<Token>, v: Value, rest: seq<Token>)
    requires ParseValue(ts) == Some(Parsed(v, rest))
    ensures var all := [Text(name), Colon] + ts;
      && (rest != [] && rest[0] == RightBrace ==> ParseFields(all) == Some(Parsed([Field(name, v)], rest[1..])))
      && (rest != [] && rest[0] == Comma && ParseFields(rest[1..]).Some? ==>
            ParseFields(all) == Some(Parsed([Field(name, v)] + ParseFields(rest[1..]).value.value,
                                            ParseFields(rest[1..]).value.rest)))
  {
    var all := [Text(name), Colon] + ts;
    assert all[2..] == ts;
  }

  lemma Associative<T>(a: seq<T>, b: seq<T>, c: seq<T>)
    ensures (a + b) + c == a + (b + c)
  {
  }

  lemma Enclosed<T>(open: T, inner: seq<T>, close: T, rest: seq<T>)
    ensures [open] + (inner + ([close] + rest)) == [open] + inner + [close] + rest
  {
  }

  lemma Regroup<T>(a: seq<T>, b: seq<T>, c: seq<T>, d: seq<T>)
    ensures a + b + c + d == a + (b + (c + d))
  {
  }

  lemma {:induction false} ReadsBackItems(items: seq<Value>, rest: seq<Token>)
    requires items != []
    ensures ParseItems(ItemTokens(items) + ([RightBracket] + rest)) == Some(Parsed(items, rest))
    decreases items, |items|
  {
    var close := [RightBracket] + rest;
    if |items| == 1 {
      ReadsBackValue(items[0], close);
      ItemsStep(Tokens(items[0]) + close, items[0], close);
      assert close[1..] == rest && items == [items[0]];
    } else {
      var more := ItemTokens(items[1..]) + close;
      Regroup(Tokens(items[0]), [Comma], ItemTokens(items[1..]), close);
      ReadsBackValue(items[0], [Comma] + more);
      ReadsBackItems(items[1..], rest);
      assert ([Comma] + more)[1..] == more;
      ItemsStep(Tokens(items[0]) + ([Comma] + more), items[0], [Comma] + more);
      assert items == [items[0]] + items[1..];
    }
  }

  lemma {:induction false} ReadsBackFields(fields: seq<Field>, rest: seq<Token>)
    requires fields != []
    ensures ParseFields(FieldTokens(fields) + ([RightBrace] + rest)) == Some(Parsed(fields, rest))
    decreases fields, |fields|
  {
    var close, f := [RightBrace] + rest, fields[0];
    if |fields| == 1 {
      ReadsBackValue(f.value, close);
      FieldsStep(f.name, Tokens(f.value) + close, f.value, close);
      assert close[1..] == rest && fields == [f];
      Regroup([Text(f.name), Colon], Tokens(f.value), close, []);
      assert close + [] == close;
      assert FieldTokens(fields) + close == [Text(f.name), Colon] + (Tokens(f.value) + close);
    } else {
      var more := FieldTokens(fields[1..]) + close;
      ReadsBackValue(f.value, [Comma] + more);
      ReadsBackFields(fields[1..], rest);
      assert ([Comma] + more)[1..] == more;
      FieldsStep(f.name, Tokens(f.value) + ([Comma] + more), f.value, [Comma] + more);
      assert fields == [f] + fields[1..];
      FieldTokensUnfold(fields, close);
    }
  }

  lemma FieldTokensUnfold(fields: seq<Field>, close: seq<Token>)
    requires |fields| > 1
    ensures FieldTokens(fields) + close
         == [Text(fields[0].name), Colon]
            + (Tokens(fields[0].value) + ([Comma] + (FieldTokens(fields[1..]) + close)))
  {
  }

  lemma {:induction false} ReadsOnlyValues(ts: seq<Token>)
    requires ParseValue(ts).Some?
    ensures var p := ParseValue(ts).value; ts == Tokens(p.value) + p.rest
    decreases |ts|, 0
  {
    var more := ts[1..];
    assert ts == [ts[0]] + more;
    if ts[0].Text? {
      assert Tokens(ParseValue(ts).value.value) == [ts[0]];
    } else if EmptyFirst(ts) {
      ReadsOnlyEmpty(ts);
    } else if ts[0] == LeftBracket {
      ReadsOnlyItems(more);
      var p := ParseItems(more).value;
      Enclosed(LeftBracket, ItemTokens(p.value), RightBracket, p.rest);
    } else {
      ReadsOnlyFields(more);
      var p := ParseFields(more).value;
      Enclosed(LeftBrace, FieldTokens(p.value), RightBrace, p.rest);
    }
  }

  /** The tokens begin with an empty array or object. */
  predicate EmptyFirst(ts: seq<Token>) {
    |ts| > 1 && ((ts[0] == LeftBracket && ts[1] == RightBracket) || (ts[0] == LeftBrace && ts[1] == RightBrace))
  }

  lemma {:induction false} ReadsOnlyEmpty(ts: seq<Token>)
    requires EmptyFirst(ts)
    ensures ParseValue(ts).Some?
    ensures var p := ParseValue(ts).value; ts == Tokens(p.value) + p.rest
  {
    assert ts == [ts[0]] + [] + [ts[1]] + ts[2..];
  }

  lemma {:induction false} ReadsOnlyItems(ts: seq<Token>)
    requires ParseItems(ts).Some?
    ensures var p := ParseItems(ts).value;
      p.value != [] && ts == ItemTokens(p.value) + ([RightBracket] + p.rest)
    decreases |ts|, 1
  {
    var first := ParseValue(ts).value;
    ReadsOnlyValues(ts);
    ItemsStep(ts, first.value, first.rest);
    assert first.rest == [first.rest[0]] + first.rest[1..];
    if first.rest[0] == Comma {
      ReadsOnlyItems(first.rest[1..]);
      var p := ParseItems(first.rest[1..]).value;
      var items := [first.value] + p.value;
      assert items[0] == first.value && items[1..] == p.value;
      Regroup(Tokens(items[0]), [Comma], ItemTokens(p.value), [RightBracket] + p.rest);
    }
  }

  lemma {:induction false} FirstFieldRead(ts: seq<Token>)
    requires ParseFields(ts).Some?
    ensures |ts| >= 2 && ts[0].Text? && ParseValue(ts[2..]).Some? && ParseValue(ts[2..]).value.rest != []
    ensures ts == [Text(ts[0].text), Colon] + ts[2..]
    ensures var rest := ParseValue(ts[2..]).value.rest;
      rest[0] == RightBrace || (rest[0] == Comma && ParseFields(rest[1..]).Some?)
  {
  }

  lemma OneFieldTokens(f: Field, close: seq<Token>)
    ensures FieldTokens([f]) + close == [Text(f.name), Colon] + (Tokens(f.value) + close)
  {
    Associative([Text(f.name), Colon], Tokens(f.value), close);
  }

  lemma {:induction false} ReadsOnlyFields(ts: seq<Token>)
    requires ParseFields(ts).Some?
    ensures var p := ParseFields(ts).value;
      p.value != [] && ts == FieldTokens(p.value) + ([RightBrace] + p.rest)
    decreases |ts|, 1
  {
    FirstFieldRead(ts);
    var f, rest := Field(ts[0].text, ParseValue(ts[2..]).value.value), ParseValue(ts[2..]).value.rest;
    ReadsOnlyValues(ts[2..]);
    FieldsStep(f.name, ts[2..], f.value, rest);
    assert rest == [rest[0]] + rest[1..];
    if rest[0] == Comma {
      ReadsOnlyFields(rest[1..]);
      var p := ParseFields(rest[1..]).value;
      var fields := [f] + p.value;
      assert fields[0] == f && fields[1..] == p.value;
      FieldTokensUnfold(fields, [RightBrace] + p.rest);
    } else {
      OneFieldTokens(f, rest);
    }
  }

  /** The reader of tokens accepts exactly what the writer writes, and gives it back. */
  lemma ParseIffTokens(ts: seq<Token>, v: Value, rest: seq<Token>)
    ensures ParseValue(ts) == Some(Parsed(v, rest)) <==> ts == Tokens(v) + rest
  {
    ReadsBackValue(v, rest);
    if ParseValue(ts).Some? { ReadsOnlyValues(ts); }
  }

  // ---------------------------------------------------------------------------------
  // From text to tokens
  // ---------------------------------------------------------------------------------

  predicate Blank(c: char) { c in " \t\n\r" }

  function Mark(c: char): Option<Token> {
    match c
    case '{' => Some(LeftBrace)
    case '}' => Some(RightBrace)
    case '[' => Some(LeftBracket)
    case ']' => Some(RightBracket)
    case ':' => Some(Colon)
    case ',' => Some(Comma)
    case _ => None
  }

  /** A character that JSON does not let stand for itself in a string. */
  predicate Special(c: char) { c == '"' || c == '\\' || c < ' ' }

  predicate Verbatim(s: string) { forall c :: c in s ==> !Special(c) }

  /** The rest of a string after its opening quotation mark, and the text after it. */
  function LexString(text: string): (r: Option<(string, string)>)
    ensures r.Some? ==> |r.value.1| < |text|
  {
    if text == "" then None
    else if text[0] == '"' then Some(("", text[1..]))
    else if Special(text[0]) then None
    else
      match LexString(text[1..])
      case None => None
      case Some(p) => Some(([text[0]] + p.0, p.1))
  }

  function Prepend(t: Token, ts: Option<seq<Token>>): Option<seq<Token>> {
    if ts.Some? then Some([t] + ts.value) else None
  }

  function Lex(text: string): Option<seq<Token>>
    decreases |text|
  {
    if text == "" then Some([])
    else if Blank(text[0]) then Lex(text[1..])
    else if text[0] == '"' then
      match LexString(text[1..])
      case None => None
      case Some(p) => Prepend(Text(p.0), Lex(p.1))
    else if Mark(text[0]).Some? then Prepend(Mark(text[0]).value, Lex(text[1..]))
    else None
  }

  /** The value that a text spells. */
  function Parse(text: string): Option<Value> {
    match Lex(text)
    case None => None
    case Some(ts) =>
      match ParseValue(ts)
      case None => None
      case Some(p) => if p.rest == [] then Some(p.value) else None
  }

  lemma ParseIffLex(text: string, v: Value)
    ensures Parse(text) == Some(v) <==> Lex(text) == Some(Tokens(v))
  {
    if Lex(text).Some? {
      ParseIffTokens(Lex(text).value, v, []);
      assert Tokens(v) + [] == Tokens(v);
    }
  }

  // ---------------------------------------------------------------------------------
  // Texts made of marks and quoted strings
  // ---------------------------------------------------------------------------------

  /** Marks and white space, and then a quoted string. */
  datatype Chunk = Chunk(marks: string, text: string)

  function Rendered(chunks: seq<Chunk>, tail: string): string {
    if chunks == [] then tail
    else chunks[0].marks + "\"" + chunks[0].text + "\"" + Rendered(chunks[1..], tail)
  }

  predicate OnlyMarks(s: string) { forall c :: c in s ==> Blank(c) || Mark(c).Some? }

  function MarkTokens(s: string): seq<Token> {
    if s == "" then []
    else (if Mark(s[0]).Some? then [Mark(s[0]).value] else []) + MarkTokens(s[1..])
  }

  lemma MarkTokensCons(c: char, s: string)
    ensures MarkTokens([c] + s) == (if Mark(c).Some? then [Mark(c).value] else []) + MarkTokens(s)
  {
    assert ([c] + s)[1..] == s;
  }

  lemma {:induction false} MarkTokensAppend(a: string, b: string)
    ensures MarkTokens(a + b) == MarkTokens(a) + MarkTokens(b)
  {
    if a == "" {
      assert a + b == b;
    } else {
      MarkTokensAppend(a[1..], b);
      Associative([a[0]], a[1..], b);
      assert a == [a[0]] + a[1..];
      MarkTokensCons(a[0], a[1..]);
      MarkTokensCons(a[0], a[1..] + b);
      Associative(if Mark(a[0]).Some? then [Mark(a[0]).value] else [], MarkTokens(a[1..]), MarkTokens(b));
    }
  }

  lemma MarksAppend(a: string, b: string)
    ensures MarkTokens(a + b) == MarkTokens(a) + MarkTokens(b)
    ensures OnlyMarks(a) && OnlyMarks(b) ==> OnlyMarks(a + b)
  {
    MarkTokensAppend(a, b);
  }

  function ChunkTokens(chunks: seq<Chunk>): seq<Token> {
    if chunks == [] then []
    else MarkTokens(chunks[0].marks) + [Text(chunks[0].text)] + ChunkTokens(chunks[1..])
  }

  function After(ts: seq<Token>, more: Option<seq<Token>>): Option<seq<Token>> {
    if more.Some? then Some(ts + more.value) else None
  }

  lemma AfterAfter(a: seq<Token>, b: seq<Token>, more: Option<seq<Token>>)
    ensures After(a, After(b, more)) == After(a + b, more)
    ensures After([], more) == more
  {
    if more.Some? { assert a + (b + more.value) == a + b + more.value && [] + more.value == more.value; }
  }

  lemma LexMark(c: char, rest: string)
    requires Blank(c) || Mark(c).Some?
    ensures Lex([c] + rest) == After(if Mark(c).Some? then [Mark(c).value] else [], Lex(rest))
  {
    assert ([c] + rest)[1..] == rest;
    AfterAfter([], [], Lex(rest));
  }

  lemma {:induction false} LexMarks(s: string, rest: string)
    requires OnlyMarks(s)
    ensures Lex(s + rest) == After(MarkTokens(s), Lex(rest))
  {
    if s == "" {
      assert s + rest == rest;
      AfterAfter([], [], Lex(rest));
    } else {
      assert s + rest == [s[0]] + (s[1..] + rest) && s[0] in s;
      LexMark(s[0], s[1..] + rest);
      LexMarks(s[1..], rest);
      AfterAfter(if Mark(s[0]).Some? then [Mark(s[0]).value] else [], MarkTokens(s[1..]), Lex(rest));
    }
  }

  lemma {:induction false} LexPlainString(s: string, rest: string)
    requires Verbatim(s)
    ensures LexString(s + "\"" + rest) == Some((s, rest))
  {
    var text := s + "\"" + rest;
    if s == "" {
      assert text[0] == '"' && text[1..] == rest;
    } else {
      assert text[0] == s[0] && s[0] in s && text[1..] == s[1..] + "\"" + rest;
      assert Verbatim(s[1..]);
      LexPlainString(s[1..], rest);
      assert [s[0]] + s[1..] == s;
    }
  }

  /** A string with a special character in it is not read, or is cut short. */
  lemma {:induction false} LexSpecialString(s: string, rest: string)
    requires !Verbatim(s)
    ensures var r := LexString(s + rest); r.Some? ==> |r.value.0| < |s|
  {
    var text := s + rest;
    assert text[0] == s[0] && text[1..] == s[1..] + rest;
    if !Special(s[0]) {
      assert s == [s[0]] + s[1..];
      LexSpecialString(s[1..], rest);
    }
  }

  lemma {:induction false} ChunksAppend(a: seq<Chunk>, b: seq<Chunk>)
    ensures ChunkTokens(a + b) == ChunkTokens(a) + ChunkTokens(b)
  {
    if a == [] {
      assert a + b == b;
    } else {
      assert (a + b)[1..] == a[1..] + b;
      ChunksAppend(a[1..], b);
    }
  }

  lemma {:induction false} RenderedAppend(a: seq<Chunk>, b: seq<Chunk>, tail: string)
    ensures Rendered(a + b, tail) == Rendered(a, Rendered(b, tail))
  {
    if a == [] {
      assert a + b == b;
    } else {
      assert (a + b)[1..] == a[1..] + b;
      RenderedAppend(a[1..], b, tail);
    }
  }

  lemma SpoiledString(s: string, more: string)
    requires !Verbatim(s)
    ensures var r := Lex("\"" + s + more);
      r.Some? ==> r.value != [] && r.value[0].Text? && |r.value[0].text| < |s|
  {
    var text := "\"" + s + more;
    assert text[0] == '"' && text[1..] == s + more;
    LexSpecialString(s, more);
  }

  ghost predicate WellMade(chunks: seq<Chunk>) {
    forall c :: c in chunks ==> OnlyMarks(c.marks) && Verbatim(c.text)
  }

  lemma LexQuoted(s: string, rest: string)
    requires Verbatim(s)
    ensures Lex("\"" + s + "\"" + rest) == After([Text(s)], Lex(rest))
  {
    var text := "\"" + s + "\"" + rest;
    assert text[0] == '"' && text[1..] == s + "\"" + rest;
    LexPlainString(s, rest);
  }

  lemma {:induction false} LexChunks(chunks: seq<Chunk>, tail: string)
    requires WellMade(chunks)
    ensures Lex(Rendered(chunks, tail)) == After(ChunkTokens(chunks), Lex(tail))
  {
    if chunks == [] {
      AfterAfter([], [], Lex(tail));
    } else {
      var c, more := chunks[0], Rendered(chunks[1..], tail);
      assert Rendered(chunks, tail) == c.marks + ("\"" + c.text + "\"" + more);
      LexMarks(c.marks, "\"" + c.text + "\"" + more);
      LexQuoted(c.text, more);
      LexChunks(chunks[1..], tail);
      AfterAfter([Text(c.text)], ChunkTokens(chunks[1..]), Lex(tail));
      AfterAfter(MarkTokens(c.marks), [Text(c.text)] + ChunkTokens(chunks[1..]), Lex(tail));
      assert MarkTokens(c.marks) + ([Text(c.text)] + ChunkTokens(chunks[1..])) == ChunkTokens(chunks);
    }
  }

  /** A quoted string ends at the next quotation mark, with nothing special before it. */
  lemma {:induction false} LexesOnlyVerbatim(text: string)
    requires LexString(text).Some?
    ensures var (s, rest) := LexString(text).value; Verbatim(s) && text == s + "\"" + rest
  {
    if text[0] == '"' {
      assert text == "" + "\"" + text[1..];
    } else {
      LexesOnlyVerbatim(text[1..]);
      var (s, rest) := LexString(text[1..]).value;
      assert text == [text[0]] + text[1..];
      assert [text[0]] + (s + "\"" + rest) == ([text[0]] + s) + "\"" + rest;
    }
  }

  lemma {:induction false} FirstRendered(chunks: seq<Chunk>, tail: string)
    requires chunks != []
    ensures Rendered(chunks, tail)
         == chunks[0].marks + ("\"" + chunks[0].text + "\"" + Rendered(chunks[1..], tail))
  {
  }

  /** One more mark in front of a text of marks and strings. */
  lemma {:induction false} MarkInFront(c: char, chunks: seq<Chunk>, tail: string)
    returns (chunks': seq<Chunk>, tail': string)
    requires Blank(c) || Mark(c).Some?
    requires WellMade(chunks) && OnlyMarks(tail)
    ensures WellMade(chunks') && OnlyMarks(tail') && Rendered(chunks', tail') == [c] + Rendered(chunks, tail)
  {
    if chunks == [] {
      chunks', tail' := [], [c] + tail;
    } else {
      var first := chunks[0].(marks := [c] + chunks[0].marks);
      chunks', tail' := [first] + chunks[1..], tail;
      FirstRendered(chunks, tail);
      FirstRendered(chunks', tail);
      assert chunks'[1..] == chunks[1..];
      Associative([c], chunks[0].marks, "\"" + first.text + "\"" + Rendered(chunks[1..], tail));
    }
  }

  lemma StringInFront(s: string, chunks: seq<Chunk>, tail: string) returns (chunks': seq<Chunk>)
    requires Verbatim(s) && WellMade(chunks)
    ensures WellMade(chunks') && Rendered(chunks', tail) == "\"" + s + "\"" + Rendered(chunks, tail)
  {
    chunks' := [Chunk("", s)] + chunks;
    assert chunks'[1..] == chunks;
    assert "" + ("\"" + s + "\"" + Rendered(chunks, tail)) == "\"" + s + "\"" + Rendered(chunks, tail);
  }

  /** The reader of texts takes nothing but marks, white space and quoted strings. */
  lemma {:induction false} LexesOnlyRendered(text: string) returns (chunks: seq<Chunk>, tail: string)
    requires Lex(text).Some?
    ensures WellMade(chunks) && OnlyMarks(tail) && text == Rendered(chunks, tail)
    ensures Lex(text) == Some(ChunkTokens(chunks) + MarkTokens(tail))
    decreases |text|
  {
    if text == "" {
      chunks, tail := [], "";
    } else if text[0] == '"' {
      LexesOnlyVerbatim(text[1..]);
      var (s, rest) := LexString(text[1..]).value;
      var cs, tl := LexesOnlyRendered(rest);
      chunks := StringInFront(s, cs, tl);
      tail := tl;
      assert text == "\"" + (s + "\"" + rest) && "\"" + (s + "\"" + rest) == "\"" + s + "\"" + rest;
    } else {
      var cs, tl := LexesOnlyRendered(text[1..]);
      chunks, tail := MarkInFront(text[0], cs, tl);
      assert text == [text[0]] + text[1..];
    }
    LexChunks(chunks, tail);
    LexMarks(tail, "");
    assert tail + "" == tail && MarkTokens(tail) + [] == MarkTokens(tail);
  }

  /** The characters between the strings, and inside them. */
  lemma MarksAndStrings(chunks: seq<Chunk>, tail: string)
    requires WellMade(chunks) && OnlyMarks(tail)
    ensures forall c :: c in tail ==> c in " \t\n\r{}[]:,"
    ensures forall k, c :: k in chunks && c in k.marks ==> c in " \t\n\r{}[]:,"
    ensures forall k, c :: k in chunks && c in k.text ==> c != '"' && c != '\\' && c >= ' '
  {
    assert forall c :: Blank(c) || Mark(c).Some? ==> c in " \t\n\r{}[]:,";
  }
}
