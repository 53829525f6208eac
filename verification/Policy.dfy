/** The inline policy that a grant attaches to its user (pkg/clients/iam/iam_client.go),
    and what that policy allows.

    The document is modelled as text. To say what it grants, the text is read as JSON, and
    its action and resource strings are matched as IAM matches them, with `*` standing for
    any characters and `?` for any single one. A text that is not JSON grants nothing.
 */
module Policy {

  import opened Errors
  import opened Json

  // ---------------------------------------------------------------------------------
  // Writing the document
  // ---------------------------------------------------------------------------------

  const ARN_PREFIX := "arn:aws:s3:::"

  /** A line break and `n` times the indentation. */
  function Indent(tab: string, n: nat): string {
    if n == 0 then "\n" else Indent(tab, n - 1) + tab
  }

  function TopChunks(tab: string): seq<Chunk> {
    [ Chunk("{" + Indent(tab, 2), "Version"), Chunk(": ", "2012-10-17"), Chunk("," + Indent(tab, 2), "Statement") ]
  }

  function StatementChunks(tab: string): seq<Chunk> {
    [ Chunk(": [" + Indent(tab, 3) + ("{" + Indent(tab, 4)), "Effect"), Chunk(": ", "Allow"),
      Chunk("," + Indent(tab, 4), "Action"), Chunk(": ", "s3:*"), Chunk("," + Indent(tab, 4), "Resource") ]
  }

  function ResourceChunks(tab: string, bucket: string): seq<Chunk> {
    [ Chunk(": [" + Indent(tab, 5), ARN_PREFIX + bucket), Chunk("," + Indent(tab, 5), ARN_PREFIX + bucket + "/*") ]
  }

  function Tail(tab: string): string {
    (Indent(tab, 4) + "]") + (Indent(tab, 3) + "}") + ((Indent(tab, 2) + "]") + (Indent(tab, 1) + "}"))
  }

  function Layout(tab: string, bucket: string): string {
    Rendered(TopChunks(tab) + StatementChunks(tab) + ResourceChunks(tab, bucket), Tail(tab))
  }

  /** The policy document for a bucket: the name is pasted in twice, unescaped. */
  function Document(bucket: string): string {
    Layout("\t", bucket)
  }

  // ---------------------------------------------------------------------------------
  // Reading a document
  // ---------------------------------------------------------------------------------

  datatype Statement = Statement(effect: string, action: string, resources: seq<string>)

  /** The value of the first field of that name. */
  function Lookup(fields: seq<Field>, name: string): Option<Value> {
    if fields == [] then None
    else if fields[0].name == name then Some(fields[0].value)
    else Lookup(fields[1..], name)
  }

  function Texts(items: seq<Value>): Option<seq<string>> {
    if items == [] then Some([])
    else if items[0].Str? && Texts(items[1..]).Some? then Some([items[0].text] + Texts(items[1..]).value)
    else None
  }

  function ReadStatement(v: Value): Option<Statement> {
    if v.Object? then
      match (Lookup(v.fields, "Effect"), Lookup(v.fields, "Action"), Lookup(v.fields, "Resource"))
      case (Some(Str(effect)), Some(Str(action)), Some(Array(items))) =>
        if Texts(items).Some? then Some(Statement(effect, action, Texts(items).value)) else None
      case _ => None
    else None
  }

  /** The statement of a policy that holds a single one. */
  function ReadPolicy(v: Value): Option<Statement> {
    if v.Object? then
      match (Lookup(v.fields, "Version"), Lookup(v.fields, "Statement"))
      case (Some(Str(version)), Some(Array(statements))) =>
        if version == "2012-10-17" && |statements| == 1 then ReadStatement(statements[0]) else None
      case _ => None
    else None
  }

  function Read(document: string): Option<Statement> {
    match Parse(document)
    case None => None
    case Some(v) => ReadPolicy(v)
  }

  /** IAM's wildcard matching of a pattern. */
  predicate Matches(pattern: string, s: string)
    decreases |pattern| + |s|
  {
    if pattern == "" then s == ""
    else if pattern[0] == '*' then Matches(pattern[1..], s) || (s != "" && Matches(pattern, s[1..]))
    else s != "" && (pattern[0] == '?' || pattern[0] == s[0]) && Matches(pattern[1..], s[1..])
  }

  predicate Allows(document: string, action: string, arn: string) {
    && Read(document).Some?
    && Read(document).value.effect == "Allow"
    && Matches(Read(document).value.action, action)
    && exists r :: r in Read(document).value.resources && Matches(r, arn)
  }

  function BucketArn(bucket: string): string { ARN_PREFIX + bucket }

  function ObjectArn(bucket: string, key: string): string { ARN_PREFIX + bucket + "/" + key }

  predicate S3Action(action: string) { "s3:" <= action }

  // ---------------------------------------------------------------------------------
  // Reading back what was written
  // ---------------------------------------------------------------------------------

  /** The JSON object that the document is meant to be. */
  function Intended(bucket: string): Value {
    Object([ Field("Version", Str("2012-10-17")), Field("Statement", Array([IntendedStatement(bucket)])) ])
  }

  function IntendedStatement(bucket: string): Value {
    Object([ Field("Effect", Str("Allow")), Field("Action", Str("s3:*")),
             Field("Resource", Array([Str(ARN_PREFIX + bucket), Str(ARN_PREFIX + bucket + "/*")])) ])
  }

  // The tokens of both, given the quoted strings as tokens.

  function TopTokens(v: seq<Token>, date: seq<Token>, s: seq<Token>): seq<Token> {
    [LeftBrace] + v + ([Colon] + date + ([Comma] + s))
  }

  function StatementTokens(e: seq<Token>, allow: seq<Token>, a: seq<Token>, all: seq<Token>, r: seq<Token>)
    : seq<Token>
  {
    [Colon, LeftBracket, LeftBrace] + e + ([Colon] + allow + ([Comma] + a + ([Colon] + all + ([Comma] + r))))
  }

  function ResourceTokens(x: seq<Token>, y: seq<Token>): seq<Token> {
    [Colon, LeftBracket] + x + ([Comma] + y)
  }

  const TAIL_TOKENS: seq<Token> := [RightBracket, RightBrace, RightBracket, RightBrace]

  function HeadTokens(): seq<Token> {
    TopTokens([Text("Version")], [Text("2012-10-17")], [Text("Statement")])
    + StatementTokens([Text("Effect")], [Text("Allow")], [Text("Action")], [Text("s3:*")], [Text("Resource")])
  }

  function DocumentTokens(bucket: string): seq<Token> {
    HeadTokens() + ResourceTokens([Text(ARN_PREFIX + bucket)], [Text(ARN_PREFIX + bucket + "/*")]) + TAIL_TOKENS
  }

  lemma OneField(name: string, v: Value)
    ensures FieldTokens([Field(name, v)]) == [Text(name)] + [Colon] + Tokens(v)
  {
  }

  lemma MoreFields(name: string, v: Value, fields: seq<Field>)
    requires fields != []
    ensures FieldTokens([Field(name, v)] + fields)
         == [Text(name)] + [Colon] + Tokens(v) + [Comma] + FieldTokens(fields)
  {
    assert ([Field(name, v)] + fields)[1..] == fields;
  }

  lemma TwoStrings(a: string, b: string)
    ensures Tokens(Array([Str(a), Str(b)])) == [LeftBracket] + ([Text(a)] + [Comma] + [Text(b)]) + [RightBracket]
  {
    var items := [Str(a), Str(b)];
    assert items[1..] == [Str(b)] && Tokens(items[0]) == [Text(a)] && ItemTokens([Str(b)]) == [Text(b)];
  }

  lemma ThreeFields(n1: string, v1: Value, n2: string, v2: Value, n3: string, v3: Value)
    ensures Tokens(Object([Field(n1, v1), Field(n2, v2), Field(n3, v3)]))
         == [LeftBrace]
            + ([Text(n1)] + [Colon] + Tokens(v1) + [Comma]
               + ([Text(n2)] + [Colon] + Tokens(v2) + [Comma] + ([Text(n3)] + [Colon] + Tokens(v3))))
            + [RightBrace]
  {
    OneField(n3, v3);
    MoreFields(n2, v2, [Field(n3, v3)]);
    MoreFields(n1, v1, [Field(n2, v2)] + [Field(n3, v3)]);
    assert [Field(n1, v1)] + ([Field(n2, v2)] + [Field(n3, v3)]) == [Field(n1, v1), Field(n2, v2), Field(n3, v3)];
  }

  lemma TwoFields(n1: string, v1: Value, n2: string, v2: Value)
    ensures Tokens(Object([Field(n1, v1), Field(n2, v2)]))
         == [LeftBrace] + ([Text(n1)] + [Colon] + Tokens(v1) + [Comma] + ([Text(n2)] + [Colon] + Tokens(v2)))
            + [RightBrace]
  {
    OneField(n2, v2);
    MoreFields(n1, v1, [Field(n2, v2)]);
    assert [Field(n1, v1)] + [Field(n2, v2)] == [Field(n1, v1), Field(n2, v2)];
  }

  lemma FlattenStatement(e: seq<Token>, allow: seq<Token>, a: seq<Token>, all: seq<Token>, r: seq<Token>,
                         x: seq<Token>, y: seq<Token>)
    ensures [Colon, LeftBracket] +
            ([LeftBrace]
             + (e + [Colon] + allow + [Comma]
                + (a + [Colon] + all + [Comma] + (r + [Colon] + ([LeftBracket] + (x + [Comma] + y) + [RightBracket]))))
             + [RightBrace])
         == StatementTokens(e, allow, a, all, r) + ResourceTokens(x, y) + [RightBracket, RightBrace]
  {
  }

  lemma FlattenTop(v: seq<Token>, date: seq<Token>, s: seq<Token>, item: seq<Token>, inner: seq<Token>)
    requires [Colon, LeftBracket] + item == inner + [RightBracket, RightBrace]
    ensures [LeftBrace] + (v + [Colon] + date + [Comma] + (s + [Colon] + ([LeftBracket] + item + [RightBracket])))
            + [RightBrace]
         == TopTokens(v, date, s) + inner + TAIL_TOKENS
  {
    assert s + [Colon] + ([LeftBracket] + item + [RightBracket])
        == s + ([Colon, LeftBracket] + item) + [RightBracket];
  }

  lemma IntendedTokens(bucket: string)
    ensures Tokens(Intended(bucket)) == DocumentTokens(bucket)
  {
    var name, s := ARN_PREFIX + bucket, IntendedStatement(bucket);
    var resources := Array([Str(name), Str(name + "/*")]);
    TwoStrings(name, name + "/*");
    ThreeFields("Effect", Str("Allow"), "Action", Str("s3:*"), "Resource", resources);
    TwoFields("Version", Str("2012-10-17"), "Statement", Array([s]));
    assert ItemTokens([s]) == Tokens(s);
    FlattenStatement([Text("Effect")], [Text("Allow")], [Text("Action")], [Text("s3:*")], [Text("Resource")],
                     [Text(name)], [Text(name + "/*")]);
    var statement := StatementTokens([Text("Effect")], [Text("Allow")], [Text("Action")], [Text("s3:*")],
                                     [Text("Resource")]);
    var inner := statement + ResourceTokens([Text(name)], [Text(name + "/*")]);
    FlattenTop([Text("Version")], [Text("2012-10-17")], [Text("Statement")], Tokens(s), inner);
  }

  // The tokens of the text, line by line.

  ghost predicate IsBlank(tab: string) { OnlyMarks(tab) && MarkTokens(tab) == [] }

  lemma {:induction false} IndentIsBlank(tab: string, n: nat)
    requires IsBlank(tab)
    ensures IsBlank(Indent(tab, n))
  {
    if n > 0 {
      IndentIsBlank(tab, n - 1);
      MarksAppend(Indent(tab, n - 1), tab);
    }
  }

  ghost predicate Marks(marks: string, tokens: seq<Token>) {
    OnlyMarks(marks) && MarkTokens(marks) == tokens
  }

  lemma Line(tab: string, marks: string, n: nat, tokens: seq<Token>)
    requires IsBlank(tab) && Marks(marks, tokens)
    ensures Marks(marks + Indent(tab, n), tokens)
  {
    IndentIsBlank(tab, n);
    MarksAppend(marks, Indent(tab, n));
  }

  lemma Closing(tab: string, n: nat, mark: char)
    requires IsBlank(tab) && Mark(mark).Some?
    ensures Marks(Indent(tab, n) + [mark], [Mark(mark).value])
  {
    IndentIsBlank(tab, n);
    MarksAppend(Indent(tab, n), [mark]);
  }

  ghost predicate Spells(chunks: seq<Chunk>, tokens: seq<Token>) {
    WellMade(chunks) && ChunkTokens(chunks) == tokens
  }

  lemma OneChunk(c: Chunk, marks: seq<Token>)
    requires Marks(c.marks, marks) && Verbatim(c.text)
    ensures Spells([c], marks + [Text(c.text)])
  {
    assert [c][1..] == [];
  }

  lemma MoreChunks(c: Chunk, marks: seq<Token>, more: seq<Chunk>, tokens: seq<Token>)
    requires Marks(c.marks, marks) && Verbatim(c.text) && Spells(more, tokens)
    ensures Spells([c] + more, marks + [Text(c.text)] + tokens)
  {
    assert ([c] + more)[1..] == more;
  }

  lemma ThreeChunks(c1: Chunk, m1: seq<Token>, c2: Chunk, m2: seq<Token>, c3: Chunk, m3: seq<Token>)
    requires Marks(c1.marks, m1) && Marks(c2.marks, m2) && Marks(c3.marks, m3)
    requires Verbatim(c1.text) && Verbatim(c2.text) && Verbatim(c3.text)
    ensures Spells([c1, c2, c3], m1 + [Text(c1.text)] + (m2 + [Text(c2.text)] + (m3 + [Text(c3.text)])))
  {
    OneChunk(c3, m3);
    MoreChunks(c2, m2, [c3], m3 + [Text(c3.text)]);
    MoreChunks(c1, m1, [c2] + [c3], m2 + [Text(c2.text)] + (m3 + [Text(c3.text)]));
    assert [c1] + ([c2] + [c3]) == [c1, c2, c3];
  }

  lemma FixedTextsAreVerbatim()
    ensures Verbatim("Version") && Verbatim("2012-10-17") && Verbatim("Statement")
    ensures Verbatim("Effect") && Verbatim("Allow") && Verbatim("Action") && Verbatim("s3:*") && Verbatim("Resource")
  {
  }

  lemma FixedMarks()
    ensures Marks("{", [LeftBrace]) && Marks(",", [Comma]) && Marks(": ", [Colon])
    ensures Marks(": [", [Colon, LeftBracket])
  {
    assert ": "[1..] == " ";
    assert ": ["[1..] == " [" && " ["[1..] == "[";
  }

  lemma TopIsLexed(tab: string)
    requires IsBlank(tab)
    ensures Spells(TopChunks(tab), TopTokens([Text("Version")], [Text("2012-10-17")], [Text("Statement")]))
  {
    FixedTextsAreVerbatim();
    FixedMarks();
    Line(tab, "{", 2, [LeftBrace]);
    Line(tab, ",", 2, [Comma]);
    var cs := TopChunks(tab);
    ThreeChunks(cs[0], [LeftBrace], cs[1], [Colon], cs[2], [Comma]);
  }

  lemma StatementIsLexed(tab: string)
    requires IsBlank(tab)
    ensures Spells(StatementChunks(tab),
      StatementTokens([Text("Effect")], [Text("Allow")], [Text("Action")], [Text("s3:*")], [Text("Resource")]))
  {
    FixedTextsAreVerbatim();
    FixedMarks();
    Line(tab, ": [", 3, [Colon, LeftBracket]);
    Line(tab, "{", 4, [LeftBrace]);
    MarksAppend(": [" + Indent(tab, 3), "{" + Indent(tab, 4));
    assert [Colon, LeftBracket] + [LeftBrace] == [Colon, LeftBracket, LeftBrace];
    Line(tab, ",", 4, [Comma]);
    var cs := StatementChunks(tab);
    ThreeChunks(cs[2], [Comma], cs[3], [Colon], cs[4], [Comma]);
    var last := [Comma] + [Text("Action")] + ([Colon] + [Text("s3:*")] + ([Comma] + [Text("Resource")]));
    MoreChunks(cs[1], [Colon], [cs[2], cs[3], cs[4]], last);
    MoreChunks(cs[0], [Colon, LeftBracket, LeftBrace], [cs[1]] + [cs[2], cs[3], cs[4]],
               [Colon] + [Text("Allow")] + last);
    assert [cs[0]] + ([cs[1]] + [cs[2], cs[3], cs[4]]) == cs;
  }

  lemma VerbatimResources(bucket: string)
    requires Verbatim(bucket)
    ensures Verbatim(ARN_PREFIX + bucket) && Verbatim(ARN_PREFIX + bucket + "/*")
  {
    assert Verbatim("arn:aws:s3:::") && Verbatim("/*");
  }

  lemma ResourcesAreLexed(tab: string, bucket: string)
    requires IsBlank(tab) && Verbatim(bucket)
    ensures Spells(ResourceChunks(tab, bucket),
                   ResourceTokens([Text(ARN_PREFIX + bucket)], [Text(ARN_PREFIX + bucket + "/*")]))
  {
    VerbatimResources(bucket);
    FixedMarks();
    Line(tab, ": [", 5, [Colon, LeftBracket]);
    Line(tab, ",", 5, [Comma]);
    var cs := ResourceChunks(tab, bucket);
    OneChunk(cs[1], [Comma]);
    MoreChunks(cs[0], [Colon, LeftBracket], [cs[1]], [Comma] + [Text(cs[1].text)]);
    assert [cs[0]] + [cs[1]] == cs;
  }

  lemma TailIsLexed(tab: string)
    requires IsBlank(tab)
    ensures Marks(Tail(tab), TAIL_TOKENS)
  {
    Closing(tab, 4, ']');
    Closing(tab, 3, '}');
    Closing(tab, 2, ']');
    Closing(tab, 1, '}');
    MarksAppend(Indent(tab, 4) + "]", Indent(tab, 3) + "}");
    MarksAppend(Indent(tab, 2) + "]", Indent(tab, 1) + "}");
    MarksAppend((Indent(tab, 4) + "]") + (Indent(tab, 3) + "}"), (Indent(tab, 2) + "]") + (Indent(tab, 1) + "}"));
  }

  lemma Assembled(a: seq<Chunk>, ta: seq<Token>, b: seq<Chunk>, tb: seq<Token>, tail: string, tt: seq<Token>)
    requires Spells(a, ta) && Spells(b, tb) && Marks(tail, tt)
    ensures Lex(Rendered(a + b, tail)) == Some(ta + tb + tt)
  {
    ChunksAppend(a, b);
    LexChunks(a + b, tail);
    LexMarks(tail, "");
    assert tail + "" == tail && tt + [] == tt;
  }

  lemma HeadIsLexed(tab: string)
    requires IsBlank(tab)
    ensures Spells(TopChunks(tab) + StatementChunks(tab), HeadTokens())
  {
    TopIsLexed(tab);
    StatementIsLexed(tab);
    ChunksAppend(TopChunks(tab), StatementChunks(tab));
  }

  lemma LayoutIsLexed(tab: string, bucket: string)
    requires IsBlank(tab) && Verbatim(bucket)
    ensures Lex(Layout(tab, bucket)) == Some(DocumentTokens(bucket))
  {
    HeadIsLexed(tab);
    ResourcesAreLexed(tab, bucket);
    TailIsLexed(tab);
    Assembled(TopChunks(tab) + StatementChunks(tab), HeadTokens(), ResourceChunks(tab, bucket),
              ResourceTokens([Text(ARN_PREFIX + bucket)], [Text(ARN_PREFIX + bucket + "/*")]),
              Tail(tab), TAIL_TOKENS);
  }

  /** A quoted string with a special character in it spoils a text. */
  lemma Spoiled(head: seq<Chunk>, th: seq<Token>, marks: string, tm: seq<Token>, s: string, more: string,
                rest: seq<Token>)
    requires Spells(head, th) && Marks(marks, tm) && !Verbatim(s)
    ensures Lex(Rendered(head, marks + ("\"" + s + more))) != Some(th + (tm + [Text(s)] + rest))
  {
    var quoted := "\"" + s + more;
    LexChunks(head, marks + quoted);
    LexMarks(marks, quoted);
    SpoiledString(s, more);
    if Lex(quoted).Some? {
      var found := th + (tm + Lex(quoted).value);
      assert found[|th| + |tm|] == Lex(quoted).value[0];
      assert (th + (tm + [Text(s)] + rest))[|th| + |tm|] == Text(s);
    }
  }

  lemma TokensFromName(head: seq<Token>, x: seq<Token>, y: seq<Token>)
    ensures head + ResourceTokens(x, y) + TAIL_TOKENS
         == head + ([Colon, LeftBracket] + x + ([Comma] + y + TAIL_TOKENS))
  {
  }

  lemma TextFromName(head: seq<Chunk>, c1: Chunk, c2: Chunk, tail: string)
    ensures Rendered(head + [c1, c2], tail)
         == Rendered(head, c1.marks + ("\"" + c1.text + ("\"" + Rendered([c2], tail))))
  {
    RenderedAppend(head, [c1, c2], tail);
    assert [c1, c2][1..] == [c2];
    assert Rendered([c1, c2], tail) == c1.marks + ("\"" + c1.text + ("\"" + Rendered([c2], tail)));
  }

  lemma SpecialResource(bucket: string)
    requires !Verbatim(bucket)
    ensures !Verbatim(ARN_PREFIX + bucket)
  {
    var i :| 0 <= i < |bucket| && Special(bucket[i]);
    assert (ARN_PREFIX + bucket)[|ARN_PREFIX| + i] == bucket[i];
  }

  lemma SpecialNameSpoils(tab: string, bucket: string)
    requires IsBlank(tab) && !Verbatim(bucket)
    ensures Lex(Layout(tab, bucket)) != Some(DocumentTokens(bucket))
  {
    var head, cs, name := TopChunks(tab) + StatementChunks(tab), ResourceChunks(tab, bucket), ARN_PREFIX + bucket;
    HeadIsLexed(tab);
    FixedMarks();
    Line(tab, ": [", 5, [Colon, LeftBracket]);
    SpecialResource(bucket);
    TextFromName(head, cs[0], cs[1], Tail(tab));
    TokensFromName(HeadTokens(), [Text(name)], [Text(name + "/*")]);
    Spoiled(head, HeadTokens(), cs[0].marks, [Colon, LeftBracket], name, "\"" + Rendered([cs[1]], Tail(tab)),
            [Comma] + [Text(name + "/*")] + TAIL_TOKENS);
  }

  /** The document spells the intended object exactly if the name needs no escape. */
  lemma DocumentIsIntendedIff(bucket: string)
    ensures Parse(Document(bucket)) == Some(Intended(bucket)) <==> Verbatim(bucket)
  {
    assert "\t"[1..] == "";
    ParseIffLex(Document(bucket), Intended(bucket));
    IntendedTokens(bucket);
    if Verbatim(bucket) {
      LayoutIsLexed("\t", bucket);
    } else {
      SpecialNameSpoils("\t", bucket);
    }
  }

  lemma LookupInThree(n1: string, v1: Value, n2: string, v2: Value, n3: string, v3: Value)
    requires n1 != n2 && n1 != n3 && n2 != n3
    ensures var fields := [Field(n1, v1), Field(n2, v2), Field(n3, v3)];
      Lookup(fields, n1) == Some(v1) && Lookup(fields, n2) == Some(v2) && Lookup(fields, n3) == Some(v3)
  {
    LookupInTwo(n2, v2, n3, v3);
    assert [Field(n1, v1), Field(n2, v2), Field(n3, v3)][1..] == [Field(n2, v2), Field(n3, v3)];
  }

  lemma LookupInTwo(n1: string, v1: Value, n2: string, v2: Value)
    requires n1 != n2
    ensures var fields := [Field(n1, v1), Field(n2, v2)];
      Lookup(fields, n1) == Some(v1) && Lookup(fields, n2) == Some(v2)
  {
    assert [Field(n1, v1), Field(n2, v2)][1..] == [Field(n2, v2)];
  }

  lemma TwoTexts(a: string, b: string)
    ensures Texts([Str(a), Str(b)]) == Some([a, b])
  {
    var items, last := [Str(a), Str(b)], [Str(b)];
    assert last[1..] == [] && Texts(last[1..]) == Some([]);
    assert Texts(last) == Some([b] + []);
    assert items[1..] == last && Texts(items) == Some([a] + ([b] + []));
    assert [a] + ([b] + []) == [a, b];
  }

  lemma StatementIsRead(bucket: string)
    ensures ReadStatement(IntendedStatement(bucket))
         == Some(Statement("Allow", "s3:*", [ARN_PREFIX + bucket, ARN_PREFIX + bucket + "/*"]))
  {
    var name := ARN_PREFIX + bucket;
    assert "Effect"[0] != "Action"[0] && "Effect"[0] != "Resource"[0] && "Action"[0] != "Resource"[0];
    LookupInThree("Effect", Str("Allow"), "Action", Str("s3:*"), "Resource", Array([Str(name), Str(name + "/*")]));
    TwoTexts(name, name + "/*");
  }

  /** So it reads as one Allow statement for all S3 actions on the two resource patterns. */
  lemma ReadInvertsDocument(bucket: string)
    requires Verbatim(bucket)
    ensures Read(Document(bucket))
         == Some(Statement("Allow", "s3:*", ["arn:aws:s3:::" + bucket, "arn:aws:s3:::" + bucket + "/*"]))
  {
    DocumentIsIntendedIff(bucket);
    StatementIsRead(bucket);
    assert "Version"[0] != "Statement"[0];
    LookupInTwo("Version", Str("2012-10-17"), "Statement", Array([IntendedStatement(bucket)]));
  }

  // ---------------------------------------------------------------------------------
  // What the two resource patterns match
  // ---------------------------------------------------------------------------------

  predicate WildcardFree(s: string) { '*' !in s && '?' !in s }

  lemma {:induction false} MatchesLiteralPrefix(literal: string, pattern: string, s: string)
    requires WildcardFree(literal)
    ensures Matches(literal + pattern, s) <==> literal <= s && Matches(pattern, s[|literal|..])
    decreases |literal|
  {
    if literal == "" {
      assert literal + pattern == pattern && s[0..] == s;
    } else {
      assert (literal + pattern)[0] == literal[0] && literal[0] in literal;
      assert (literal + pattern)[1..] == literal[1..] + pattern;
      assert forall c :: c in literal[1..] ==> c in literal;
      if s != "" && literal[0] == s[0] {
        MatchesLiteralPrefix(literal[1..], pattern, s[1..]);
        assert literal <= s <==> literal[1..] <= s[1..];
        if literal <= s { assert s[1..][|literal| - 1..] == s[|literal|..]; }
      }
    }
  }

  lemma {:induction false} StarMatchesAll(s: string)
    ensures Matches("*", s)
  {
    if s == "" {
      assert "*"[1..] == "";
    } else {
      StarMatchesAll(s[1..]);
    }
  }

  /** A star stands for any characters at all. */
  lemma {:induction false} StarMatchesIff(pattern: string, s: string)
    ensures Matches("*" + pattern, s) <==> exists i: nat :: i <= |s| && Matches(pattern, s[i..])
  {
    assert ("*" + pattern)[1..] == pattern && s[0..] == s;
    if s != "" {
      StarMatchesIff(pattern, s[1..]);
      forall i: nat | i < |s| ensures s[1..][i..] == s[i + 1..] {}
      if i: nat :| i <= |s| && Matches(pattern, s[i..]) {
        if i > 0 { assert Matches(pattern, s[1..][i - 1..]); }
      }
      if i: nat :| i <= |s[1..]| && Matches(pattern, s[1..][i..]) {
        assert Matches(pattern, s[i + 1..]);
      }
    }
  }

  /** Names for which the reader and the matcher above do what IAM does: there is no JSON
      escape to decode, no policy variable to substitute and no path separator. */
  predicate Readable(bucket: string) {
    Verbatim(bucket) && '$' !in bucket && '/' !in bucket
  }

  lemma PatternsOfLiteralName(bucket: string, arn: string)
    requires WildcardFree(bucket)
    ensures Matches(ARN_PREFIX + bucket, arn) <==> arn == ARN_PREFIX + bucket
    ensures Matches(ARN_PREFIX + bucket + "/*", arn) <==> ARN_PREFIX + bucket + "/" <= arn
  {
    var name := ARN_PREFIX + bucket;
    assert WildcardFree(name);
    MatchesLiteralPrefix(name, "", arn);
    assert name + "" == name;
    assert WildcardFree(name + "/");
    MatchesLiteralPrefix(name + "/", "*", arn);
    assert name + "/" + "*" == name + "/*";
    if name + "/" <= arn { StarMatchesAll(arn[|name| + 1..]); }
  }

  lemma PrefixHasSlash(a: string, s: string)
    requires a + "/" <= s
    ensures '/' in s
  {
    assert s[|a|] == (a + "/")[|a|];
  }

  lemma SameNameFromPrefix(a: string, b: string, rest: string)
    requires '/' !in a && '/' !in b
    requires a + "/" <= b + "/" + rest
    ensures a == b
  {
    var s := b + "/" + rest;
    assert s[..|a|] == a && s[..|b|] == b && s[|a|] == s[|b|] == '/';
    if a + "/" <= b {
      PrefixHasSlash(a, b);
    } else if b + "/" <= a {
      PrefixHasSlash(b, a);
    }
  }

  lemma ActionPattern(action: string)
    ensures Matches("s3:*", action) <==> S3Action(action)
  {
    MatchesLiteralPrefix("s3:", "*", action);
    assert "s3:" + "*" == "s3:*";
    if S3Action(action) { StarMatchesAll(action[3..]); }
  }

  lemma DocumentAllowsArn(bucket: string, action: string, arn: string)
    requires Readable(bucket)
    ensures Allows(Document(bucket), action, arn)
       <==> S3Action(action) && (Matches(ARN_PREFIX + bucket, arn) || Matches(ARN_PREFIX + bucket + "/*", arn))
  {
    ReadInvertsDocument(bucket);
    ActionPattern(action);
    var resources := Read(Document(bucket)).value.resources;
    assert resources[0] == ARN_PREFIX + bucket && resources[1] == ARN_PREFIX + bucket + "/*";
    assert resources[0] in resources && resources[1] in resources;
  }

  /** The document for `bucket` allows every S3 action on the bucket itself and all its
      objects, nothing else on them, and nothing that belongs to another bucket. */
  lemma DocumentAllowsBucketIff(bucket: string, action: string, other: string, key: string)
    requires Readable(bucket) && WildcardFree(bucket) && '/' !in other
    ensures Allows(Document(bucket), action, BucketArn(other)) <==> S3Action(action) && other == bucket
    ensures Allows(Document(bucket), action, ObjectArn(other, key)) <==> S3Action(action) && other == bucket
  {
    DocumentAllowsArn(bucket, action, BucketArn(other));
    DocumentAllowsArn(bucket, action, ObjectArn(other, key));
    PatternsReachBucketIff(bucket, other, key);
  }

  lemma PatternsReachBucketIff(bucket: string, other: string, key: string)
    requires WildcardFree(bucket) && '/' !in bucket && '/' !in other
    ensures Matches(ARN_PREFIX + bucket, BucketArn(other)) || Matches(ARN_PREFIX + bucket + "/*", BucketArn(other))
       <==> other == bucket
    ensures Matches(ARN_PREFIX + bucket, ObjectArn(other, key))
         || Matches(ARN_PREFIX + bucket + "/*", ObjectArn(other, key))
       <==> other == bucket
  {
    var name := ARN_PREFIX + bucket;
    PatternsOfLiteralName(bucket, BucketArn(other));
    PatternsOfLiteralName(bucket, ObjectArn(other, key));

    var n := |ARN_PREFIX|;
    assert BucketArn(other)[n..] == other && name[n..] == bucket;
    if name + "/" <= BucketArn(other) {
      assert (name + "/")[n..] == bucket + "/";
      PrefixHasSlash(bucket, other);
    }
    assert ObjectArn(other, key)[n..] == other + "/" + key;
    if ObjectArn(other, key) == name {
      PrefixHasSlash(other, bucket);
    }
    if name + "/" <= ObjectArn(other, key) {
      assert (name + "/")[n..] == bucket + "/";
      assert bucket + "/" <= other + "/" + key;
      SameNameFromPrefix(bucket, other, key);
    }
    if other == bucket {
      assert ObjectArn(other, key)[..|name| + 1] == name + "/";
    }
  }

  /** S3 actions are allowed on this bucket and its objects, and nothing else is. */
  ghost predicate GrantsExactly(document: string, bucket: string) {
    forall action, other, key :: '/' !in other ==> ExactFor(document, bucket, action, other, key)
  }

  predicate ExactFor(document: string, bucket: string, action: string, other: string, key: string) {
    && (Allows(document, action, BucketArn(other)) <==> S3Action(action) && other == bucket)
    && (Allows(document, action, ObjectArn(other, key)) <==> S3Action(action) && other == bucket)
  }

  lemma {:induction false} MatchesItself(pattern: string)
    ensures Matches(pattern, pattern)
  {
    if pattern != "" {
      MatchesItself(pattern[1..]);
    }
  }

  lemma {:induction false} StarMatchesNothing(before: string, after: string)
    ensures Matches(before + "*" + after, before + after)
  {
    var pattern, s := before + "*" + after, before + after;
    if before == "" {
      assert pattern[1..] == after && s == after;
      MatchesItself(after);
    } else {
      StarMatchesNothing(before[1..], after);
      assert pattern[1..] == before[1..] + "*" + after && s[1..] == before[1..] + after;
    }
  }

  lemma {:induction false} QuestionMarkMatchesAny(before: string, c: char, after: string)
    ensures Matches(before + "?" + after, before + [c] + after)
  {
    var pattern, s := before + "?" + after, before + [c] + after;
    if before == "" {
      assert pattern[1..] == after && s[1..] == after;
      MatchesItself(after);
    } else {
      QuestionMarkMatchesAny(before[1..], c, after);
      assert pattern[1..] == before[1..] + "?" + after && s[1..] == before[1..] + [c] + after;
    }
  }

  lemma LiteralNameGrantsExactly(bucket: string)
    requires Readable(bucket) && WildcardFree(bucket)
    ensures GrantsExactly(Document(bucket), bucket)
  {
    forall action, other, key | '/' !in other
      ensures ExactFor(Document(bucket), bucket, action, other, key)
    {
      DocumentAllowsBucketIff(bucket, action, other, key);
    }
  }

  /** A wildcard inside the name reaches another bucket. */
  lemma {:induction false} WildcardReachesOther(before: string, wildcard: char, after: string) returns (other: string)
    requires wildcard == '*' || wildcard == '?'
    requires '/' !in before && '/' !in after
    ensures '/' !in other && other != before + [wildcard] + after
    ensures Matches(ARN_PREFIX + (before + [wildcard] + after), BucketArn(other))
  {
    if wildcard == '*' {
      other := before + after;
      StarMatchesNothing(ARN_PREFIX + before, after);
      assert ARN_PREFIX + before + "*" + after == ARN_PREFIX + (before + [wildcard] + after);
      assert ARN_PREFIX + before + after == BucketArn(other);
      assert |other| != |before + [wildcard] + after|;
    } else {
      other := before + "a" + after;
      QuestionMarkMatchesAny(ARN_PREFIX + before, 'a', after);
      assert ARN_PREFIX + before + "?" + after == ARN_PREFIX + (before + [wildcard] + after);
      assert ARN_PREFIX + before + ['a'] + after == BucketArn(other);
      assert other[|before|] != (before + [wildcard] + after)[|before|];
    }
  }

  /** The pasted name is exact precisely when it holds no wildcard of its own. */
  lemma GrantsExactlyIff(bucket: string)
    requires Readable(bucket)
    ensures GrantsExactly(Document(bucket), bucket) <==> WildcardFree(bucket)
  {
    if WildcardFree(bucket) {
      LiteralNameGrantsExactly(bucket);
    } else {
      var i :| 0 <= i < |bucket| && (bucket[i] == '*' || bucket[i] == '?');
      assert bucket == bucket[..i] + [bucket[i]] + bucket[i + 1..];
      var other := WildcardReachesOther(bucket[..i], bucket[i], bucket[i + 1..]);
      DocumentAllowsArn(bucket, "s3:GetObject", BucketArn(other));
      assert !ExactFor(Document(bucket), bucket, "s3:GetObject", other, "");
    }
  }
}
