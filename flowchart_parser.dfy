/** `parse` of flowchartParser.ts end to end: tokenise the text, frame and
    rewrite the token list, build the tree, walk it into Mermaid text. Every
    `throw` (and every `TypeError`) of the TypeScript is a `Fail`. */
module FlowchartParser {
  import opened JsText
  import opened Tokens
  import opened Lexer
  import opened Normaliser
  import opened TreeBuilder
  import opened Linearizer
  import opened WalkFacts

  /** `convertToTree(text)` as a function: lex, normalise, build the tree. */
  function TreeOf(text: string): Result<Tree> {
    match Lex(text)
    case Fail(e) => Fail(e)
    case Ok(ts) =>
      match Normalise(ts)
      case Fail(e) => Fail(e)
      case Ok(p) => Build(p)
  }

  /** `parse(text)` as a function: the tree, then the walk. */
  function Compile(text: string): Result<string> {
    match TreeOf(text)
    case Fail(e) => Fail(e)
    case Ok(t) => Emit(t)
  }

  lemma {:induction false} StatementTokensAppend(a: seq<Token>, b: seq<Token>)
    ensures StatementTokens(a + b) == StatementTokens(a) + StatementTokens(b)
    decreases |b|
  {
    if b == [] {
      assert a + b == a;
    } else {
      assert (a + b)[..|a + b| - 1] == a + b[..|b| - 1];
      StatementTokensAppend(a, b[..|b| - 1]);
    }
  }

  /** The statement tokens of a list, read from its first token. */
  lemma StatementTokensCons(t: Token, rest: seq<Token>)
    ensures StatementTokens([t] + rest) == (if IsStatementToken(t) then [t] else []) + StatementTokens(rest)
  {
    StatementTokensAppend([t], rest);
    assert [t][..0] == [];
  }

  lemma InsertedAreBracesTail(ts: seq<Token>, inserted: seq<bool>)
    requires |ts| == |inserted| && |ts| > 0 && InsertedAreBraces(ts, inserted)
    ensures InsertedAreBraces(ts[1..], inserted[1..])
  {
    forall j | 0 <= j < |ts[1..]| && inserted[1..][j]
      ensures IsGrouping(ts[1..][j], '{') || IsGrouping(ts[1..][j], '}')
    {
      assert ts[1..][j] == ts[j + 1];
    }
  }

  /** Dropping inserted braces keeps every token that receives an id. */
  lemma {:induction false} StatementTokensKept(ts: seq<Token>, inserted: seq<bool>)
    requires |ts| == |inserted| && InsertedAreBraces(ts, inserted)
    ensures StatementTokens(Kept(ts, inserted)) == StatementTokens(ts)
    decreases |ts|
  {
    if ts != [] {
      var rest, restInserted := ts[1..], inserted[1..];
      InsertedAreBracesTail(ts, inserted);
      StatementTokensKept(rest, restInserted);
      var head := if inserted[0] then [] else [ts[0]];
      assert Kept(ts, inserted) == head + Kept(rest, restInserted);
      StatementTokensAppend(head, Kept(rest, restInserted));
      assert ts == [ts[0]] + rest;
      StatementTokensCons(ts[0], rest);
      if inserted[0] {
        assert !IsStatementToken(ts[0]);
      } else {
        StatementTokensCons(ts[0], []);
        assert [ts[0]] + [] == [ts[0]];
      }
    }
  }

  /** `convertToTree(text)`: tokeniser, preprocess and the tree pass. On
      success the nodes carry ids 0, 1, ... for the `Start` sentinel, the
      text tokens in order and the `End` sentinel, and no failure is the
      unreachable `else if` guard. */
  method Convert(text: string) returns (r: Result<Tree>)
    ensures r == TreeOf(text)
    ensures '"' in text ==> r == Fail(IllegalQuote(Newlines(text[..IndexOf(text, '"')])))
    ensures r.Fail? ==> !r.error.ElseIfUnsupported?
    ensures r.Ok? ==> Lex(text).Ok? && WellFormed(r.value)
    ensures r.Ok? ==>
      var stmts := StatementTokens(Framed(Lex(text).value));
      IdsFollow(r.value.nodes, |stmts|, stmts)
    ensures Lex(text).Ok? && ElseIfFree(Lex(text).value) ==> r == Build(Framed(Lex(text).value))
  {
    QuoteRejection(text);
    var lexed := Tokenise(text);
    if lexed.Fail? {
      return Fail(lexed.error);
    }
    var tokens;
    ghost var inserted;
    tokens, inserted := Preprocess(lexed.value);
    if tokens.Fail? {
      return Fail(tokens.error);
    }
    r := ConvertToTree(tokens.value);
    ElseIfFreeNeverUnsupported(tokens.value);
    if r.Ok? {
      BuildIds(tokens.value);
      StatementTokensKept(tokens.value, inserted);
    }
  }

  /** `parse(text)`: the Mermaid text, or the first error thrown. */
  method Parse(text: string) returns (r: Result<string>)
    ensures '"' in text ==> r == Fail(IllegalQuote(Newlines(text[..IndexOf(text, '"')])))
    ensures r.Fail? ==> !r.error.ElseIfUnsupported?
    ensures r.Ok? ==> Split(r.value, '\n')[0] == FlowchartHeader && r.value[|r.value| - 1] == '\n'
    ensures r == Compile(text)
  {
    var tree := Convert(text);
    if tree.Fail? {
      return Fail(tree.error);
    }
    r := Linearizer.Parse(tree.value);
    WalkErrors(tree.value, RootFrame);
    if r.Ok? {
      HeaderFirst(Walk(tree.value, RootFrame).value);
    }
  }
}
