/** The token and error types shared by the stages of the flowchart compiler. */
module Tokens {

  datatype TokenType = Keyword | Text | Grouping | Start | End

  /** A lexical unit with its category, its (trimmed) text and the line it was read on. */
  datatype Token = Token(kind: TokenType, value: string, line: nat)

  const Keywords: seq<string> := ["if", "else", "while"]
  const Brackets: seq<char> := ['(', ')', '{', '}']

  /** The errors `parse` can end with. `UndefinedAccess` stands for the
      `TypeError` the TypeScript raises when it reads through an `undefined`
      value: the active node sequence after a `}` that had nothing to close,
      or a missing last node of that sequence. */
  datatype FlowError =
    | IllegalQuote(line: nat)
    | MismatchedOpening(line: nat)
    | MismatchedClosing(line: nat)
    | Unexpected(token: Token, expected: seq<string>)
    | ElseWithoutIf(line: nat)
    | ElseIfUnsupported(line: nat)
    | UndefinedAccess(token: Token)
    | NoStatement
    | EmptyLoop

  datatype Result<T> = Ok(value: T) | Fail(error: FlowError)

  /** A value the TypeScript may leave `undefined`. */
  datatype Option<T> = None | Some(value: T)

  predicate IsKeyword(t: Token, word: string) {
    t.kind == Keyword && t.value == word
  }

  predicate IsGrouping(t: Token, c: char) {
    t.kind == Grouping && t.value == [c]
  }

  /** An `else` token directly followed by an `if` token at positions `j - 1`, `j`. */
  predicate ElseIfAt(ts: seq<Token>, j: int) {
    1 <= j < |ts| && IsKeyword(ts[j - 1], "else") && IsKeyword(ts[j], "if")
  }

  predicate ElseIfFree(ts: seq<Token>) {
    forall j :: 1 <= j < |ts| ==> !ElseIfAt(ts, j)
  }

  /** Number of `c` grouping tokens in `ts`. */
  function CountGrouping(ts: seq<Token>, c: char): nat {
    if ts == [] then 0
    else CountGrouping(ts[..|ts| - 1], c) + (if IsGrouping(ts[|ts| - 1], c) then 1 else 0)
  }

  lemma {:induction false} CountGroupingAppend(a: seq<Token>, b: seq<Token>, c: char)
    ensures CountGrouping(a + b, c) == CountGrouping(a, c) + CountGrouping(b, c)
    decreases |b|
  {
    if b == [] {
      assert a + b == a;
    } else {
      assert (a + b)[..|a + b| - 1] == a + b[..|b| - 1];
      CountGroupingAppend(a, b[..|b| - 1], c);
    }
  }

  /** Brace depth of a token list: `{` count minus `}` count. */
  function Depth(ts: seq<Token>): int {
    CountGrouping(ts, '{') - CountGrouping(ts, '}')
  }

  lemma DepthOne(x: Token)
    ensures Depth([x]) == (if IsGrouping(x, '{') then 1 else 0) - (if IsGrouping(x, '}') then 1 else 0)
  {
    assert [x][..0] == [];
    assert CountGrouping([x], '{') == CountGrouping([], '{') + (if IsGrouping(x, '{') then 1 else 0);
    assert CountGrouping([x], '}') == CountGrouping([], '}') + (if IsGrouping(x, '}') then 1 else 0);
  }
}
