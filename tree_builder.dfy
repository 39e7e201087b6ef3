/** The tree builder (`convertToTree` in flowchartParser.ts): a single pass
    over the preprocessed tokens that checks each token against the list of
    categories the previous token allows and grows a forest of statement,
    condition and loop nodes.

    The TypeScript nests node arrays inside nodes and keeps aliases to them
    (the active `statements` array, the `parentStack`). Here every array is a
    block of an arena: `blocks[b]` lists the indices of its nodes in `nodes`,
    block 0 is the returned tree, and a node's `then`, `else` and `loop`
    arrays are block indices. Writing through an alias is an update of the
    arena at that index. */
module TreeBuilder {
  import opened Tokens

  datatype NodeKind = Statement | Condition | Loop

  /** A node; the fields the TypeScript leaves `undefined` are `None`
      (`isEnd` is only ever read as a truth value, so `undefined` is `false`). */
  datatype Node = Node(kind: NodeKind, id: Option<nat>, text: Option<string>, isEnd: bool,
                       thenBlock: Option<nat>, elseBlock: Option<nat>, loopBlock: Option<nat>)

  /** The node arrays as an arena; block 0 is the tree itself. */
  datatype Tree = Tree(nodes: seq<Node>, blocks: seq<seq<nat>>)

  /** The values of `state`. */
  datatype Mode = Root | IfHead | ElseHead | WhileHead | ThenBody | LoopBody

  /** The variables of `convertToTree`; `statements` is `None` once a `}`
      popped an empty `parentStack`. */
  datatype Builder = Builder(tree: Tree, statements: Option<nat>, parentStack: seq<nat>,
                             state: Mode, expected: Option<seq<string>>, currId: nat)

  datatype Field = ThenField | ElseField | LoopField

  const AfterOpen: seq<string> := ["statement", "if", "}", "while"]
  const AfterClose: seq<string> := ["else", "statement", "}"]
  const AfterStatement: seq<string> := ["}", "statement", "if", "while"]

  /** The category a token is checked under: `"statement"` for text and the
      sentinels, the literal value otherwise. */
  function Category(t: Token): string {
    if t.kind == Text || t.kind == Start || t.kind == End then "statement" else t.value
  }

  predicate IsStatementToken(t: Token) {
    t.kind == Text || t.kind == Start || t.kind == End
  }

  /** The tokens that receive an id, in order. */
  function StatementTokens(ts: seq<Token>): seq<Token> {
    if ts == [] then []
    else StatementTokens(ts[..|ts| - 1]) + (if IsStatementToken(ts[|ts| - 1]) then [ts[|ts| - 1]] else [])
  }

  /** Child blocks of a node in block `b` come after `b` and exist. */
  predicate ChildrenAfter(n: Node, b: nat, limit: nat) {
    && (n.thenBlock.Some? ==> b < n.thenBlock.value < limit)
    && (n.elseBlock.Some? ==> b < n.elseBlock.value < limit)
    && (n.loopBlock.Some? ==> b < n.loopBlock.value < limit)
  }

  /** The arena is a forest: block 0 exists, blocks list existing nodes, and
      nested blocks have larger indices than the block holding their owner. */
  ghost predicate WellFormed(t: Tree) {
    && |t.blocks| >= 1
    && (forall b, j :: 0 <= b < |t.blocks| && 0 <= j < |t.blocks[b]| ==> t.blocks[b][j] < |t.nodes|)
    && (forall b, j :: 0 <= b < |t.blocks| && 0 <= j < |t.blocks[b]| ==>
          ChildrenAfter(t.nodes[t.blocks[b][j]], b, |t.blocks|))
  }

  ghost predicate Valid(st: Builder) {
    && WellFormed(st.tree)
    && (st.statements.Some? ==> st.statements.value < |st.tree.blocks|)
    && (forall k :: 0 <= k < |st.parentStack| ==> st.parentStack[k] < |st.tree.blocks|)
  }

  const Init: Builder := Builder(Tree([], [[]]), Some(0), [], Root, None, 0)

  /** The last node of block `s`, if any (`statements[statements.length - 1]`). */
  function LastNode(t: Tree, s: nat): Option<nat>
    requires s < |t.blocks|
  {
    if t.blocks[s] == [] then None else Some(t.blocks[s][|t.blocks[s]| - 1])
  }

  /** `statements.push(node)` on block `s`. */
  function Append(t: Tree, s: nat, node: Node): Tree
    requires s < |t.blocks|
  {
    Tree(t.nodes + [node], t.blocks[s := t.blocks[s] + [|t.nodes|]])
  }

  /** `lastStatement.then = []` (or `else`, `loop`): a newBlock empty block
      becomes the field of node `n`. */
  function Attach(t: Tree, n: nat, f: Field): Tree
    requires n < |t.nodes|
  {
    var b := Some(|t.blocks|);
    var node := t.nodes[n];
    var node' := match f
      case ThenField => node.(thenBlock := b)
      case ElseField => node.(elseBlock := b)
      case LoopField => node.(loopBlock := b);
    Tree(t.nodes[n := node'], t.blocks + [[]])
  }

  /** Push the active block and make the newBlock block of node `n` active. */
  function Open(st: Builder, s: nat, n: nat, f: Field): Builder
    requires n < |st.tree.nodes|
  {
    st.(tree := Attach(st.tree, n, f), parentStack := st.parentStack + [s],
        statements := Some(|st.tree.blocks|))
  }

  /** `statements = parentStack.pop()`. */
  function Close(st: Builder): Builder {
    if st.parentStack == [] then st.(statements := None)
    else st.(statements := Some(st.parentStack[|st.parentStack| - 1]),
             parentStack := st.parentStack[..|st.parentStack| - 1])
  }

  /** A new condition or loop node, before its id and text are known. */
  function Header(kind: NodeKind): Node {
    Node(kind, None, None, false, None, None, None)
  }

  /** Process `tokens[i]`: one call of the `forEach` callback, which checks
      the token's category against `expected` and then branches on its type. */
  function Step(st: Builder, tokens: seq<Token>, i: nat): (r: Result<Builder>)
    requires i < |tokens| && Valid(st)
    ensures r.Ok? ==> Valid(r.value)
  {
    var token := tokens[i];
    if st.expected.Some? && Category(token) !in st.expected.value then
      Fail(Unexpected(token, st.expected.value))
    else if token.kind == Keyword then KeywordStep(st, tokens, i)
    else if token.kind == Grouping then GroupingStep(st, token)
    else StatementStep(st, token)
  }

  /** The `keyword` branch: `if` and `while` append a header node, `else`
      checks that a condition precedes it and that no `if` follows it. */
  function KeywordStep(st: Builder, tokens: seq<Token>, i: nat): (r: Result<Builder>)
    requires i < |tokens| && Valid(st)
    ensures r.Ok? ==> Valid(r.value)
  {
    var token := tokens[i];
    if token.value == "if" || token.value == "while" then
      var st' := st.(expected := Some(["("]), state := if token.value == "if" then IfHead else WhileHead);
      match st.statements
      case None => Fail(UndefinedAccess(token))
      case Some(s) =>
        var header := Header(if token.value == "if" then Condition else Loop);
        AppendWellFormed(st.tree, s, header);
        Ok(st'.(tree := Append(st.tree, s, header)))
    else if token.value == "else" then
      match st.statements
      case None => Fail(UndefinedAccess(token))
      case Some(s) =>
        var last := LastNode(st.tree, s);
        if last.None? || st.tree.nodes[last.value].kind != Condition then Fail(ElseWithoutIf(token.line))
        else if i + 1 < |tokens| && IsKeyword(tokens[i + 1], "if") then Fail(ElseIfUnsupported(token.line))
        else Ok(st.(expected := Some(["if", "{"]), state := ElseHead))
    else Ok(st)
  }

  /** The `grouping` branch: `{` opens the block of the header before it,
      `}` returns to the enclosing block. */
  function GroupingStep(st: Builder, token: Token): (r: Result<Builder>)
    requires Valid(st)
    ensures r.Ok? ==> Valid(r.value)
  {
    if token.value == "(" then Ok(st.(expected := Some(["statement"])))
    else if token.value == ")" then Ok(st.(expected := Some(["{"])))
    else if token.value == "{" then
      var st' := st.(expected := Some(AfterOpen));
      match st.statements
      case None => Fail(UndefinedAccess(token))
      case Some(s) =>
        var last := LastNode(st.tree, s);
        if st.state == IfHead || st.state == ElseHead || st.state == WhileHead then
          if last.None? then Fail(UndefinedAccess(token))
          else
          assert st.tree.blocks[s][|st.tree.blocks[s]| - 1] < |st.tree.nodes|;
          AttachWellFormed(st.tree, s, last.value, ThenField);
          AttachWellFormed(st.tree, s, last.value, ElseField);
          AttachWellFormed(st.tree, s, last.value, LoopField);
          if st.state == IfHead then Ok(Open(st'.(state := ThenBody), s, last.value, ThenField))
          else if st.state == ElseHead then Ok(Open(st', s, last.value, ElseField))
          else Ok(Open(st'.(state := LoopBody), s, last.value, LoopField))
        else Ok(st')
    else if token.value == "}" then Ok(Close(st.(expected := Some(AfterClose))))
    else Ok(st)
  }

  /** The branch for text and the sentinels: inside a header the text labels
      the header node, elsewhere it becomes a new statement node. */
  function StatementStep(st: Builder, token: Token): (r: Result<Builder>)
    requires Valid(st)
    ensures r.Ok? ==> Valid(r.value)
  {
    var head := st.state == IfHead || st.state == WhileHead;
    var st' := st.(expected := Some(if head then [")"] else AfterStatement), currId := st.currId + 1);
    match st.statements
    case None => Fail(UndefinedAccess(token))
    case Some(s) =>
      if head then
        var last := LastNode(st.tree, s);
        if last.None? then Fail(UndefinedAccess(token))
        else
          var n := last.value;
          assert st.tree.blocks[s][|st.tree.blocks[s]| - 1] < |st.tree.nodes|;
          RelabelWellFormed(st.tree, n, st.currId, token.value);
          var node := st.tree.nodes[n].(id := Some(st.currId), text := Some(token.value));
          Ok(st'.(tree := st.tree.(nodes := st.tree.nodes[n := node])))
      else
        var node := Node(Statement, Some(st.currId), Some(token.value), token.kind == End, None, None, None);
        AppendWellFormed(st.tree, s, node);
        Ok(st'.(tree := Append(st.tree, s, node)))
  }

  lemma AppendWellFormed(t: Tree, s: nat, node: Node)
    requires WellFormed(t) && s < |t.blocks|
    requires ChildrenAfter(node, s, |t.blocks|)
    ensures WellFormed(Append(t, s, node))
  {
    var t' := Append(t, s, node);
    forall b, j | 0 <= b < |t'.blocks| && 0 <= j < |t'.blocks[b]|
      ensures t'.blocks[b][j] < |t'.nodes| && ChildrenAfter(t'.nodes[t'.blocks[b][j]], b, |t'.blocks|)
    {
      if b != s || j < |t.blocks[s]| {
        assert t'.blocks[b][j] == t.blocks[b][j];
      }
    }
  }

  lemma AttachWellFormed(t: Tree, s: nat, n: nat, f: Field)
    requires WellFormed(t) && s < |t.blocks| && n < |t.nodes|
    ensures WellFormed(Attach(t, n, f))
  {
    var t' := Attach(t, n, f);
    forall b, j | 0 <= b < |t'.blocks| && 0 <= j < |t'.blocks[b]|
      ensures t'.blocks[b][j] < |t'.nodes| && ChildrenAfter(t'.nodes[t'.blocks[b][j]], b, |t'.blocks|)
    {
      assert b < |t.blocks| && t'.blocks[b][j] == t.blocks[b][j];
      assert ChildrenAfter(t.nodes[t.blocks[b][j]], b, |t.blocks|);
    }
  }

  lemma RelabelWellFormed(t: Tree, n: nat, id: nat, text: string)
    requires WellFormed(t) && n < |t.nodes|
    ensures WellFormed(t.(nodes := t.nodes[n := t.nodes[n].(id := Some(id), text := Some(text))]))
  {
    var t' := t.(nodes := t.nodes[n := t.nodes[n].(id := Some(id), text := Some(text))]);
    forall b, j | 0 <= b < |t'.blocks| && 0 <= j < |t'.blocks[b]|
      ensures t'.blocks[b][j] < |t'.nodes| && ChildrenAfter(t'.nodes[t'.blocks[b][j]], b, |t'.blocks|)
    {
      assert ChildrenAfter(t.nodes[t.blocks[b][j]], b, |t.blocks|);
    }
  }

  /** The state after the first `n` tokens, or the error that stopped the pass. */
  function Run(tokens: seq<Token>, n: nat): (r: Result<Builder>)
    requires n <= |tokens|
    ensures r.Ok? ==> Valid(r.value)
  {
    if n == 0 then Ok(Init)
    else
      match Run(tokens, n - 1)
      case Fail(e) => Fail(e)
      case Ok(st) => Step(st, tokens, n - 1)
  }

  /** `convertToTree` on an already preprocessed token list. */
  function Build(tokens: seq<Token>): (r: Result<Tree>)
    ensures r.Ok? ==> WellFormed(r.value)
  {
    match Run(tokens, |tokens|)
    case Fail(e) => Fail(e)
    case Ok(st) => Ok(st.tree)
  }

  /** Once a token has failed, the pass ends with that failure. */
  lemma {:induction false} FailPersists(tokens: seq<Token>, n: nat, m: nat)
    requires n <= m <= |tokens| && Run(tokens, n).Fail?
    ensures Run(tokens, m) == Run(tokens, n)
    decreases m - n
  {
    if n < m {
      FailPersists(tokens, n, m - 1);
    }
  }

  /** `convertToTree` after `preprocess`: the `forEach` over the tokens,
      updating the arena, the active block, the parent stack, the state, the
      expected categories and the id counter. */
  method ConvertToTree(tokens: seq<Token>) returns (r: Result<Tree>)
    ensures r == Build(tokens)
  {
    var nodes: seq<Node> := [];
    var blocks: seq<seq<nat>> := [[]];
    var statements: Option<nat> := Some(0);
    var parentStack: seq<nat> := [];
    var state := Root;
    var currId := 0;
    var expected: Option<seq<string>> := None;

    for tokenIndex := 0 to |tokens|
      invariant Run(tokens, tokenIndex) == Ok(Builder(Tree(nodes, blocks), statements, parentStack, state, expected, currId))
    {
      var current := Builder(Tree(nodes, blocks), statements, parentStack, state, expected, currId);
      var next := ReadToken(current, tokens, tokenIndex);
      if next.Fail? {
        r := Fail(next.error);
        FailPersists(tokens, tokenIndex + 1, |tokens|);
        return;
      }
      nodes, blocks := next.value.tree.nodes, next.value.tree.blocks;
      statements, parentStack := next.value.statements, next.value.parentStack;
      state, expected, currId := next.value.state, next.value.expected, next.value.currId;
    }
    r := Ok(Tree(nodes, blocks));
  }

  /** One call of the callback: the check against `expected`, then the
      branch for the token's type. */
  method ReadToken(st: Builder, tokens: seq<Token>, tokenIndex: nat) returns (r: Result<Builder>)
    requires tokenIndex < |tokens| && Valid(st)
    ensures r == Step(st, tokens, tokenIndex)
  {
    var token := tokens[tokenIndex];
    var expectedType := if token.kind == Text || token.kind == Start || token.kind == End then "statement" else token.value;
    if st.expected.Some? && expectedType !in st.expected.value {
      return Fail(Unexpected(token, st.expected.value));
    }
    if token.kind == Keyword {
      r := ReadKeyword(st, tokens, tokenIndex);
    } else if token.kind == Grouping {
      r := ReadGrouping(st, tokens, tokenIndex);
    } else {
      r := ReadStatement(st, tokens, tokenIndex);
    }
  }

  /** The `keyword` branch of the callback, for an accepted token. */
  method ReadKeyword(st: Builder, tokens: seq<Token>, tokenIndex: nat) returns (r: Result<Builder>)
    requires tokenIndex < |tokens| && Valid(st)
    ensures r == KeywordStep(st, tokens, tokenIndex)
  {
    var token := tokens[tokenIndex];
    var nodes, blocks, statements := st.tree.nodes, st.tree.blocks, st.statements;
    var state, expected := st.state, st.expected;
    if token.value == "if" || token.value == "while" {
      expected := Some(["("]);
      state := if token.value == "if" then IfHead else WhileHead;
      if statements.None? {
        return Fail(UndefinedAccess(token));
      }
      var newCondition := Header(if token.value == "if" then Condition else Loop);
      blocks := blocks[statements.value := blocks[statements.value] + [|nodes|]];
      nodes := nodes + [newCondition];
    } else if token.value == "else" {
      expected := Some(["if", "{"]);
      state := ElseHead;
      if statements.None? {
        return Fail(UndefinedAccess(token));
      }
      var sequence := blocks[statements.value];
      if sequence == [] || nodes[sequence[|sequence| - 1]].kind != Condition {
        return Fail(ElseWithoutIf(token.line));
      }
      var nextToken := if tokenIndex + 1 < |tokens| then Some(tokens[tokenIndex + 1]) else None;
      if nextToken.Some? && nextToken.value.kind == Keyword && nextToken.value.value == "if" {
        return Fail(ElseIfUnsupported(token.line));
      }
    }
    r := Ok(st.(tree := Tree(nodes, blocks), state := state, expected := expected));
  }

  /** The `grouping` branch of the callback, for an accepted token. */
  method ReadGrouping(st: Builder, tokens: seq<Token>, tokenIndex: nat) returns (r: Result<Builder>)
    requires tokenIndex < |tokens| && Valid(st)
    ensures r == GroupingStep(st, tokens[tokenIndex])
  {
    var token := tokens[tokenIndex];
    var nodes, blocks, statements, parentStack := st.tree.nodes, st.tree.blocks, st.statements, st.parentStack;
    var state, expected := st.state, st.expected;
    if token.value == "(" {
      expected := Some(["statement"]);
    } else if token.value == ")" {
      expected := Some(["{"]);
    } else if token.value == "{" {
      expected := Some(AfterOpen);
      if statements.None? {
        return Fail(UndefinedAccess(token));
      }
      var s := statements.value;
      var sequence := blocks[s];
      if state == IfHead || state == ElseHead || state == WhileHead {
        if sequence == [] {
          return Fail(UndefinedAccess(token));
        }
        var lastStatement := sequence[|sequence| - 1];
        var newBlock := Some(|blocks|);
        if state == IfHead {
          state := ThenBody;
          nodes := nodes[lastStatement := nodes[lastStatement].(thenBlock := newBlock)];
        } else if state == ElseHead {
          nodes := nodes[lastStatement := nodes[lastStatement].(elseBlock := newBlock)];
        } else {
          state := LoopBody;
          nodes := nodes[lastStatement := nodes[lastStatement].(loopBlock := newBlock)];
        }
        blocks := blocks + [[]];
        parentStack := parentStack + [s];
        statements := newBlock;
      }
    } else if token.value == "}" {
      expected := Some(AfterClose);
      if parentStack == [] {
        statements := None;
      } else {
        statements := Some(parentStack[|parentStack| - 1]);
        parentStack := parentStack[..|parentStack| - 1];
      }
    }
    r := Ok(Builder(Tree(nodes, blocks), statements, parentStack, state, expected, st.currId));
  }

  /** The branch of the callback for `text`, `start` and `end` tokens, once accepted. */
  method ReadStatement(st: Builder, tokens: seq<Token>, tokenIndex: nat) returns (r: Result<Builder>)
    requires tokenIndex < |tokens| && Valid(st)
    ensures r == StatementStep(st, tokens[tokenIndex])
  {
    var token := tokens[tokenIndex];
    var nodes, blocks, statements, currId := st.tree.nodes, st.tree.blocks, st.statements, st.currId;
    var head := st.state == IfHead || st.state == WhileHead;
    var expected := Some(if head then [")"] else AfterStatement);
    if statements.None? {
      return Fail(UndefinedAccess(token));
    }
    if head {
      var sequence := blocks[statements.value];
      if sequence == [] {
        return Fail(UndefinedAccess(token));
      }
      var lastStatement := sequence[|sequence| - 1];
      nodes := nodes[lastStatement := nodes[lastStatement].(id := Some(currId), text := Some(token.value))];
    } else {
      blocks := blocks[statements.value := blocks[statements.value] + [|nodes|]];
      nodes := nodes + [Node(Statement, Some(currId), Some(token.value), token.kind == End, None, None, None)];
    }
    currId := currId + 1;
    r := Ok(st.(tree := Tree(nodes, blocks), expected := expected, currId := currId));
  }

  // ---------------------------------------------------------------------------
  // What the pass guarantees when the token list starts with a statement
  // token (as the preprocessed list does, with its `Start` sentinel).

  /** The node at the end of the active block, if there is one. */
  ghost function Last(st: Builder): Option<Node>
    requires Valid(st)
  {
    match st.statements
    case None => None
    case Some(s) =>
      match LastNode(st.tree, s)
      case None => None
      case Some(n) => Some(st.tree.nodes[n])
  }

  ghost predicate LastIs(st: Builder, k: NodeKind)
    requires Valid(st)
  {
    Last(st).Some? && Last(st).value.kind == k
  }

  /** The lists `expected` takes while a condition or loop header is read. */
  predicate HeadList(e: seq<string>) {
    e == ["("] || e == ["statement"] || e == [")"] || e == ["{"]
  }

  predicate KnownList(e: seq<string>) {
    HeadList(e) || e == ["if", "{"] || e == AfterOpen || e == AfterClose || e == AfterStatement
  }

  /** How `state`, `expected` and the active block agree after the first token:
      a header state has its condition or loop node at the end of the active
      block, still without an id exactly until the `(` has been followed by
      its text; `["if", "{"]` follows an `else` whose `if` node is last; and
      the active block is undefined only after a `}`. */
  ghost predicate Disciplined(st: Builder)
    requires Valid(st)
  {
    && st.expected.Some? && KnownList(st.expected.value)
    && ((st.state == IfHead || st.state == WhileHead) <==> HeadList(st.expected.value))
    && (st.state == IfHead ==> LastIs(st, Condition))
    && (st.state == WhileHead ==> LastIs(st, Loop))
    && ((st.state == IfHead || st.state == WhileHead) ==>
          (Last(st).value.id.None? <==> (st.expected.value == ["("] || st.expected.value == ["statement"])))
    && (st.expected.value == ["if", "{"] ==> st.state == ElseHead && LastIs(st, Condition))
    && (st.statements.None? ==> st.expected.value == AfterClose)
  }

  /** `{` pushes and `}` pops: the parent stack is as deep as the braces read
      so far are unbalanced, and the active block is lost exactly when more
      `}` than `{` have been read. */
  ghost predicate Nesting(st: Builder, read: seq<Token>) {
    && (st.statements.Some? ==> |st.parentStack| == Depth(read))
    && (st.statements.None? ==> Depth(read) < 0 && st.parentStack == [])
  }

  predicate IdUsed(nodes: seq<Node>, k: nat) {
    exists n :: 0 <= n < |nodes| && nodes[n].id == Some(k)
  }

  /** Ids follow the statement tokens: id `k` belongs to exactly one node and
      carries the text of the `k`-th statement token; a statement node is an
      end node exactly when its token is the `End` sentinel. */
  ghost predicate IdsFollow(nodes: seq<Node>, currId: nat, stmts: seq<Token>) {
    && currId == |stmts|
    && (forall n :: 0 <= n < |nodes| && nodes[n].id.Some? ==>
          nodes[n].id.value < |stmts| && nodes[n].text == Some(stmts[nodes[n].id.value].value))
    && (forall n :: 0 <= n < |nodes| && nodes[n].kind == Statement ==>
          nodes[n].id.Some? && nodes[n].isEnd == (stmts[nodes[n].id.value].kind == End))
    && (forall n :: 0 <= n < |nodes| && nodes[n].kind != Statement ==> !nodes[n].isEnd)
    && (forall n, m :: 0 <= n < m < |nodes| && nodes[n].id.Some? && nodes[m].id.Some? ==> nodes[n].id != nodes[m].id)
    && (forall k :: 0 <= k < |stmts| ==> IdUsed(nodes, k))
  }

  ghost predicate Good(st: Builder, tokens: seq<Token>, n: nat)
    requires n <= |tokens|
  {
    Valid(st) && Disciplined(st) && Nesting(st, tokens[..n]) && IdsFollow(st.tree.nodes, st.currId, StatementTokens(tokens[..n]))
  }

  lemma ReadOne(tokens: seq<Token>, i: nat)
    requires i < |tokens|
    ensures StatementTokens(tokens[..i + 1]) ==
      StatementTokens(tokens[..i]) + (if IsStatementToken(tokens[i]) then [tokens[i]] else [])
    ensures Depth(tokens[..i + 1]) == Depth(tokens[..i]) + Depth([tokens[i]])
  {
    assert tokens[..i + 1] == tokens[..i] + [tokens[i]];
    assert tokens[..i + 1][..i] == tokens[..i];
    CountGroupingAppend(tokens[..i], [tokens[i]], '{');
    CountGroupingAppend(tokens[..i], [tokens[i]], '}');
  }

  /** Appending a node keeps the ids of the nodes already there. */
  lemma AppendKeepsIds(nodes: seq<Node>, x: Node, stmts: seq<Token>)
    requires forall k :: 0 <= k < |stmts| ==> IdUsed(nodes, k)
    ensures forall k :: 0 <= k < |stmts| ==> IdUsed(nodes + [x], k)
  {
    forall k | 0 <= k < |stmts| ensures IdUsed(nodes + [x], k) {
      assert IdUsed(nodes, k);
      var n :| 0 <= n < |nodes| && nodes[n].id == Some(k);
      assert (nodes + [x])[n] == nodes[n];
    }
  }

  /** Replacing a node by one with the same id, text, kind and end flag
      keeps the ids following the statement tokens. */
  lemma ReplaceKeepsIds(nodes: seq<Node>, n: nat, y: Node, stmts: seq<Token>)
    requires n < |nodes| && IdsFollow(nodes, |stmts|, stmts)
    requires y.id == nodes[n].id && y.text == nodes[n].text && y.kind == nodes[n].kind && y.isEnd == nodes[n].isEnd
    ensures IdsFollow(nodes[n := y], |stmts|, stmts)
  {
    var nodes' := nodes[n := y];
    forall k | 0 <= k < |stmts| ensures IdUsed(nodes', k) {
      assert IdUsed(nodes, k);
      var m :| 0 <= m < |nodes| && nodes[m].id == Some(k);
      assert nodes'[m].id == Some(k);
    }
  }

  /** A new condition or loop node, still without an id, keeps the ids. */
  lemma AppendHeaderIds(nodes: seq<Node>, kind: NodeKind, stmts: seq<Token>)
    requires kind != Statement && IdsFollow(nodes, |stmts|, stmts)
    ensures IdsFollow(nodes + [Header(kind)], |stmts|, stmts)
  {
    AppendKeepsIds(nodes, Header(kind), stmts);
  }

  /** A new statement node takes the next id and the text of its token. */
  lemma AppendStatementIds(nodes: seq<Node>, token: Token, stmts: seq<Token>)
    requires IdsFollow(nodes, |stmts|, stmts)
    ensures IdsFollow(nodes + [Node(Statement, Some(|stmts|), Some(token.value), token.kind == End, None, None, None)],
                      |stmts| + 1, stmts + [token])
  {
    var x := Node(Statement, Some(|stmts|), Some(token.value), token.kind == End, None, None, None);
    var nodes' := nodes + [x];
    var stmts' := stmts + [token];
    forall k | 0 <= k < |stmts'| ensures IdUsed(nodes', k) {
      if k < |stmts| {
        assert IdUsed(nodes, k);
        var m :| 0 <= m < |nodes| && nodes[m].id == Some(k);
        assert nodes'[m].id == Some(k);
      } else {
        assert nodes'[|nodes|].id == Some(k);
      }
    }
  }

  /** A condition or loop node without an id takes the next id and the text
      of the token read between its parentheses. */
  lemma RelabelIds(nodes: seq<Node>, n: nat, token: Token, stmts: seq<Token>)
    requires n < |nodes| && nodes[n].id.None? && nodes[n].kind != Statement
    requires IdsFollow(nodes, |stmts|, stmts)
    ensures IdsFollow(nodes[n := nodes[n].(id := Some(|stmts|), text := Some(token.value))], |stmts| + 1, stmts + [token])
  {
    var nodes' := nodes[n := nodes[n].(id := Some(|stmts|), text := Some(token.value))];
    var stmts' := stmts + [token];
    forall k | 0 <= k < |stmts'| ensures IdUsed(nodes', k) {
      if k < |stmts| {
        assert IdUsed(nodes, k);
        var m :| 0 <= m < |nodes| && nodes[m].id == Some(k);
        assert nodes'[m].id == Some(k);
      } else {
        assert nodes'[n].id == Some(k);
      }
    }
  }

  lemma KeywordDisciplined(st: Builder, tokens: seq<Token>, i: nat)
    requires i < |tokens| && Valid(st) && Disciplined(st) && tokens[i].kind == Keyword
    requires Category(tokens[i]) in st.expected.value && KeywordStep(st, tokens, i).Ok?
    ensures Disciplined(KeywordStep(st, tokens, i).value)
  {
    var token := tokens[i];
    if token.value == "if" || token.value == "while" {
      var st' := KeywordStep(st, tokens, i).value;
      assert LastNode(st'.tree, st.statements.value) == Some(|st.tree.nodes|);
    }
  }

  lemma KeywordGood(st: Builder, tokens: seq<Token>, i: nat)
    requires i < |tokens| && Good(st, tokens, i) && tokens[i].kind == Keyword
    requires Category(tokens[i]) in st.expected.value && KeywordStep(st, tokens, i).Ok?
    ensures Good(KeywordStep(st, tokens, i).value, tokens, i + 1)
  {
    KeywordDisciplined(st, tokens, i);
    ReadOne(tokens, i);
    DepthOne(tokens[i]);
    var token := tokens[i];
    if token.value == "if" || token.value == "while" {
      var kind := if token.value == "if" then Condition else Loop;
      assert KeywordStep(st, tokens, i).value.tree == Append(st.tree, st.statements.value, Header(kind));
      AppendHeaderIds(st.tree.nodes, kind, StatementTokens(tokens[..i]));
    }
  }

  lemma OpenDisciplined(st: Builder, token: Token)
    requires Valid(st) && Disciplined(st) && IsGrouping(token, '{')
    requires "{" in st.expected.value && GroupingStep(st, token).Ok?
    ensures Disciplined(GroupingStep(st, token).value)
  {
    var st' := GroupingStep(st, token).value;
    if st.state == IfHead || st.state == ElseHead || st.state == WhileHead {
      assert LastNode(st'.tree, st'.statements.value) == None;
    }
  }

  /** `{` opens the block of the header at the end of the active block. */
  lemma OpenGood(st: Builder, tokens: seq<Token>, i: nat)
    requires i < |tokens| && Good(st, tokens, i) && IsGrouping(tokens[i], '{')
    requires "{" in st.expected.value && GroupingStep(st, tokens[i]).Ok?
    ensures Good(GroupingStep(st, tokens[i]).value, tokens, i + 1)
  {
    OpenDisciplined(st, tokens[i]);
    ReadOne(tokens, i);
    DepthOne(tokens[i]);
    var st' := GroupingStep(st, tokens[i]).value;
    if st.state == IfHead || st.state == ElseHead || st.state == WhileHead {
      var n := LastNode(st.tree, st.statements.value).value;
      var y := st'.tree.nodes[n];
      assert st'.tree.nodes == st.tree.nodes[n := y];
      ReplaceKeepsIds(st.tree.nodes, n, y, StatementTokens(tokens[..i]));
    }
  }

  /** `}` returns to the enclosing block. */
  lemma CloseGood(st: Builder, tokens: seq<Token>, i: nat)
    requires i < |tokens| && Good(st, tokens, i) && IsGrouping(tokens[i], '}')
    requires "}" in st.expected.value
    ensures Good(GroupingStep(st, tokens[i]).value, tokens, i + 1)
  {
    ReadOne(tokens, i);
    DepthOne(tokens[i]);
  }

  lemma ParenDisciplined(st: Builder, token: Token)
    requires Valid(st) && Disciplined(st) && token.kind == Grouping
    requires token.value != "{" && token.value != "}"
    requires Category(token) in st.expected.value
    ensures Disciplined(GroupingStep(st, token).value)
  {
  }

  /** `(` and `)` only move through the header states. */
  lemma ParenGood(st: Builder, tokens: seq<Token>, i: nat)
    requires i < |tokens| && Good(st, tokens, i) && tokens[i].kind == Grouping
    requires tokens[i].value != "{" && tokens[i].value != "}"
    requires Category(tokens[i]) in st.expected.value
    ensures Good(GroupingStep(st, tokens[i]).value, tokens, i + 1)
  {
    ParenDisciplined(st, tokens[i]);
    ReadOne(tokens, i);
    DepthOne(tokens[i]);
  }

  lemma GroupingGood(st: Builder, tokens: seq<Token>, i: nat)
    requires i < |tokens| && Good(st, tokens, i) && tokens[i].kind == Grouping
    requires Category(tokens[i]) in st.expected.value && GroupingStep(st, tokens[i]).Ok?
    ensures Good(GroupingStep(st, tokens[i]).value, tokens, i + 1)
  {
    if tokens[i].value == "{" {
      OpenGood(st, tokens, i);
    } else if tokens[i].value == "}" {
      CloseGood(st, tokens, i);
    } else {
      ParenGood(st, tokens, i);
    }
  }

  lemma StatementGood(st: Builder, tokens: seq<Token>, i: nat)
    requires i < |tokens| && Good(st, tokens, i) && IsStatementToken(tokens[i])
    requires Category(tokens[i]) in st.expected.value && StatementStep(st, tokens[i]).Ok?
    ensures Good(StatementStep(st, tokens[i]).value, tokens, i + 1)
  {
    ReadOne(tokens, i);
    DepthOne(tokens[i]);
    var token := tokens[i];
    var st' := StatementStep(st, token).value;
    var before := StatementTokens(tokens[..i]);
    assert StatementTokens(tokens[..i + 1]) == before + [token];
    var nodes := st.tree.nodes;
    var s := st.statements.value;
    if st.state == IfHead || st.state == WhileHead {
      var n := LastNode(st.tree, s).value;
      assert st'.tree.nodes == nodes[n := nodes[n].(id := Some(st.currId), text := Some(token.value))];
      RelabelIds(nodes, n, token, before);
      assert LastNode(st'.tree, s) == Some(n);
    } else {
      AppendStatementIds(nodes, token, before);
      assert st'.tree.nodes == nodes + [Node(Statement, Some(st.currId), Some(token.value), token.kind == End, None, None, None)];
    }
  }

  lemma StepGood(st: Builder, tokens: seq<Token>, i: nat)
    requires i < |tokens| && Good(st, tokens, i)
    requires Step(st, tokens, i).Ok?
    ensures Good(Step(st, tokens, i).value, tokens, i + 1)
  {
    if tokens[i].kind == Keyword {
      KeywordGood(st, tokens, i);
    } else if tokens[i].kind == Grouping {
      GroupingGood(st, tokens, i);
    } else {
      StatementGood(st, tokens, i);
    }
  }

  /** The state after the first token: node 0 in block 0, with id 0. */
  function FirstState(t: Token): Builder {
    Builder(Tree([Node(Statement, Some(0), Some(t.value), t.kind == End, None, None, None)], [[0]]),
            Some(0), [], Root, Some(AfterStatement), 1)
  }

  /** The first token, a statement token, becomes node 0 with id 0. */
  lemma FirstStep(tokens: seq<Token>)
    requires 1 <= |tokens| && IsStatementToken(tokens[0])
    ensures Step(Init, tokens, 0) == Ok(FirstState(tokens[0]))
  {
    var t := tokens[0];
    var x := Node(Statement, Some(0), Some(t.value), t.kind == End, None, None, None);
    var blocks: seq<seq<nat>> := Init.tree.blocks[0 := Init.tree.blocks[0] + [0]];
    assert |blocks| == 1 && blocks[0] == [0];
    assert blocks == [[0]];
    assert Append(Init.tree, 0, x) == Tree([x], [[0]]);
  }

  lemma FirstValid(t: Token)
    ensures Valid(FirstState(t)) && Disciplined(FirstState(t))
  {
    var st := FirstState(t);
    assert LastNode(st.tree, 0) == Some(0);
  }

  lemma FirstIds(tokens: seq<Token>)
    requires 1 <= |tokens| && IsStatementToken(tokens[0])
    ensures StatementTokens(tokens[..1]) == [tokens[0]]
    ensures IdsFollow(FirstState(tokens[0]).tree.nodes, 1, [tokens[0]])
  {
    var t := tokens[0];
    assert tokens[..1][..0] == [];
    var nodes := FirstState(t).tree.nodes;
    assert [] + nodes == nodes;
    assert [] + [t] == [t];
    AppendStatementIds([], t, []);
  }

  lemma FirstNesting(tokens: seq<Token>)
    requires 1 <= |tokens| && IsStatementToken(tokens[0])
    ensures Depth(tokens[..1]) == 0
  {
    assert tokens[..1] == [tokens[0]];
    DepthOne(tokens[0]);
  }

  lemma FirstGood(tokens: seq<Token>)
    requires 1 <= |tokens| && IsStatementToken(tokens[0])
    ensures Valid(FirstState(tokens[0])) && Good(FirstState(tokens[0]), tokens, 1)
  {
    FirstValid(tokens[0]);
    FirstIds(tokens);
    FirstNesting(tokens);
  }

  /** After the first token, every successful prefix of the pass is disciplined,
      nests as its braces do and numbers its statement tokens in order. */
  lemma {:induction false} RunGood(tokens: seq<Token>, n: nat)
    requires 1 <= n <= |tokens| && IsStatementToken(tokens[0])
    requires Run(tokens, n).Ok?
    ensures Good(Run(tokens, n).value, tokens, n)
  {
    if n == 1 {
      assert Run(tokens, 1) == Step(Init, tokens, 0);
      FirstStep(tokens);
      FirstGood(tokens);
    } else {
      RunGood(tokens, n - 1);
      StepGood(Run(tokens, n - 1).value, tokens, n - 1);
    }
  }

  /** Every statement token gets its id and its text in a successful pass. */
  lemma BuildIds(tokens: seq<Token>)
    requires |tokens| >= 1 && IsStatementToken(tokens[0]) && Build(tokens).Ok?
    ensures IdsFollow(Build(tokens).value.nodes, |StatementTokens(tokens)|, StatementTokens(tokens))
  {
    RunGood(tokens, |tokens|);
    assert tokens[..|tokens|] == tokens;
  }

  /** A failed pass failed at some token, after accepting all earlier ones. */
  lemma {:induction false} FirstFailure(tokens: seq<Token>, n: nat)
    requires n <= |tokens| && Run(tokens, n).Fail?
    ensures exists i :: 0 <= i < n && Run(tokens, i).Ok? && Step(Run(tokens, i).value, tokens, i) == Run(tokens, n)
  {
    if Run(tokens, n - 1).Fail? {
      FirstFailure(tokens, n - 1);
    } else {
      assert Step(Run(tokens, n - 1).value, tokens, n - 1) == Run(tokens, n);
    }
  }

  /** The errors one token can raise, and what each says about the token. */
  lemma StepFailure(st: Builder, tokens: seq<Token>, i: nat)
    requires i < |tokens| && Valid(st) && Step(st, tokens, i).Fail?
    ensures var e := Step(st, tokens, i).error;
      && (e.Unexpected? || e.ElseWithoutIf? || e.ElseIfUnsupported? || e.UndefinedAccess?)
      && (e.Unexpected? ==> e.token == tokens[i] && st.expected == Some(e.expected) && Category(tokens[i]) !in e.expected)
      && (e.ElseWithoutIf? ==> IsKeyword(tokens[i], "else") && e.line == tokens[i].line)
      && (e.ElseIfUnsupported? ==> ElseIfAt(tokens, i + 1) && e.line == tokens[i].line)
      && (e.UndefinedAccess? ==> e.token == tokens[i] && (Disciplined(st) ==> st.statements.None?))
  {
  }

  /** How a pass can fail: a token outside the expected categories (never the
      first token), an `else` that does not follow a condition, an `else`
      directly followed by `if`, or a read through an undefined block. */
  lemma BuildFailure(tokens: seq<Token>)
    requires Build(tokens).Fail?
    ensures var e := Build(tokens).error;
      && (e.Unexpected? || e.ElseWithoutIf? || e.ElseIfUnsupported? || e.UndefinedAccess?)
      && (e.Unexpected? ==> exists i :: 1 <= i < |tokens| && tokens[i] == e.token && Category(e.token) !in e.expected)
      && (e.ElseWithoutIf? ==> exists i :: 0 <= i < |tokens| && IsKeyword(tokens[i], "else") && tokens[i].line == e.line)
      && (e.ElseIfUnsupported? ==> exists i :: 0 <= i < |tokens| && ElseIfAt(tokens, i + 1) && tokens[i].line == e.line)
      && (e.UndefinedAccess? ==> exists i :: 0 <= i < |tokens| && tokens[i] == e.token)
  {
    FirstFailure(tokens, |tokens|);
    var i :| 0 <= i < |tokens| && Run(tokens, i).Ok? && Step(Run(tokens, i).value, tokens, i) == Run(tokens, |tokens|);
    StepFailure(Run(tokens, i).value, tokens, i);
    if i == 0 {
      assert Run(tokens, 0).value.expected.None?;
    }
  }

  /** The `else if` guard never fires on a list without `else if`. */
  lemma ElseIfFreeNeverUnsupported(tokens: seq<Token>)
    requires ElseIfFree(tokens)
    ensures !(Build(tokens).Fail? && Build(tokens).error.ElseIfUnsupported?)
  {
    if Build(tokens).Fail? && Build(tokens).error.ElseIfUnsupported? {
      BuildFailure(tokens);
    }
  }

  /** After a leading statement token, an unexpected token is checked against
      one of the lists the pass sets, and the TypeScript's `TypeError` can only
      come after a `}` that had nothing left to close. */
  lemma BuildFailureAfterStart(tokens: seq<Token>)
    requires |tokens| >= 1 && IsStatementToken(tokens[0]) && Build(tokens).Fail?
    ensures var e := Build(tokens).error;
      && (e.Unexpected? ==> KnownList(e.expected))
      && (e.UndefinedAccess? ==> exists i :: 1 <= i < |tokens| && tokens[i] == e.token && Depth(tokens[..i]) < 0)
  {
    FirstFailure(tokens, |tokens|);
    var i :| 0 <= i < |tokens| && Run(tokens, i).Ok? && Step(Run(tokens, i).value, tokens, i) == Run(tokens, |tokens|);
    var st := Run(tokens, i).value;
    if i == 0 {
      assert false;
    }
    RunGood(tokens, i);
    StepFailure(st, tokens, i);
  }
}

