/** The shape of the arena `convertToTree` builds: every node sits at one
    place of one node array, and every nested array is the `then`, `else` or
    `loop` array of at most one node. The TypeScript gets this for free from
    nesting fresh arrays; the arena has to prove it. */
module TreeShape {
  import opened Tokens
  import opened TreeBuilder

  /** The block a field of a node refers to. */
  function FieldOf(n: Node, f: Field): Option<nat> {
    match f
    case ThenField => n.thenBlock
    case ElseField => n.elseBlock
    case LoopField => n.loopBlock
  }

  /** A node index appears at most once in all blocks together. */
  ghost predicate PlacedOnce(t: Tree) {
    forall b1, j1, b2, j2 ::
      (0 <= b1 < |t.blocks| && 0 <= j1 < |t.blocks[b1]| && 0 <= b2 < |t.blocks| && 0 <= j2 < |t.blocks[b2]|
       && t.blocks[b1][j1] == t.blocks[b2][j2]) ==> b1 == b2 && j1 == j2
  }

  /** Every field of every node refers to an existing block. */
  ghost predicate FieldsExist(t: Tree) {
    forall n, f :: 0 <= n < |t.nodes| && FieldOf(t.nodes[n], f).Some? ==> FieldOf(t.nodes[n], f).value < |t.blocks|
  }

  /** A block is referred to by at most one field of one node. */
  ghost predicate OwnedOnce(t: Tree) {
    forall n1, f1, n2, f2 ::
      (0 <= n1 < |t.nodes| && 0 <= n2 < |t.nodes| && FieldOf(t.nodes[n1], f1).Some?
       && FieldOf(t.nodes[n1], f1) == FieldOf(t.nodes[n2], f2)) ==> n1 == n2 && f1 == f2
  }

  ghost predicate Tidy(t: Tree) {
    PlacedOnce(t) && FieldsExist(t) && OwnedOnce(t)
  }

  predicate NoFields(n: Node) {
    n.thenBlock.None? && n.elseBlock.None? && n.loopBlock.None?
  }

  /** `statements.push(node)` of a node without arrays keeps the shape. */
  lemma AppendTidy(t: Tree, s: nat, node: Node)
    requires WellFormed(t) && Tidy(t) && s < |t.blocks| && NoFields(node)
    ensures Tidy(Append(t, s, node))
  {
    var t' := Append(t, s, node);
    forall b1, j1, b2, j2 |
      0 <= b1 < |t'.blocks| && 0 <= j1 < |t'.blocks[b1]| && 0 <= b2 < |t'.blocks| && 0 <= j2 < |t'.blocks[b2]|
      && t'.blocks[b1][j1] == t'.blocks[b2][j2]
      ensures b1 == b2 && j1 == j2
    {
      var new1 := b1 == s && j1 == |t.blocks[s]|;
      var new2 := b2 == s && j2 == |t.blocks[s]|;
      if !new1 { assert t'.blocks[b1][j1] == t.blocks[b1][j1] < |t.nodes|; }
      if !new2 { assert t'.blocks[b2][j2] == t.blocks[b2][j2] < |t.nodes|; }
    }
    forall n, f | 0 <= n < |t'.nodes| && FieldOf(t'.nodes[n], f).Some?
      ensures FieldOf(t'.nodes[n], f).value < |t'.blocks|
    {
      assert n < |t.nodes|;
    }
    forall n1, f1, n2, f2 |
      0 <= n1 < |t'.nodes| && 0 <= n2 < |t'.nodes| && FieldOf(t'.nodes[n1], f1).Some?
      && FieldOf(t'.nodes[n1], f1) == FieldOf(t'.nodes[n2], f2)
      ensures n1 == n2 && f1 == f2
    {
      assert n1 < |t.nodes| && n2 < |t.nodes|;
    }
  }

  /** `lastStatement.then = []` (or `else`, `loop`) keeps the shape: the new
      block is referred to by that field alone. */
  lemma AttachTidy(t: Tree, n: nat, f: Field)
    requires Tidy(t) && n < |t.nodes|
    ensures Tidy(Attach(t, n, f))
  {
    var t' := Attach(t, n, f);
    assert FieldOf(t'.nodes[n], f) == Some(|t.blocks|);
    assert forall g :: g != f ==> FieldOf(t'.nodes[n], g) == FieldOf(t.nodes[n], g);
    forall b1, j1, b2, j2 |
      0 <= b1 < |t'.blocks| && 0 <= j1 < |t'.blocks[b1]| && 0 <= b2 < |t'.blocks| && 0 <= j2 < |t'.blocks[b2]|
      && t'.blocks[b1][j1] == t'.blocks[b2][j2]
      ensures b1 == b2 && j1 == j2
    {
      assert b1 < |t.blocks| && b2 < |t.blocks|;
      assert t.blocks[b1][j1] == t.blocks[b2][j2];
    }
    forall m, g | 0 <= m < |t'.nodes| && FieldOf(t'.nodes[m], g).Some?
      ensures FieldOf(t'.nodes[m], g).value < |t'.blocks|
    {
      if m != n || g != f {
        assert FieldOf(t'.nodes[m], g) == FieldOf(t.nodes[m], g);
      }
    }
    forall n1, f1, n2, f2 |
      0 <= n1 < |t'.nodes| && 0 <= n2 < |t'.nodes| && FieldOf(t'.nodes[n1], f1).Some?
      && FieldOf(t'.nodes[n1], f1) == FieldOf(t'.nodes[n2], f2)
      ensures n1 == n2 && f1 == f2
    {
      var old1 := n1 != n || f1 != f;
      var old2 := n2 != n || f2 != f;
      if old1 { assert FieldOf(t'.nodes[n1], f1) == FieldOf(t.nodes[n1], f1); }
      if old2 { assert FieldOf(t'.nodes[n2], f2) == FieldOf(t.nodes[n2], f2); }
    }
  }

  /** Setting a node's id and text keeps the shape. */
  lemma RelabelTidy(t: Tree, n: nat, id: nat, text: string)
    requires Tidy(t) && n < |t.nodes|
    ensures Tidy(t.(nodes := t.nodes[n := t.nodes[n].(id := Some(id), text := Some(text))]))
  {
    var t' := t.(nodes := t.nodes[n := t.nodes[n].(id := Some(id), text := Some(text))]);
    assert forall m, g :: 0 <= m < |t.nodes| ==> FieldOf(t'.nodes[m], g) == FieldOf(t.nodes[m], g);
  }

  lemma KeywordTidy(st: Builder, tokens: seq<Token>, i: nat)
    requires i < |tokens| && Valid(st) && Tidy(st.tree) && KeywordStep(st, tokens, i).Ok?
    ensures Tidy(KeywordStep(st, tokens, i).value.tree)
  {
    var token := tokens[i];
    if token.value == "if" || token.value == "while" {
      AppendTidy(st.tree, st.statements.value, Header(if token.value == "if" then Condition else Loop));
    }
  }

  lemma GroupingTidy(st: Builder, token: Token)
    requires Valid(st) && Tidy(st.tree) && GroupingStep(st, token).Ok?
    ensures Tidy(GroupingStep(st, token).value.tree)
  {
    if token.value == "{" && (st.state == IfHead || st.state == ElseHead || st.state == WhileHead) {
      var s := st.statements.value;
      var last := LastNode(st.tree, s).value;
      assert last == st.tree.blocks[s][|st.tree.blocks[s]| - 1] < |st.tree.nodes|;
      AttachTidy(st.tree, last, ThenField);
      AttachTidy(st.tree, last, ElseField);
      AttachTidy(st.tree, last, LoopField);
    }
  }

  lemma StatementTidy(st: Builder, token: Token)
    requires Valid(st) && Tidy(st.tree) && StatementStep(st, token).Ok?
    ensures Tidy(StatementStep(st, token).value.tree)
  {
    var s := st.statements.value;
    if st.state == IfHead || st.state == WhileHead {
      var n := LastNode(st.tree, s).value;
      assert n == st.tree.blocks[s][|st.tree.blocks[s]| - 1] < |st.tree.nodes|;
      RelabelTidy(st.tree, n, st.currId, token.value);
    } else {
      AppendTidy(st.tree, s, Node(Statement, Some(st.currId), Some(token.value), token.kind == End, None, None, None));
    }
  }

  lemma StepTidy(st: Builder, tokens: seq<Token>, i: nat)
    requires i < |tokens| && Valid(st) && Tidy(st.tree) && Step(st, tokens, i).Ok?
    ensures Tidy(Step(st, tokens, i).value.tree)
  {
    var token := tokens[i];
    if !(st.expected.Some? && Category(token) !in st.expected.value) {
      if token.kind == Keyword {
        KeywordTidy(st, tokens, i);
      } else if token.kind == Grouping {
        GroupingTidy(st, token);
      } else {
        StatementTidy(st, token);
      }
    }
  }

  /** Every successful prefix of the pass leaves a tidy arena. */
  lemma {:induction false} RunTidy(tokens: seq<Token>, n: nat)
    requires n <= |tokens| && Run(tokens, n).Ok?
    ensures Tidy(Run(tokens, n).value.tree)
  {
    if n > 0 {
      var st := Run(tokens, n - 1).value;
      assert Run(tokens, n) == Step(st, tokens, n - 1);
      RunTidy(tokens, n - 1);
      StepTidy(st, tokens, n - 1);
    }
  }

  /** The tree of a successful pass is tidy. */
  lemma BuildTidy(tokens: seq<Token>)
    requires Build(tokens).Ok?
    ensures Tidy(Build(tokens).value)
  {
    RunTidy(tokens, |tokens|);
  }

  /** A second `else` block for the same condition: the `{` after `else`
      replaces the condition's `else` array, and nothing refers to the old
      array any more. */
  lemma SecondElseOrphans(st: Builder, token: Token)
    requires Valid(st) && Tidy(st.tree) && token.kind == Grouping && token.value == "{"
    requires st.state == ElseHead && st.statements.Some?
    requires LastNode(st.tree, st.statements.value).Some?
    requires st.tree.nodes[LastNode(st.tree, st.statements.value).value].elseBlock.Some?
    ensures GroupingStep(st, token).Ok?
    ensures var c := st.tree.nodes[LastNode(st.tree, st.statements.value).value].elseBlock.value;
      var t' := GroupingStep(st, token).value.tree;
      forall n, f :: 0 <= n < |t'.nodes| ==> FieldOf(t'.nodes[n], f) != Some(c)
  {
    var s := st.statements.value;
    var last := LastNode(st.tree, s).value;
    assert last == st.tree.blocks[s][|st.tree.blocks[s]| - 1] < |st.tree.nodes|;
    var c := st.tree.nodes[last].elseBlock.value;
    assert FieldOf(st.tree.nodes[last], ElseField) == Some(c);
    var t' := GroupingStep(st, token).value.tree;
    assert t' == Attach(st.tree, last, ElseField);
    forall n, f | 0 <= n < |t'.nodes| ensures FieldOf(t'.nodes[n], f) != Some(c) {
      if n != last || f != ElseField {
        assert FieldOf(t'.nodes[n], f) == FieldOf(st.tree.nodes[n], f);
      }
    }
  }

  /** No field of any node refers to block `c`. */
  ghost predicate Unreferenced(t: Tree, c: nat) {
    c < |t.blocks| && forall n, f :: 0 <= n < |t.nodes| ==> FieldOf(t.nodes[n], f) != Some(c)
  }

  lemma AppendKeepsUnreferenced(t: Tree, s: nat, node: Node, c: nat)
    requires s < |t.blocks| && NoFields(node) && Unreferenced(t, c)
    ensures Unreferenced(Append(t, s, node), c)
  {
    var t' := Append(t, s, node);
    forall n, f | 0 <= n < |t'.nodes| ensures FieldOf(t'.nodes[n], f) != Some(c) {
      if n < |t.nodes| {
        assert t'.nodes[n] == t.nodes[n];
      }
    }
  }

  /** A new array is never an old one, so attaching it leaves `c` unreferenced. */
  lemma AttachKeepsUnreferenced(t: Tree, n: nat, f: Field, c: nat)
    requires n < |t.nodes| && Unreferenced(t, c)
    ensures Unreferenced(Attach(t, n, f), c)
  {
    var t' := Attach(t, n, f);
    forall m, g | 0 <= m < |t'.nodes| ensures FieldOf(t'.nodes[m], g) != Some(c) {
      if m != n || g != f {
        assert FieldOf(t'.nodes[m], g) == FieldOf(t.nodes[m], g);
      }
    }
  }

  lemma {:induction false} StepKeepsUnreferenced(st: Builder, tokens: seq<Token>, i: nat, c: nat, st': Builder)
    requires i < |tokens| && Valid(st) && Unreferenced(st.tree, c) && Step(st, tokens, i) == Ok(st')
    ensures Unreferenced(st'.tree, c)
  {
    var token := tokens[i];
    var t := st.tree;
    if token.kind == Keyword && (token.value == "if" || token.value == "while") {
      AppendKeepsUnreferenced(t, st.statements.value, Header(if token.value == "if" then Condition else Loop), c);
    } else if token.kind == Grouping && token.value == "{"
      && (st.state == IfHead || st.state == ElseHead || st.state == WhileHead)
    {
      var s := st.statements.value;
      var last := LastNode(t, s).value;
      assert last == t.blocks[s][|t.blocks[s]| - 1] < |t.nodes|;
      AttachKeepsUnreferenced(t, last, ThenField, c);
      AttachKeepsUnreferenced(t, last, ElseField, c);
      AttachKeepsUnreferenced(t, last, LoopField, c);
    } else if token.kind != Keyword && token.kind != Grouping {
      var s := st.statements.value;
      if st.state == IfHead || st.state == WhileHead {
        var n := LastNode(t, s).value;
        assert n == t.blocks[s][|t.blocks[s]| - 1] < |t.nodes|;
        var t' := t.(nodes := t.nodes[n := t.nodes[n].(id := Some(st.currId), text := Some(token.value))]);
        assert forall m, g :: 0 <= m < |t.nodes| ==> FieldOf(t'.nodes[m], g) == FieldOf(t.nodes[m], g);
      } else {
        AppendKeepsUnreferenced(t, s, Node(Statement, Some(st.currId), Some(token.value), token.kind == End, None, None, None), c);
      }
    }
  }

  /** Once no field refers to a block, none does for the rest of the pass. */
  lemma {:induction false} RunKeepsUnreferenced(tokens: seq<Token>, m: nat, n: nat, c: nat)
    requires m <= n <= |tokens| && Run(tokens, n).Ok?
    ensures Run(tokens, m).Ok?
    ensures Unreferenced(Run(tokens, m).value.tree, c) ==> Unreferenced(Run(tokens, n).value.tree, c)
    decreases n
  {
    if m < n {
      var st := Run(tokens, n - 1).value;
      assert Run(tokens, n) == Step(st, tokens, n - 1);
      RunKeepsUnreferenced(tokens, m, n - 1, c);
      if Unreferenced(Run(tokens, m).value.tree, c) {
        StepKeepsUnreferenced(st, tokens, n - 1, c, Run(tokens, n).value);
      }
    }
  }
}
