/** What the walk of `parse` in flowchartParser.ts promises about the text it
    emits: loops with empty bodies are rejected, a failure anywhere stops the
    whole conversion, the long arrow only enters the End node, the back edge
    of a loop, and the line structure of the output. */
module WalkFacts {
  import opened JsText
  import opened Tokens
  import opened TreeBuilder
  import opened Linearizer

  // ---------------------------------------------------------------------------
  // Failures

  /** A `while` whose body is empty cannot be drawn: the walk from its frame
      reaches the empty body, finds its successor is the loop itself, and
      throws. */
  lemma EmptyLoopFails(t: Tree, f: Link)
    requires WellFormed(t) && FrameOk(t, f) && f.statements.Some?
    requires f.index < |t.blocks[f.statements.value]|
    requires NodeAt(t, f).kind == Loop && NodeAt(t, f).loopBlock.Some?
    requires t.blocks[NodeAt(t, f).loopBlock.value] == []
    ensures Walk(t, f) == Fail(EmptyLoop)
  {
    var cs := Children(t, f);
    var body := Link(NodeAt(t, f).loopBlock, 0, Some(f));
    assert cs[|cs| - 1] == body;
    assert Successor(t, body) == Some(t.blocks[f.statements.value][f.index]);
    assert NonEmptyParent(body.parent) == Some(f);
    assert FrameLines(t, body) == Fail(EmptyLoop);
    assert Walk(t, body) == Fail(EmptyLoop);
    assert WalkAll(t, f, cs) == Fail(EmptyLoop);
  }

  lemma ThenFails(a: Result<seq<Line>>, b: Result<seq<Line>>)
    ensures Then(a, b).Fail? <==> a.Fail? || b.Fail?
  {
  }

  /** The error thrown for any frame the walk reaches ends the walk of every
      frame that (directly) pushed it. */
  lemma {:induction false} ChildFailure(t: Tree, f: Link, k: nat)
    requires WellFormed(t) && FrameOk(t, f) && f.statements.Some?
    requires k < |Children(t, f)|
    requires Walk(t, Children(t, f)[k]).Fail?
    ensures Walk(t, f).Fail?
  {
    var cs := Children(t, f);
    WalkAllPending(t, f, cs);
    PendingFailure(t, cs, k);
  }

  lemma {:induction false} PendingFailure(t: Tree, stack: seq<Link>, k: nat)
    requires WellFormed(t) && forall i :: 0 <= i < |stack| ==> FrameOk(t, stack[i])
    requires k < |stack| && Walk(t, stack[k]).Fail?
    ensures Pending(t, stack).Fail?
    decreases |stack|
  {
    if k < |stack| - 1 {
      PendingFailure(t, stack[..|stack| - 1], k);
    }
  }

  // ---------------------------------------------------------------------------
  // Edges

  /** `id` is the id of an End node. */
  ghost predicate EndId(t: Tree, id: Option<nat>) {
    exists n :: 0 <= n < |t.nodes| && t.nodes[n].isEnd && t.nodes[n].id == id
  }

  /** Every long arrow (`--->`) points at an End node. */
  ghost predicate LongToEnd(t: Tree, lines: seq<Line>) {
    forall k :: 0 <= k < |lines| && lines[k].Edge? && lines[k].long ==> EndId(t, lines[k].target)
  }

  lemma FrameLongToEnd(t: Tree, f: Link)
    requires WellFormed(t) && FrameOk(t, f) && f.statements.Some?
    ensures FrameLines(t, f).Ok? ==> LongToEnd(t, FrameLines(t, f).value)
  {
    var next := Successor(t, f);
    if f.index < |t.blocks[f.statements.value]| && next.Some? && t.nodes[next.value].isEnd {
      assert EndId(t, IdOf(t, next));
    }
  }

  lemma LongToEndAppend(t: Tree, a: seq<Line>, b: seq<Line>)
    requires LongToEnd(t, a) && LongToEnd(t, b)
    ensures LongToEnd(t, a + b)
  {
    forall k | 0 <= k < |a + b| && (a + b)[k].Edge? && (a + b)[k].long
      ensures EndId(t, (a + b)[k].target)
    {
      if k < |a| {
        assert (a + b)[k] == a[k];
      } else {
        assert (a + b)[k] == b[k - |a|];
      }
    }
  }

  /** The walk from any frame draws `--->` only into End nodes (the
      separator is chosen from the successor's `isEnd` flag). */
  lemma {:induction false} WalkLongToEnd(t: Tree, f: Link)
    requires WellFormed(t) && FrameOk(t, f)
    ensures Walk(t, f).Ok? ==> LongToEnd(t, Walk(t, f).value)
    decreases Rank(t, f), Rest(t, f)
  {
    if f.statements.Some? {
      FrameLongToEnd(t, f);
      WalkAllLongToEnd(t, f, Children(t, f));
      if Walk(t, f).Ok? {
        LongToEndAppend(t, FrameLines(t, f).value, WalkAll(t, f, Children(t, f)).value);
      }
    }
  }

  lemma {:induction false} WalkAllLongToEnd(t: Tree, f: Link, cs: seq<Link>)
    requires WellFormed(t) && FrameOk(t, f) && f.statements.Some?
    requires forall k :: 0 <= k < |cs| ==> FrameOk(t, cs[k]) && Below(t, cs[k], f)
    ensures WalkAll(t, f, cs).Ok? ==> LongToEnd(t, WalkAll(t, f, cs).value)
    decreases Rank(t, f), Rest(t, f), |cs|
  {
    if cs != [] {
      var last := cs[|cs| - 1];
      assert Below(t, last, f);
      WalkLongToEnd(t, last);
      WalkAllLongToEnd(t, f, cs[..|cs| - 1]);
      if WalkAll(t, f, cs).Ok? {
        LongToEndAppend(t, Walk(t, last).value, WalkAll(t, f, cs[..|cs| - 1]).value);
      }
    }
  }

  /** The last statement of a loop body flows back to the loop. */
  lemma LoopBackEdge(t: Tree, f: Link)
    requires WellFormed(t) && FrameOk(t, f) && f.statements.Some?
    requires f.index < |t.blocks[f.statements.value]|
    requires NodeAt(t, f).kind == Loop && NodeAt(t, f).loopBlock.Some?
    requires |t.blocks[NodeAt(t, f).loopBlock.value]| > 0
    ensures var body := NodeAt(t, f).loopBlock.value;
      Successor(t, Link(Some(body), |t.blocks[body]| - 1, Some(f))) == Some(t.blocks[f.statements.value][f.index])
  {
  }

  /** The last node of a `then` or `else` block has the condition's own
      successor: the climb passes a condition by. */
  lemma BranchEndJoins(t: Tree, f: Link, body: nat)
    requires WellFormed(t) && FrameOk(t, f) && f.statements.Some?
    requires f.index < |t.blocks[f.statements.value]|
    requires NodeAt(t, f).kind == Condition
    requires NodeAt(t, f).thenBlock == Some(body) || NodeAt(t, f).elseBlock == Some(body)
    requires |t.blocks[body]| > 0
    ensures Successor(t, Link(Some(body), |t.blocks[body]| - 1, Some(f))) == Successor(t, f)
  {
  }

  /** An empty `then` block draws the `Yes` edge from the condition straight
      to the condition's successor. */
  lemma EmptyThenYesEdge(t: Tree, f: Link)
    requires WellFormed(t) && FrameOk(t, f) && f.statements.Some?
    requires f.index < |t.blocks[f.statements.value]|
    requires NodeAt(t, f).kind == Condition && NodeAt(t, f).thenBlock.Some?
    requires t.blocks[NodeAt(t, f).thenBlock.value] == []
    requires Successor(t, f).Some?
    ensures Walk(t, Link(NodeAt(t, f).thenBlock, 0, Some(f)))
      == Ok([Edge(NodeAt(t, f).id, Yes, false, IdOf(t, Successor(t, f)))])
  {
    var body := Link(NodeAt(t, f).thenBlock, 0, Some(f));
    assert Successor(t, body) == Successor(t, f);
    assert NonEmptyParent(body.parent) == Some(f);
    assert Children(t, body) == [];
    assert [Edge(NodeAt(t, f).id, Yes, false, IdOf(t, Successor(t, f)))] + [] == [Edge(NodeAt(t, f).id, Yes, false, IdOf(t, Successor(t, f)))];
  }

  /** The walk only ever fails with one of its two errors: an undefined block
      (a condition or loop without braces) or an empty loop body. */
  lemma {:induction false} WalkErrors(t: Tree, f: Link)
    requires WellFormed(t) && FrameOk(t, f)
    ensures Walk(t, f).Fail? ==> Walk(t, f).error == NoStatement || Walk(t, f).error == EmptyLoop
    decreases Rank(t, f), Rest(t, f)
  {
    if f.statements.Some? {
      WalkAllErrors(t, f, Children(t, f));
    }
  }

  lemma {:induction false} WalkAllErrors(t: Tree, f: Link, cs: seq<Link>)
    requires WellFormed(t) && FrameOk(t, f) && f.statements.Some?
    requires forall k :: 0 <= k < |cs| ==> FrameOk(t, cs[k]) && Below(t, cs[k], f)
    ensures WalkAll(t, f, cs).Fail? ==> WalkAll(t, f, cs).error == NoStatement || WalkAll(t, f, cs).error == EmptyLoop
    decreases Rank(t, f), Rest(t, f), |cs|
  {
    if cs != [] {
      assert Below(t, cs[|cs| - 1], f);
      WalkErrors(t, cs[|cs| - 1]);
      WalkAllErrors(t, f, cs[..|cs| - 1]);
    }
  }

  // ---------------------------------------------------------------------------
  // The text

  ghost predicate OneLine(s: string) {
    '\n' !in s
  }

  /** No node text holds a line break. */
  ghost predicate SingleLineTexts(lines: seq<Line>) {
    forall k :: 0 <= k < |lines| && lines[k].Declare? && lines[k].text.Some? ==> OneLine(lines[k].text.value)
  }

  lemma IdTextOneLine(id: Option<nat>)
    ensures OneLine(IdText(id))
  {
    if id.Some? {
      var s := NatToString(id.value);
      assert forall i :: 0 <= i < |s| ==> IsDigit(s[i]);
      assert IdText(id) == "id" + s;
    }
  }

  lemma RenderOneLine(line: Line)
    requires line.Declare? && line.text.Some? ==> OneLine(line.text.value)
    ensures OneLine(Render(line))
  {
    match line
    case Declare(_, id, _) => IdTextOneLine(id);
    case Edge(source, _, _, target) => IdTextOneLine(source); IdTextOneLine(target);
  }

  /** The emitted text is the header line and one line per emitted `Line`,
      each ended by a newline: splitting it at its line breaks gives them
      back (with the empty piece after the final newline). */
  lemma TextLines(lines: seq<Line>)
    requires SingleLineTexts(lines)
    ensures Split(OutputText(lines), '\n') == [FlowchartHeader] + Rendered(lines) + [""]
  {
    RenderedOneLine(lines);
    HeaderOneLine();
    SplitLines(FlowchartHeader, Rendered(lines));
  }

  lemma RenderedOneLine(lines: seq<Line>)
    requires SingleLineTexts(lines)
    ensures forall i :: 0 <= i < |Rendered(lines)| ==> OneLine(Rendered(lines)[i])
  {
    forall i | 0 <= i < |lines| ensures OneLine(Rendered(lines)[i]) {
      RenderOneLine(lines[i]);
    }
  }

  lemma HeaderOneLine()
    ensures '\n' !in FlowchartHeader
  {
    assert forall i :: 0 <= i < |FlowchartHeader| ==> FlowchartHeader[i] != '\n';
  }

  /** Whatever the lines, the text starts with the header line and ends
      with a newline. */
  lemma HeaderFirst(lines: seq<Line>)
    ensures Split(OutputText(lines), '\n')[0] == FlowchartHeader
    ensures OutputText(lines)[|OutputText(lines)| - 1] == '\n'
  {
    var parts := [FlowchartHeader] + Rendered(lines);
    var rest := if |parts| == 1 then "" else Join(parts[1..], '\n') + "\n";
    assert OutputText(lines) == FlowchartHeader + ['\n'] + rest;
    var s := OutputText(lines);
    assert s[|FlowchartHeader|] == '\n';
    assert s[..|FlowchartHeader|] == FlowchartHeader;
    assert '\n' !in FlowchartHeader;
    assert IndexOf(s, '\n') == |FlowchartHeader|;
  }
}
