/** The linearizer (`parse` in flowchartParser.ts): a walk over the tree with
    an explicit stack of `Link` frames that declares each node it reaches and emits the
    edge to its successor, in the Mermaid flowchart syntax.

    A `Link` never changes once made, so the frame chain is a value: a frame
    holds its enclosing frame. The walk is specified by `Walk`, a recursion
    over frames in the order the stack pops them (a node's own lines, then its
    `then`/`loop` block, then its `else` block, then its next sibling); the
    method `Parse` runs the stack machine and is proved to produce the same
    text. */
module Linearizer {
  import opened JsText
  import opened Tokens
  import opened TreeBuilder

  /** A frame: a position in a node array, and the frame that pushed it. */
  datatype Link = Link(statements: Option<nat>, index: nat, parent: Option<Link>)

  datatype Label = Plain | Yes | No

  /** One output line: a node declaration (a box for statements, a diamond for
      conditions and loops) or an edge. Ids and texts are `None` where the
      TypeScript reads `undefined`. */
  datatype Line =
    | Declare(box: bool, id: Option<nat>, text: Option<string>)
    | Edge(source: Option<nat>, branch: Label, long: bool, target: Option<nat>)

  /** An enclosing frame chain as the walk builds it: every frame in it is
      defined and points at an existing node. */
  ghost predicate ChainOk(t: Tree, p: Option<Link>)
    decreases p
  {
    match p
    case None => true
    case Some(l) =>
      && l.statements.Some? && l.statements.value < |t.blocks|
      && l.index < |t.blocks[l.statements.value]|
      && ChainOk(t, l.parent)
  }

  ghost predicate FrameOk(t: Tree, f: Link) {
    (f.statements.Some? ==> f.statements.value < |t.blocks|) && ChainOk(t, f.parent)
  }

  /** `statements[index]`. */
  function At(t: Tree, b: nat, i: nat): (r: Option<nat>)
    requires WellFormed(t) && b < |t.blocks|
    ensures r.Some? ==> r.value < |t.nodes|
  {
    if i < |t.blocks[b]| then Some(t.blocks[b][i]) else None
  }

  /** The climb through the enclosing frames: the enclosing node if it is a
      loop (the back edge), else the node after it, else further up. */
  function Climb(t: Tree, p: Option<Link>): (r: Option<nat>)
    requires WellFormed(t) && ChainOk(t, p)
    ensures r.Some? ==> r.value < |t.nodes|
    decreases p
  {
    match p
    case None => None
    case Some(l) =>
      var b := l.statements.value;
      var ps := At(t, b, l.index);
      if ps.Some? && t.nodes[ps.value].kind == Loop then ps
      else if At(t, b, l.index + 1).Some? then At(t, b, l.index + 1)
      else Climb(t, l.parent)
  }

  /** The node the walk goes to after the one at frame `f`. */
  function Successor(t: Tree, f: Link): (r: Option<nat>)
    requires WellFormed(t) && FrameOk(t, f) && f.statements.Some?
    ensures r.Some? ==> r.value < |t.nodes|
  {
    var next := At(t, f.statements.value, f.index + 1);
    if next.Some? then next else Climb(t, f.parent)
  }

  /** The first enclosing frame whose node array is defined. */
  function NonEmptyParent(p: Option<Link>): Option<Link>
    decreases p
  {
    match p
    case None => None
    case Some(l) => if l.statements.None? then NonEmptyParent(l.parent) else p
  }

  /** The block a condition or loop runs when its test holds. */
  function Inner(n: Node): Option<nat> {
    if n.kind == Condition then n.thenBlock else n.loopBlock
  }

  function IdOf(t: Tree, n: Option<nat>): Option<nat>
    requires n.Some? ==> n.value < |t.nodes|
  {
    if n.Some? then t.nodes[n.value].id else None
  }

  /** The lines one popped frame emits (the frame's node array is defined). */
  function FrameLines(t: Tree, f: Link): Result<seq<Line>>
    requires WellFormed(t) && FrameOk(t, f) && f.statements.Some?
  {
    if f.index >= |t.blocks[f.statements.value]| then EmptyBlockLines(t, f, Successor(t, f))
    else Ok(NodeLines(t, f, Successor(t, f)))
  }

  /** An empty block: a `Yes` edge from the enclosing condition to the
      successor, or the failure of an empty loop body. */
  function EmptyBlockLines(t: Tree, f: Link, next: Option<nat>): Result<seq<Line>>
    requires WellFormed(t) && FrameOk(t, f) && f.statements.Some?
    requires next.Some? ==> next.value < |t.nodes|
  {
    if next.None? then Ok([])
    else
      match NonEmptyParent(f.parent)
      case None => Ok([])
      case Some(p) =>
        assert p == f.parent.value;
        var prev := t.nodes[t.blocks[p.statements.value][p.index]];
        if prev.kind == Condition then Ok([Edge(prev.id, Yes, false, IdOf(t, next))])
        else if prev.kind == Loop then Fail(EmptyLoop)
        else Ok([])
  }

  /** The frame's node (the frame is not past the end of its block). */
  function NodeAt(t: Tree, f: Link): (node: Node)
    requires WellFormed(t) && FrameOk(t, f) && f.statements.Some?
    requires f.index < |t.blocks[f.statements.value]|
    ensures ChildrenAfter(node, f.statements.value, |t.blocks|)
  {
    assert ChildrenAfter(t.nodes[t.blocks[f.statements.value][f.index]], f.statements.value, |t.blocks|);
    t.nodes[t.blocks[f.statements.value][f.index]]
  }

  /** The declaration of the frame's node and its outgoing edges. */
  function NodeLines(t: Tree, f: Link, next: Option<nat>): seq<Line>
    requires WellFormed(t) && FrameOk(t, f) && f.statements.Some?
    requires f.index < |t.blocks[f.statements.value]|
    requires next.Some? ==> next.value < |t.nodes|
  {
    if NodeAt(t, f).kind == Statement then StatementLines(NodeAt(t, f), t, next)
    else BranchLines(t, NodeAt(t, f), next)
  }

  /** A statement: its box, and a plain edge to its successor. */
  function StatementLines(node: Node, t: Tree, next: Option<nat>): seq<Line>
    requires next.Some? ==> next.value < |t.nodes|
  {
    var long := next.Some? && t.nodes[next.value].isEnd;
    [Declare(true, node.id, node.text)] + (if next.Some? then [Edge(node.id, Plain, long, IdOf(t, next))] else [])
  }

  /** A condition or loop: its diamond, the `No` edge and the `Yes` edge. */
  function BranchLines(t: Tree, node: Node, next: Option<nat>): seq<Line>
    requires WellFormed(t)
    requires next.Some? ==> next.value < |t.nodes|
    requires node.elseBlock.Some? ==> node.elseBlock.value < |t.blocks|
    requires Inner(node).Some? ==> Inner(node).value < |t.blocks|
  {
    [Declare(false, node.id, node.text)] + NoEdge(t, node, next) + YesEdge(t, node)
  }

  /** The `No` edge: to the first `else` node, else to the successor. */
  function NoEdge(t: Tree, node: Node, next: Option<nat>): seq<Line>
    requires WellFormed(t)
    requires next.Some? ==> next.value < |t.nodes|
    requires node.elseBlock.Some? ==> node.elseBlock.value < |t.blocks|
  {
    if node.elseBlock.Some? && |t.blocks[node.elseBlock.value]| > 0 then
      [Edge(node.id, No, false, IdOf(t, At(t, node.elseBlock.value, 0)))]
    else if next.Some? then [Edge(node.id, No, t.nodes[next.value].isEnd, IdOf(t, next))]
    else []
  }

  /** The `Yes` edge into the first node of the `then` or loop block. */
  function YesEdge(t: Tree, node: Node): seq<Line>
    requires WellFormed(t)
    requires Inner(node).Some? ==> Inner(node).value < |t.blocks|
  {
    var inner := Inner(node);
    if inner.Some? && |t.blocks[inner.value]| > 0 then [Edge(node.id, Yes, false, IdOf(t, At(t, inner.value, 0)))]
    else []
  }

  /** The frames a popped frame pushes, in push order: its next sibling, then
      the `else` block when it is non-empty, then the `then`/`loop` block. */
  function Children(t: Tree, f: Link): (cs: seq<Link>)
    requires WellFormed(t) && FrameOk(t, f) && f.statements.Some?
    ensures forall k :: 0 <= k < |cs| ==> FrameOk(t, cs[k]) && Below(t, cs[k], f)
  {
    var b := f.statements.value;
    var cont := if f.index + 1 < |t.blocks[b]| then [Link(f.statements, f.index + 1, f.parent)] else [];
    if f.index >= |t.blocks[b]| || NodeAt(t, f).kind == Statement then cont
    else cont + BodyFrames(t, f)
  }

  /** The frames a condition or loop pushes for its blocks. */
  function BodyFrames(t: Tree, f: Link): (cs: seq<Link>)
    requires WellFormed(t) && FrameOk(t, f) && f.statements.Some?
    requires f.index < |t.blocks[f.statements.value]|
    ensures forall k :: 0 <= k < |cs| ==> FrameOk(t, cs[k]) && Below(t, cs[k], f)
  {
    var node := NodeAt(t, f);
    var elseFrame :=
      if node.elseBlock.Some? && |t.blocks[node.elseBlock.value]| > 0 then [Link(node.elseBlock, 0, Some(f))] else [];
    elseFrame + [Link(Inner(node), 0, Some(f))]
  }

  /** Sequencing with the first failure winning. */
  function Then(a: Result<seq<Line>>, b: Result<seq<Line>>): Result<seq<Line>> {
    if a.Fail? then a else if b.Fail? then b else Ok(a.value + b.value)
  }

  lemma ThenAssoc(a: Result<seq<Line>>, b: Result<seq<Line>>, c: Result<seq<Line>>)
    ensures Then(Then(a, b), c) == Then(a, Then(b, c))
  {
    if a.Ok? && b.Ok? && c.Ok? {
      assert (a.value + b.value) + c.value == a.value + (b.value + c.value);
    }
  }

  /** Which block a frame is in, for termination: nested blocks come later. */
  function Rank(t: Tree, f: Link): nat {
    if f.statements.Some? && f.statements.value < |t.blocks| then |t.blocks| - f.statements.value else 0
  }

  function Rest(t: Tree, f: Link): nat {
    if f.statements.Some? && f.statements.value < |t.blocks| && f.index < |t.blocks[f.statements.value]|
    then |t.blocks[f.statements.value]| - f.index else 0
  }

  /** Frame `c` is visited within the walk of `f`, nearer its end. */
  predicate Below(t: Tree, c: Link, f: Link) {
    Rank(t, c) < Rank(t, f) || (Rank(t, c) == Rank(t, f) && Rest(t, c) < Rest(t, f))
  }

  /** What the walk emits from frame `f` on: the reference the stack machine
      is proved against. An undefined node array stops the walk. */
  function Walk(t: Tree, f: Link): Result<seq<Line>>
    requires WellFormed(t) && FrameOk(t, f)
    decreases Rank(t, f), Rest(t, f)
  {
    if f.statements.None? then Fail(NoStatement)
    else
      var cs := Children(t, f);
      Then(FrameLines(t, f), WalkAll(t, f, cs))
  }

  /** The walks of the frames `f` pushed, the last pushed first. */
  function WalkAll(t: Tree, f: Link, cs: seq<Link>): Result<seq<Line>>
    requires WellFormed(t) && FrameOk(t, f) && f.statements.Some?
    requires forall k :: 0 <= k < |cs| ==> FrameOk(t, cs[k]) && Below(t, cs[k], f)
    decreases Rank(t, f), Rest(t, f), |cs|
  {
    if cs == [] then Ok([])
    else
      assert Below(t, cs[|cs| - 1], f);
      Then(Walk(t, cs[|cs| - 1]), WalkAll(t, f, cs[..|cs| - 1]))
  }

  /** What the frames on a stack emit, the top (last) frame first. */
  function Pending(t: Tree, stack: seq<Link>): Result<seq<Line>>
    requires WellFormed(t) && forall k :: 0 <= k < |stack| ==> FrameOk(t, stack[k])
  {
    if stack == [] then Ok([])
    else Then(Walk(t, stack[|stack| - 1]), Pending(t, stack[..|stack| - 1]))
  }

  lemma {:induction false} WalkAllPending(t: Tree, f: Link, cs: seq<Link>)
    requires WellFormed(t) && FrameOk(t, f) && f.statements.Some?
    requires forall k :: 0 <= k < |cs| ==> FrameOk(t, cs[k]) && Below(t, cs[k], f)
    ensures WalkAll(t, f, cs) == Pending(t, cs)
    decreases |cs|
  {
    if cs != [] {
      WalkAllPending(t, f, cs[..|cs| - 1]);
    }
  }

  /** Pushing frames on a stack runs them before what was already there. */
  lemma {:induction false} PendingPush(t: Tree, stack: seq<Link>, cs: seq<Link>)
    requires WellFormed(t)
    requires forall k :: 0 <= k < |stack| ==> FrameOk(t, stack[k])
    requires forall k :: 0 <= k < |cs| ==> FrameOk(t, cs[k])
    ensures forall k :: 0 <= k < |stack + cs| ==> FrameOk(t, (stack + cs)[k])
    ensures Pending(t, stack + cs) == Then(Pending(t, cs), Pending(t, stack))
    decreases |cs|
  {
    if cs == [] {
      assert stack + cs == stack;
      var p := Pending(t, stack);
      assert Then(Ok([]), p) == p by {
        if p.Ok? { assert [] + p.value == p.value; }
      }
    } else {
      var front := cs[..|cs| - 1];
      assert (stack + cs)[..|stack + cs| - 1] == stack + front;
      PendingPush(t, stack, front);
      ThenAssoc(Walk(t, cs[|cs| - 1]), Pending(t, front), Pending(t, stack));
    }
  }

  lemma ThenOk(a: seq<Line>, b: seq<Line>, x: Result<seq<Line>>)
    ensures Then(Ok(a), Then(Ok(b), x)) == Then(Ok(a + b), x)
  {
    if x.Ok? {
      assert a + (b + x.value) == (a + b) + x.value;
    }
  }

  // ---------------------------------------------------------------------------
  // The output text

  /** `${node.id}`: `id` and the counter, or `undefined`. */
  function IdText(id: Option<nat>): string {
    match id
    case None => "undefined"
    case Some(n) => "id" + NatToString(n)
  }

  function TextOf(text: Option<string>): string {
    match text
    case None => "undefined"
    case Some(s) => s
  }

  /** The template literal of each kind of line. */
  function Render(line: Line): string {
    match line
    case Declare(box, id, text) =>
      if box then IdText(id) + "[\"" + TextOf(text) + "\"]"
      else IdText(id) + "{\"" + TextOf(text) + "\"}"
    case Edge(source, branch, long, target) =>
      IdText(source)
      + (match branch case Plain => "" case Yes => "-- Yes " case No => "-- No ")
      + (if long then "--->" else "-->")
      + IdText(target)
  }

  function Rendered(lines: seq<Line>): (out: seq<string>)
    ensures |out| == |lines|
    ensures forall k :: 0 <= k < |lines| ==> out[k] == Render(lines[k])
  {
    if lines == [] then [] else Rendered(lines[..|lines| - 1]) + [Render(lines[|lines| - 1])]
  }

  lemma RenderedOne(line: Line)
    ensures Rendered([line]) == [Render(line)]
  {
    assert [line][..0] == [];
  }

  /** The text collected so far grows by exactly the rendering of the lines a frame emits. */
  lemma RenderedExtend(output: seq<string>, lines: seq<Line>, emitted: seq<Line>)
    requires output == [FlowchartHeader] + Rendered(lines)
    ensures output + Rendered(emitted) == [FlowchartHeader] + Rendered(lines + emitted)
  {
    RenderedAppend(lines, emitted);
  }

  lemma RenderedAppend(a: seq<Line>, b: seq<Line>)
    ensures Rendered(a + b) == Rendered(a) + Rendered(b)
  {
    assert |Rendered(a + b)| == |Rendered(a) + Rendered(b)|;
    forall k | 0 <= k < |a + b| ensures Rendered(a + b)[k] == (Rendered(a) + Rendered(b))[k] {
      if k < |a| {
        assert (a + b)[k] == a[k];
      } else {
        assert (a + b)[k] == b[k - |a|];
      }
    }
  }

  const FlowchartHeader: string := "flowchart TD"

  const RootFrame: Link := Link(Some(0), 0, None)

  /** `output.join("\n") + "\n"` for the header and the lines. */
  function OutputText(lines: seq<Line>): string {
    Join([FlowchartHeader] + Rendered(lines), '\n') + "\n"
  }

  /** `parse` after the tree has been built: the text, or the error the walk stopped at. */
  function Emit(t: Tree): Result<string>
    requires WellFormed(t)
  {
    match Walk(t, RootFrame)
    case Fail(e) => Fail(e)
    case Ok(lines) => Ok(OutputText(lines))
  }

  // ---------------------------------------------------------------------------
  // The stack machine

  /** Number of frames the walk from `f` pops. */
  function Size(t: Tree, f: Link): nat
    requires WellFormed(t) && FrameOk(t, f)
    decreases Rank(t, f), Rest(t, f)
  {
    if f.statements.None? then 1 else 1 + SizeAll(t, f, Children(t, f))
  }

  function SizeAll(t: Tree, f: Link, cs: seq<Link>): nat
    requires WellFormed(t) && FrameOk(t, f) && f.statements.Some?
    requires forall k :: 0 <= k < |cs| ==> FrameOk(t, cs[k]) && Below(t, cs[k], f)
    decreases Rank(t, f), Rest(t, f), |cs|
  {
    if cs == [] then 0
    else
      assert Below(t, cs[|cs| - 1], f);
      Size(t, cs[|cs| - 1]) + SizeAll(t, f, cs[..|cs| - 1])
  }

  function Sizes(t: Tree, stack: seq<Link>): nat
    requires WellFormed(t) && forall k :: 0 <= k < |stack| ==> FrameOk(t, stack[k])
  {
    if stack == [] then 0 else Size(t, stack[|stack| - 1]) + Sizes(t, stack[..|stack| - 1])
  }

  lemma {:induction false} SizeAllSizes(t: Tree, f: Link, cs: seq<Link>)
    requires WellFormed(t) && FrameOk(t, f) && f.statements.Some?
    requires forall k :: 0 <= k < |cs| ==> FrameOk(t, cs[k]) && Below(t, cs[k], f)
    ensures SizeAll(t, f, cs) == Sizes(t, cs)
    decreases |cs|
  {
    if cs != [] {
      SizeAllSizes(t, f, cs[..|cs| - 1]);
    }
  }

  lemma {:induction false} SizesPush(t: Tree, stack: seq<Link>, cs: seq<Link>)
    requires WellFormed(t)
    requires forall k :: 0 <= k < |stack| ==> FrameOk(t, stack[k])
    requires forall k :: 0 <= k < |cs| ==> FrameOk(t, cs[k])
    ensures forall k :: 0 <= k < |stack + cs| ==> FrameOk(t, (stack + cs)[k])
    ensures Sizes(t, stack + cs) == Sizes(t, stack) + Sizes(t, cs)
    decreases |cs|
  {
    if cs == [] {
      assert stack + cs == stack;
    } else {
      var front := cs[..|cs| - 1];
      assert (stack + cs)[..|stack + cs| - 1] == stack + front;
      SizesPush(t, stack, front);
    }
  }

  /** The inner `while` of `parse`: the successor of the node at `block`. */
  method FindNext(t: Tree, block: Link) returns (next: Option<nat>)
    requires WellFormed(t) && FrameOk(t, block) && block.statements.Some?
    ensures next == Successor(t, block)
  {
    var parent := Some(block);
    next := At(t, block.statements.value, block.index + 1);
    while next.None? && parent.Some?
      invariant parent == Some(block) || ChainOk(t, parent)
      invariant next.Some? ==> next == Successor(t, block)
      invariant next.None? && parent.Some? ==> Climb(t, parent.value.parent) == Successor(t, block)
      invariant next.None? && parent.None? ==> Successor(t, block).None?
      decreases parent
    {
      parent := parent.value.parent;
      if parent.Some? {
        var parentStatement := At(t, parent.value.statements.value, parent.value.index);
        if parentStatement.Some? && t.nodes[parentStatement.value].kind == Loop {
          next := parentStatement;
        } else {
          next := At(t, parent.value.statements.value, parent.value.index + 1);
        }
      }
    }
  }

  /** The body of the outer loop of `parse` once `block` has been popped and
      found defined: the lines it emits and the frames it pushes, in order. */
  method VisitFrame(t: Tree, block: Link) returns (failure: Option<FlowError>, out: seq<string>, pushed: seq<Link>)
    requires WellFormed(t) && FrameOk(t, block) && block.statements.Some?
    ensures pushed == Children(t, block)
    ensures FrameLines(t, block).Fail? ==> failure == Some(FrameLines(t, block).error)
    ensures FrameLines(t, block).Ok? ==> failure.None? && out == Rendered(FrameLines(t, block).value)
  {
    var statements := t.blocks[block.statements.value];
    var next := FindNext(t, block);
    pushed := if block.index + 1 < |statements| then [Link(block.statements, block.index + 1, block.parent)] else [];
    if block.index >= |statements| {
      assert FrameLines(t, block) == EmptyBlockLines(t, block, next);
      failure, out := VisitEmptyBlock(t, block, next);
    } else {
      assert FrameLines(t, block) == Ok(NodeLines(t, block, next));
      var more;
      out, more := VisitNode(t, block, next);
      NodeChildren(t, block, more);
      pushed := pushed + more;
      failure := None;
    }
  }

  /** The frames a node's visit pushes: its successor in the same block, then
      the frames for the node's own blocks. */
  lemma NodeChildren(t: Tree, f: Link, more: seq<Link>)
    requires WellFormed(t) && FrameOk(t, f) && f.statements.Some?
    requires f.index < |t.blocks[f.statements.value]|
    requires NodeAt(t, f).kind == Statement ==> more == []
    requires NodeAt(t, f).kind != Statement ==> more == BodyFrames(t, f)
    ensures Children(t, f)
      == (if f.index + 1 < |t.blocks[f.statements.value]| then [Link(f.statements, f.index + 1, f.parent)] else []) + more
  {
    if NodeAt(t, f).kind == Statement {
      var cont := if f.index + 1 < |t.blocks[f.statements.value]| then [Link(f.statements, f.index + 1, f.parent)] else [];
      assert cont + more == cont;
    }
  }

  method VisitEmptyBlock(t: Tree, block: Link, next: Option<nat>) returns (failure: Option<FlowError>, out: seq<string>)
    requires WellFormed(t) && FrameOk(t, block) && block.statements.Some?
    requires next.Some? ==> next.value < |t.nodes|
    ensures EmptyBlockLines(t, block, next).Fail? ==> failure == Some(EmptyBlockLines(t, block, next).error)
    ensures EmptyBlockLines(t, block, next).Ok? ==> failure.None? && out == Rendered(EmptyBlockLines(t, block, next).value)
  {
    out := [];
    failure := None;
    if next.Some? {
      var nonEmptyParent := block.parent;
      while nonEmptyParent.Some? && nonEmptyParent.value.statements.None?
        invariant NonEmptyParent(nonEmptyParent) == NonEmptyParent(block.parent)
        decreases nonEmptyParent
      {
        nonEmptyParent := nonEmptyParent.value.parent;
      }
      if nonEmptyParent.Some? {
        var p := nonEmptyParent.value;
        var prev := t.nodes[t.blocks[p.statements.value][p.index]];
        if prev.kind == Condition {
          var edge := Edge(prev.id, Yes, false, t.nodes[next.value].id);
          out := [Render(edge)];
          assert EmptyBlockLines(t, block, next).value == [edge];
        } else if prev.kind == Loop {
          failure := Some(EmptyLoop);
        }
      }
    }
  }

  method VisitNode(t: Tree, block: Link, next: Option<nat>) returns (out: seq<string>, pushed: seq<Link>)
    requires WellFormed(t) && FrameOk(t, block) && block.statements.Some?
    requires block.index < |t.blocks[block.statements.value]|
    requires next.Some? ==> next.value < |t.nodes|
    ensures out == Rendered(NodeLines(t, block, next))
    ensures NodeAt(t, block).kind == Statement ==> pushed == []
    ensures NodeAt(t, block).kind != Statement ==> pushed == BodyFrames(t, block)
  {
    var statement := t.nodes[t.blocks[block.statements.value][block.index]];
    assert statement == NodeAt(t, block);
    if statement.kind == Statement {
      out := VisitStatement(t, statement, next);
      pushed := [];
    } else {
      out := VisitBranch(t, statement, next);
      pushed := PushBlocks(t, block, statement);
    }
  }

  /** The frames a condition or loop pushes: its non-empty `else` array,
      then its `then` or `loop` array. */
  method PushBlocks(t: Tree, block: Link, statement: Node) returns (pushed: seq<Link>)
    requires WellFormed(t) && FrameOk(t, block) && block.statements.Some?
    requires block.index < |t.blocks[block.statements.value]|
    requires statement == NodeAt(t, block)
    ensures pushed == BodyFrames(t, block)
  {
    pushed := [];
    if statement.elseBlock.Some? && |t.blocks[statement.elseBlock.value]| > 0 {
      pushed := pushed + [Link(statement.elseBlock, 0, Some(block))];
    }
    var innerBlock := if statement.kind == Condition then statement.thenBlock else statement.loopBlock;
    pushed := pushed + [Link(innerBlock, 0, Some(block))];
  }

  method VisitStatement(t: Tree, statement: Node, next: Option<nat>) returns (out: seq<string>)
    requires next.Some? ==> next.value < |t.nodes|
    ensures out == Rendered(StatementLines(statement, t, next))
  {
    var declaration := Declare(true, statement.id, statement.text);
    out := [Render(declaration)];
    RenderedOne(declaration);
    if next.Some? {
      var edge := Edge(statement.id, Plain, t.nodes[next.value].isEnd, t.nodes[next.value].id);
      out := out + [Render(edge)];
      RenderedOne(edge);
      RenderedAppend([declaration], [edge]);
      assert StatementLines(statement, t, next) == [declaration] + [edge];
    } else {
      assert StatementLines(statement, t, next) == [declaration] + [];
    }
  }

  method VisitBranch(t: Tree, statement: Node, next: Option<nat>) returns (out: seq<string>)
    requires WellFormed(t)
    requires next.Some? ==> next.value < |t.nodes|
    requires statement.elseBlock.Some? ==> statement.elseBlock.value < |t.blocks|
    requires Inner(statement).Some? ==> Inner(statement).value < |t.blocks|
    ensures out == Rendered(BranchLines(t, statement, next))
  {
    var declaration := Declare(false, statement.id, statement.text);
    var no := VisitNoEdge(t, statement, next);
    var yes := VisitYesEdge(t, statement);
    out := [Render(declaration)] + no + yes;
    RenderedOne(declaration);
    RenderedAppend([declaration], NoEdge(t, statement, next));
    RenderedAppend([declaration] + NoEdge(t, statement, next), YesEdge(t, statement));
    assert BranchLines(t, statement, next) == [declaration] + NoEdge(t, statement, next) + YesEdge(t, statement);
  }

  /** The `No` edge of a condition or loop. */
  method VisitNoEdge(t: Tree, statement: Node, next: Option<nat>) returns (no: seq<string>)
    requires WellFormed(t)
    requires next.Some? ==> next.value < |t.nodes|
    requires statement.elseBlock.Some? ==> statement.elseBlock.value < |t.blocks|
    ensures no == Rendered(NoEdge(t, statement, next))
  {
    no := [];
    if statement.elseBlock.Some? && |t.blocks[statement.elseBlock.value]| > 0 {
      var first := t.nodes[t.blocks[statement.elseBlock.value][0]];
      no := [Render(Edge(statement.id, No, false, first.id))];
    } else if next.Some? {
      no := [Render(Edge(statement.id, No, t.nodes[next.value].isEnd, t.nodes[next.value].id))];
    }
  }

  /** The `Yes` edge of a condition or loop. */
  method VisitYesEdge(t: Tree, statement: Node) returns (yes: seq<string>)
    requires WellFormed(t)
    requires Inner(statement).Some? ==> Inner(statement).value < |t.blocks|
    ensures yes == Rendered(YesEdge(t, statement))
  {
    yes := [];
    var innerBlock := if statement.kind == Condition then statement.thenBlock else statement.loopBlock;
    if innerBlock.Some? && |t.blocks[innerBlock.value]| > 0 {
      var first := t.nodes[t.blocks[innerBlock.value][0]];
      yes := [Render(Edge(statement.id, Yes, false, first.id))];
    }
  }

  /** Popping a defined frame whose lines are emitted and pushing its
      children leaves the walk still to come unchanged. */
  lemma PopFrame(t: Tree, stack: seq<Link>, lines: seq<Line>)
    requires WellFormed(t) && stack != []
    requires forall k :: 0 <= k < |stack| ==> FrameOk(t, stack[k])
    requires stack[|stack| - 1].statements.Some?
    ensures var block, rest := stack[|stack| - 1], stack[..|stack| - 1];
      && (forall k :: 0 <= k < |rest + Children(t, block)| ==> FrameOk(t, (rest + Children(t, block))[k]))
      && Sizes(t, rest + Children(t, block)) < Sizes(t, stack)
      && (FrameLines(t, block).Ok? ==>
           Then(Ok(lines), Pending(t, stack))
           == Then(Ok(lines + FrameLines(t, block).value), Pending(t, rest + Children(t, block))))
      && (FrameLines(t, block).Fail? ==> Then(Ok(lines), Pending(t, stack)) == Fail(FrameLines(t, block).error))
  {
    var block, rest := stack[|stack| - 1], stack[..|stack| - 1];
    var cs := Children(t, block);
    WalkAllPending(t, block, cs);
    SizeAllSizes(t, block, cs);
    PendingPush(t, rest, cs);
    SizesPush(t, rest, cs);
    var emitted := FrameLines(t, block);
    ThenAssoc(emitted, Pending(t, cs), Pending(t, rest));
    if emitted.Ok? {
      ThenOk(lines, emitted.value, Then(Pending(t, cs), Pending(t, rest)));
    }
  }

  /** `parse` after the tree has been built: the stack machine over `Link`
      frames, producing exactly the text `Emit` specifies. */
  method Parse(t: Tree) returns (r: Result<string>)
    requires WellFormed(t)
    ensures r == Emit(t)
  {
    var output := [FlowchartHeader];
    ghost var lines: seq<Line> := [];
    var stack := [RootFrame];
    assert Pending(t, stack) == Then(Walk(t, RootFrame), Ok([]));
    assert Walk(t, RootFrame).Ok? ==> Walk(t, RootFrame).value + [] == Walk(t, RootFrame).value;
    assert Walk(t, RootFrame).Ok? ==> [] + Walk(t, RootFrame).value == Walk(t, RootFrame).value;
    while stack != []
      invariant forall k :: 0 <= k < |stack| ==> FrameOk(t, stack[k])
      invariant output == [FlowchartHeader] + Rendered(lines)
      invariant Then(Ok(lines), Pending(t, stack)) == Walk(t, RootFrame)
      decreases Sizes(t, stack)
    {
      var block := stack[|stack| - 1];
      if block.statements.None? {
        return Fail(NoStatement);
      }
      PopFrame(t, stack, lines);
      stack := stack[..|stack| - 1];
      var failure, out, pushed := VisitFrame(t, block);
      if failure.Some? {
        return Fail(failure.value);
      }
      ghost var emitted := FrameLines(t, block).value;
      RenderedExtend(output, lines, emitted);
      output := output + out;
      lines := lines + emitted;
      stack := stack + pushed;
    }
    assert lines + [] == lines;
    r := Ok(Join(output, '\n') + "\n");
  }
}
