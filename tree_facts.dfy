/** What treeParser.ts promises about the nodes and text it builds: one node
    per non-blank line in order, ids shared exactly by equal texts, parents
    chosen by indentation, labels free of quotes, and the output layout. */
module TreeFacts {
  import opened JsText
  import opened TreeParser
  import opened Tokens

  // ---------------------------------------------------------------------------
  // Reference definitions over the lines

  /** Indices of the lines that give a node: those whose text is not empty
      after trimming and filtering. */
  function KeptLines(lines: seq<string>, n: nat): (kept: seq<nat>)
    requires n <= |lines|
    ensures |kept| <= n
    ensures forall k :: 0 <= k < |kept| ==> kept[k] < n && Clean(lines[kept[k]]) != ""
    ensures forall a, b :: 0 <= a < b < |kept| ==> kept[a] < kept[b]
  {
    if n == 0 then []
    else KeptLines(lines, n - 1) + (if Clean(lines[n - 1]) != "" then [n - 1] else [])
  }

  /** The indentation levels of the kept lines. */
  function Levels(lines: seq<string>, n: nat): (levels: seq<nat>)
    requires n <= |lines|
    ensures |levels| == |KeptLines(lines, n)|
    ensures forall k :: 0 <= k < |levels| ==> levels[k] == IndentLevel(lines[KeptLines(lines, n)[k]])
  {
    if n == 0 then []
    else Levels(lines, n - 1) + (if Clean(lines[n - 1]) != "" then [IndentLevel(lines[n - 1])] else [])
  }

  // ---------------------------------------------------------------------------
  // The text filter

  lemma {:induction false} FilterKeepsAllowed(s: string)
    requires forall i :: 0 <= i < |s| ==> Allowed(s[i])
    ensures Filter(s) == s
    decreases |s|
  {
    if s != [] {
      FilterKeepsAllowed(s[..|s| - 1]);
    }
  }

  /** Filtering twice is filtering once. */
  lemma FilterIdempotent(s: string)
    ensures Filter(Filter(s)) == Filter(s)
  {
    FilterKeepsAllowed(Filter(s));
  }

  /** A node label can never close the quoted label early, nor break a line. */
  lemma CleanHasNoQuote(line: string)
    ensures '"' !in Clean(line) && '\n' !in Clean(line)
  {
    var r := Clean(line);
    assert forall i :: 0 <= i < |r| ==> Allowed(r[i]);
  }

  // ---------------------------------------------------------------------------
  // One node per kept line

  /** The k-th node holds the text of the k-th kept line. */
  lemma {:induction false} RunTexts(lines: seq<string>, n: nat)
    requires n <= |lines|
    ensures var st, kept := Run(lines, n), KeptLines(lines, n);
      && |st.tree| == |kept|
      && forall k :: 0 <= k < |kept| ==> st.tree[k].text == Clean(lines[kept[k]])
  {
    if n > 0 {
      RunTexts(lines, n - 1);
      var st, line := Run(lines, n - 1), lines[n - 1];
      var kept := KeptLines(lines, n - 1);
      assert Run(lines, n) == Step(st, line, n - 1);
      if Clean(line) != "" {
        var tree := Run(lines, n).tree;
        assert KeptLines(lines, n) == kept + [n - 1];
        assert tree == st.tree + [tree[|st.tree|]];
        AppendPairs(st.tree, kept, tree[|st.tree|], n - 1, lines);
      }
    }
  }

  /** A node for line `j` appended after the nodes of the lines in `kept`. */
  lemma AppendPairs(tree: seq<TreeNode>, kept: seq<nat>, x: TreeNode, j: nat, lines: seq<string>)
    requires |tree| == |kept| && j < |lines| && x.text == Clean(lines[j])
    requires forall k :: 0 <= k < |kept| ==> kept[k] < |lines| && tree[k].text == Clean(lines[kept[k]])
    ensures forall k :: 0 <= k < |kept| + 1 ==>
      (kept + [j])[k] < |lines| && (tree + [x])[k].text == Clean(lines[(kept + [j])[k]])
  {
  }

  // ---------------------------------------------------------------------------
  // Ids

  /** The cleaned text of every line, in order. */
  function CleanTexts(lines: seq<string>): (texts: seq<string>)
    ensures |texts| == |lines|
  {
    if lines == [] then [] else CleanTexts(lines[..|lines| - 1]) + [Clean(lines[|lines| - 1])]
  }

  lemma {:induction false} CleanTextsAt(lines: seq<string>, j: nat)
    requires j < |lines|
    ensures CleanTexts(lines)[j] == Clean(lines[j])
    decreases |lines|
  {
    if j < |lines| - 1 {
      CleanTextsAt(lines[..|lines| - 1], j);
    }
  }

  /** `j` is the first line whose text is `text`. */
  ghost predicate FirstLineOf(texts: seq<string>, text: string, j: nat) {
    j < |texts| && texts[j] == text && forall i :: 0 <= i < j ==> texts[i] != text
  }

  /** The lookup table maps each text seen so far to its first line, and
      every node's id is the table entry for its text. */
  ghost predicate IdsInv(texts: seq<string>, n: nat, st: State)
    requires n <= |texts|
  {
    && (forall text :: text in st.lookup ==> st.lookup[text] < n && FirstLineOf(texts, text, st.lookup[text]))
    && (forall j :: 0 <= j < n && texts[j] != "" ==> texts[j] in st.lookup)
    && (forall k :: 0 <= k < |st.tree| ==> st.tree[k].text in st.lookup && st.tree[k].id == st.lookup[st.tree[k].text])
  }

  lemma {:induction false} RunIds(lines: seq<string>, n: nat)
    requires n <= |lines|
    ensures IdsInv(CleanTexts(lines), n, Run(lines, n))
  {
    if n > 0 {
      RunIds(lines, n - 1);
      RunIdsStep(lines, n);
    }
  }

  lemma RunIdsStep(lines: seq<string>, n: nat)
    requires 0 < n <= |lines| && IdsInv(CleanTexts(lines), n - 1, Run(lines, n - 1))
    ensures IdsInv(CleanTexts(lines), n, Run(lines, n))
  {
    CleanTextsAt(lines, n - 1);
    var st := Run(lines, n - 1);
    assert Run(lines, n) == Step(st, lines[n - 1], n - 1);
    IdsStep(CleanTexts(lines), n, st, lines[n - 1]);
  }

  lemma IdsStep(texts: seq<string>, n: nat, st: State, line: string)
    requires 0 < n <= |texts| && texts[n - 1] == Clean(line) && Valid(st)
    requires IdsInv(texts, n - 1, st)
    ensures IdsInv(texts, n, Step(st, line, n - 1))
  {
    if texts[n - 1] != "" {
      IdsStepKept(texts, n, st, Step(st, line, n - 1));
    }
  }

  /** One kept line: the table gains its text (if new) with this line, and
      the new node takes the table entry as id. */
  lemma IdsStepKept(texts: seq<string>, n: nat, st: State, st': State)
    requires 0 < n <= |texts| && texts[n - 1] != ""
    requires IdsInv(texts, n - 1, st)
    requires st'.lookup == st.lookup[texts[n - 1] := NodeId(st.lookup, texts[n - 1], n - 1)]
    requires st'.tree == st.tree + [TreeNode(NodeId(st.lookup, texts[n - 1], n - 1), texts[n - 1], st'.parent)]
    ensures IdsInv(texts, n, st')
  {
    var text := texts[n - 1];
    var id := NodeId(st.lookup, text, n - 1);
    assert FirstLineOf(texts, text, id) && id < n;
    forall k | 0 <= k < |st'.tree|
      ensures st'.tree[k].text in st'.lookup && st'.tree[k].id == st'.lookup[st'.tree[k].text]
    {
      if k < |st.tree| {
        assert st'.tree[k] == st.tree[k];
      }
    }
  }

  /** Each node's id is the index of the first line with the same text; it
      is its own line index exactly when no earlier line had that text. */
  lemma BuildIds(text: string)
    ensures var tree, lines := Build(text), Lines(text);
      forall k :: 0 <= k < |tree| ==>
        && tree[k].id < |lines| && Clean(lines[tree[k].id]) == tree[k].text
        && forall i :: 0 <= i < tree[k].id ==> Clean(lines[i]) != tree[k].text
  {
    var tree, lines := Build(text), Lines(text);
    var texts := CleanTexts(lines);
    RunIds(lines, |lines|);
    forall k | 0 <= k < |tree|
      ensures && tree[k].id < |lines| && Clean(lines[tree[k].id]) == tree[k].text
              && forall i :: 0 <= i < tree[k].id ==> Clean(lines[i]) != tree[k].text
    {
      assert FirstLineOf(texts, tree[k].text, tree[k].id);
      CleanTextsAt(lines, tree[k].id);
      forall i | 0 <= i < tree[k].id ensures Clean(lines[i]) != tree[k].text {
        CleanTextsAt(lines, i);
      }
    }
  }

  /** Two nodes share an id exactly when they share a text. */
  lemma BuildIdsShared(text: string, a: nat, b: nat)
    requires a < |Build(text)| && b < |Build(text)|
    ensures Build(text)[a].id == Build(text)[b].id <==> Build(text)[a].text == Build(text)[b].text
  {
    BuildIds(text);
  }

  /** The as-written lookup finds a prototype member for a key such as
      `toString`: the first line with that text gets no line index as id,
      where the intended lookup gives it its own index. */
  lemma PrototypeKeyCollision(lookup: map<string, nat>, text: string, index: nat)
    requires text in PrototypeKeys && text !in lookup
    ensures NodeIdAsWritten(lookup, text, index) == Inherited(text)
    ensures NodeIdAsWritten(lookup, text, index) != LineIndex(index)
    ensures NodeId(lookup, text, index) == index
  {
  }

  /** The smallest input that shows it: the one-line outline `toString`. */
  lemma ToStringOutline()
    ensures Lines("toString") == ["toString"]
    ensures Clean("toString") == "toString"
    ensures NodeIdAsWritten(map[], "toString", 0) != LineIndex(0)
    ensures Build("toString") == [TreeNode(0, "toString", None)]
  {
    assert '\n' !in "toString";
    FilterKeepsAllowed("toString");
    TrimTrimmed("toString");
  }

  // ---------------------------------------------------------------------------
  // Parents

  /** Number of ancestors reached from `p`. */
  function Depth(tree: seq<TreeNode>, p: Option<nat>): nat
    requires ParentsBefore(tree) && InTree(tree, p)
    decreases if p.None? then 0 else p.value + 1
  {
    if p.None? then 0 else 1 + Depth(tree, tree[p.value].parent)
  }

  /** The parent rule between consecutive nodes: the first node is a root;
      a deeper line hangs under the previous node, an equally deep one
      shares its parent, a shallower one climbs from that parent by the
      difference in levels. */
  ghost predicate ParentRule(tree: seq<TreeNode>, levels: seq<nat>, k: nat)
    requires ParentsBefore(tree) && k < |tree| && k < |levels|
  {
    if k == 0 then tree[0].parent.None?
    else if levels[k] > levels[k - 1] then tree[k].parent == Some(k - 1)
    else if levels[k] == levels[k - 1] then tree[k].parent == tree[k - 1].parent
    else tree[k].parent == Climb(tree, tree[k - 1].parent, levels[k - 1] - levels[k])
  }

  lemma {:induction false} ClimbAppend(tree: seq<TreeNode>, x: TreeNode, p: Option<nat>, d: nat)
    requires ParentsBefore(tree) && ParentsBefore(tree + [x]) && InTree(tree, p)
    ensures Climb(tree + [x], p, d) == Climb(tree, p, d)
    decreases d
  {
    if d > 0 && p.Some? {
      assert (tree + [x])[p.value] == tree[p.value];
      ClimbAppend(tree, x, tree[p.value].parent, d - 1);
    }
  }

  /** The line pass keeps the parent of the last node as the current parent
      and the last node's level as the last level. */
  ghost predicate ShapeInv(st: State, levels: seq<nat>)
    requires Valid(st)
  {
    && |st.tree| == |levels|
    && (st.tree == [] ==> st.parent.None? && st.lastLevel == 0)
    && (st.tree != [] ==> st.tree[|st.tree| - 1].parent == st.parent && st.lastLevel == levels[|st.tree| - 1])
    && forall k :: 0 <= k < |st.tree| ==> ParentRule(st.tree, levels, k)
  }

  lemma {:induction false} RunShape(lines: seq<string>, n: nat)
    requires n <= |lines|
    ensures ShapeInv(Run(lines, n), Levels(lines, n))
  {
    if n > 0 {
      RunShape(lines, n - 1);
      if Clean(lines[n - 1]) != "" {
        ShapeStep(lines, n);
      } else {
        assert Run(lines, n) == Run(lines, n - 1);
        assert Levels(lines, n) == Levels(lines, n - 1);
      }
    }
  }

  lemma ShapeStep(lines: seq<string>, n: nat)
    requires 0 < n <= |lines| && Clean(lines[n - 1]) != ""
    requires ShapeInv(Run(lines, n - 1), Levels(lines, n - 1))
    ensures ShapeInv(Run(lines, n), Levels(lines, n))
  {
    var st, line := Run(lines, n - 1), lines[n - 1];
    var text, level := Clean(line), IndentLevel(line);
    var node := TreeNode(NodeId(st.lookup, text, n - 1), text, NewParent(st, level));
    assert Run(lines, n) == State(st.tree + [node], st.lookup[text := node.id], level, node.parent);
    assert Levels(lines, n) == Levels(lines, n - 1) + [level];
    ShapeAppend(st, Levels(lines, n - 1), node, level, st.lookup[text := node.id]);
  }

  /** Appending the node of a kept line keeps the shape invariant. */
  lemma ShapeAppend(st: State, levels: seq<nat>, node: TreeNode, level: nat, lookup: map<string, nat>)
    requires Valid(st) && ShapeInv(st, levels)
    requires node.parent == NewParent(st, level)
    ensures Valid(State(st.tree + [node], lookup, level, node.parent))
    ensures ShapeInv(State(st.tree + [node], lookup, level, node.parent), levels + [level])
  {
    var tree' := st.tree + [node];
    assert ParentsBefore(tree') by {
      forall k | 0 <= k < |tree'| && tree'[k].parent.Some? ensures tree'[k].parent.value < k {
        if k < |st.tree| {
          assert tree'[k] == st.tree[k];
        }
      }
    }
    forall k | 0 <= k < |tree'| ensures ParentRule(tree', levels + [level], k) {
      if k < |st.tree| {
        RuleAppend(st.tree, levels, node, level, k);
      } else {
        NewNodeRule(st, levels, node, level);
      }
    }
  }

  /** Appending a node keeps the rule of the nodes before it. */
  lemma RuleAppend(tree: seq<TreeNode>, levels: seq<nat>, node: TreeNode, level: nat, k: nat)
    requires ParentsBefore(tree) && ParentsBefore(tree + [node]) && k < |tree| == |levels|
    requires ParentRule(tree, levels, k)
    ensures ParentRule(tree + [node], levels + [level], k)
  {
    var tree', levels' := tree + [node], levels + [level];
    if k > 0 {
      assert tree'[k] == tree[k] && tree'[k - 1] == tree[k - 1];
      assert levels'[k] == levels[k] && levels'[k - 1] == levels[k - 1];
      if levels[k] < levels[k - 1] {
        ClimbAppend(tree, node, tree[k - 1].parent, levels[k - 1] - levels[k]);
      }
    } else {
      assert tree'[0] == tree[0];
    }
  }

  /** The node the pass appends obeys the rule. */
  lemma NewNodeRule(st: State, levels: seq<nat>, node: TreeNode, level: nat)
    requires Valid(st) && ShapeInv(st, levels)
    requires node.parent == NewParent(st, level)
    requires ParentsBefore(st.tree + [node])
    ensures ParentRule(st.tree + [node], levels + [level], |st.tree|)
  {
    var tree', levels' := st.tree + [node], levels + [level];
    var k := |st.tree|;
    if k > 0 {
      assert tree'[k - 1] == st.tree[k - 1];
      assert levels'[k - 1] == st.lastLevel;
      if level < st.lastLevel {
        ClimbAppend(st.tree, node, st.tree[k - 1].parent, st.lastLevel - level);
      }
    }
  }

  lemma {:induction false} DepthAppend(tree: seq<TreeNode>, x: TreeNode, p: Option<nat>)
    requires ParentsBefore(tree) && ParentsBefore(tree + [x]) && InTree(tree, p)
    ensures Depth(tree + [x], p) == Depth(tree, p)
    decreases if p.None? then 0 else p.value + 1
  {
    if p.Some? {
      assert (tree + [x])[p.value] == tree[p.value];
      DepthAppend(tree, x, tree[p.value].parent);
    }
  }

  /** Climbing `d` parents loses `d` levels of depth, down to the top. */
  lemma {:induction false} ClimbDepth(tree: seq<TreeNode>, p: Option<nat>, d: nat)
    requires ParentsBefore(tree) && InTree(tree, p)
    ensures Depth(tree, Climb(tree, p, d)) == if Depth(tree, p) >= d then Depth(tree, p) - d else 0
    decreases d
  {
    if d > 0 && p.Some? {
      ClimbDepth(tree, tree[p.value].parent, d - 1);
    }
  }

  /** Under the parent rule no node has more ancestors than its level. */
  lemma {:induction false} DepthBound(tree: seq<TreeNode>, levels: seq<nat>, k: nat)
    requires ParentsBefore(tree) && |levels| == |tree| && k < |tree|
    requires forall j :: 0 <= j < |tree| ==> ParentRule(tree, levels, j)
    ensures Depth(tree, tree[k].parent) <= levels[k]
  {
    assert ParentRule(tree, levels, k);
    if k > 0 {
      DepthBound(tree, levels, k - 1);
      if levels[k] < levels[k - 1] {
        ClimbDepth(tree, tree[k - 1].parent, levels[k - 1] - levels[k]);
      }
    }
  }

  /** Levels that start at 0 and never deepen by more than one step. */
  ghost predicate WellIndented(levels: seq<nat>) {
    (|levels| > 0 ==> levels[0] == 0)
    && forall k :: 0 < k < |levels| ==> levels[k] <= levels[k - 1] + 1
  }

  /** In a well-indented outline every node has exactly as many ancestors
      as its indentation level. */
  lemma {:induction false} DepthExact(tree: seq<TreeNode>, levels: seq<nat>, k: nat)
    requires ParentsBefore(tree) && |levels| == |tree| && k < |tree|
    requires forall j :: 0 <= j < |tree| ==> ParentRule(tree, levels, j)
    requires WellIndented(levels)
    ensures Depth(tree, tree[k].parent) == levels[k]
  {
    assert ParentRule(tree, levels, k);
    if k > 0 {
      DepthExact(tree, levels, k - 1);
      if levels[k] < levels[k - 1] {
        ClimbDepth(tree, tree[k - 1].parent, levels[k - 1] - levels[k]);
      }
    }
  }

  /** The parent rule holds for the nodes built from any text; no node sits
      deeper than its indentation, a line indented less than one step is a
      root, and in a well-indented outline depth and level agree. */
  lemma BuildParents(text: string, k: nat)
    requires k < |Build(text)|
    ensures var lines := Lines(text); var levels := Levels(lines, |lines|);
      && |levels| == |Build(text)|
      && ParentRule(Build(text), levels, k)
      && Depth(Build(text), Build(text)[k].parent) <= levels[k]
      && (levels[k] == 0 ==> Build(text)[k].parent.None?)
      && (WellIndented(levels) ==> Depth(Build(text), Build(text)[k].parent) == levels[k])
  {
    var lines := Lines(text);
    var levels := Levels(lines, |lines|);
    RunShape(lines, |lines|);
    DepthBound(Build(text), levels, k);
    if WellIndented(levels) {
      DepthExact(Build(text), levels, k);
    }
  }

  // ---------------------------------------------------------------------------
  // The output text

  lemma NatToStringOneLine(n: nat)
    ensures '\n' !in NatToString(n)
  {
    var s := NatToString(n);
    assert forall i :: 0 <= i < |s| ==> IsDigit(s[i]);
  }

  lemma {:induction false} OutputLinesOneLine(tree: seq<TreeNode>, n: nat)
    requires ParentsBefore(tree) && n <= |tree|
    requires forall k :: 0 <= k < |tree| ==> '\n' !in tree[k].text
    ensures forall i :: 0 <= i < |OutputLines(tree, n)| ==> '\n' !in OutputLines(tree, n)[i]
  {
    if n > 0 {
      OutputLinesOneLine(tree, n - 1);
      var node := tree[n - 1];
      NatToStringOneLine(node.id);
      if node.parent.Some? {
        NatToStringOneLine(tree[node.parent.value].id);
      }
      var out := NodeOutput(tree, n - 1);
      forall i | 0 <= i < |out| ensures '\n' !in out[i] {
      }
    }
  }

  /** No node text built from a text holds a line break. */
  lemma BuildTextsOneLine(text: string)
    ensures forall k :: 0 <= k < |Build(text)| ==> '\n' !in Build(text)[k].text
  {
    var tree := Build(text);
    var lines := Lines(text);
    RunTexts(lines, |lines|);
    forall k | 0 <= k < |tree| ensures '\n' !in tree[k].text {
      CleanHasNoQuote(lines[KeptLines(lines, |lines|)[k]]);
    }
  }

  lemma HeaderOneLine()
    ensures '\n' !in GraphHeader
  {
    assert forall i :: 0 <= i < |GraphHeader| ==> GraphHeader[i] != '\n';
  }

  /** The layout of the output of a node list with single-line texts. */
  lemma SplitOutput(tree: seq<TreeNode>)
    requires ParentsBefore(tree)
    requires forall k :: 0 <= k < |tree| ==> '\n' !in tree[k].text
    ensures Split(Output(tree), '\n') == [GraphHeader] + OutputLines(tree, |tree|) + [""]
  {
    HeaderOneLine();
    OutputLinesOneLine(tree, |tree|);
    SplitLines(GraphHeader, OutputLines(tree, |tree|));
  }

  /** The output of any text is the `graph TD` header, then each node's
      declaration followed by its parent edge if it has a parent, one per
      line, and a final newline. */
  lemma OutputLayout(text: string)
    ensures Split(Output(Build(text)), '\n') == [GraphHeader] + OutputLines(Build(text), |Build(text)|) + [""]
  {
    BuildTextsOneLine(text);
    SplitOutput(Build(text));
  }
}
