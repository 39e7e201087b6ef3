/** treeParser.ts: an indented outline becomes a Mermaid `graph TD` tree.
    Each non-blank line becomes a node; its indentation (leading whitespace
    in steps of `IndentSize`) decides its parent, and lines with the same
    text share the id of the first of them. */
module TreeParser {
  import opened JsText
  import opened Tokens

  const IndentSize: nat := 4

  const GraphHeader: string := "graph TD"

  /** A node of the outline. `parent` is the position in the node list of
      the node object the TypeScript refers to. */
  datatype TreeNode = TreeNode(id: nat, text: string, parent: Option<nat>)

  /** The characters the text filter keeps: ASCII letters and digits, space,
      `-`, `(` and `)`. */
  predicate Allowed(c: char) {
    IsAsciiLetter(c) || IsDigit(c) || c == ' ' || c == '-' || c == '(' || c == ')'
  }

  /** `replace(/[^a-zA-Z \-\(\)\d]/g, "")`. */
  function Filter(s: string): (r: string)
    ensures |r| <= |s|
    ensures forall i :: 0 <= i < |r| ==> Allowed(r[i])
  {
    if s == [] then []
    else Filter(s[..|s| - 1]) + (if Allowed(s[|s| - 1]) then [s[|s| - 1]] else [])
  }

  /** The text of a line: trimmed, then filtered. */
  function Clean(line: string): string {
    Filter(Trim(line))
  }

  /** `Math.floor(leading whitespace / INDENT_SIZE)`. */
  function IndentLevel(line: string): nat {
    LeadingSpaces(line) / IndentSize
  }

  // ---------------------------------------------------------------------------
  // The line pass

  /** Every parent comes before its child in the node list. */
  predicate ParentsBefore(tree: seq<TreeNode>) {
    forall k :: 0 <= k < |tree| && tree[k].parent.Some? ==> tree[k].parent.value < k
  }

  predicate InTree(tree: seq<TreeNode>, p: Option<nat>) {
    p.Some? ==> p.value < |tree|
  }

  /** The variables of the line pass. */
  datatype State = State(tree: seq<TreeNode>, lookup: map<string, nat>, lastLevel: nat, parent: Option<nat>)

  predicate Valid(st: State) {
    ParentsBefore(st.tree) && InTree(st.tree, st.parent)
  }

  /** Up `outdent` parents, stopping at the top. */
  function Climb(tree: seq<TreeNode>, p: Option<nat>, outdent: nat): (r: Option<nat>)
    requires ParentsBefore(tree) && InTree(tree, p)
    ensures InTree(tree, r)
    decreases outdent
  {
    if outdent == 0 || p.None? then p else Climb(tree, tree[p.value].parent, outdent - 1)
  }

  /** The parent a line at `level` gets. */
  function NewParent(st: State, level: nat): (r: Option<nat>)
    requires Valid(st)
    ensures InTree(st.tree, r)
  {
    if level > st.lastLevel then (if st.tree == [] then None else Some(|st.tree| - 1))
    else if level < st.lastLevel then Climb(st.tree, st.parent, st.lastLevel - level)
    else st.parent
  }

  /** The id a new node with `text` gets on line `index`. */
  function NodeId(lookup: map<string, nat>, text: string, index: nat): nat {
    if text in lookup then lookup[text] else index
  }

  /** What `textLookup[text]` reads from the plain object of the
      TypeScript: the own entry, or else a member every object inherits
      from `Object.prototype` (only those whose names pass the text
      filter). */
  datatype JsId = LineIndex(index: nat) | Inherited(name: string)

  const PrototypeKeys: set<string> :=
    {"constructor", "hasOwnProperty", "isPrototypeOf", "propertyIsEnumerable", "toLocaleString", "toString", "valueOf"}

  /** The id as written: an inherited member is not `undefined`, so it
      becomes the node's id. */
  function NodeIdAsWritten(lookup: map<string, nat>, text: string, index: nat): JsId {
    if text in lookup then LineIndex(lookup[text])
    else if text in PrototypeKeys then Inherited(text)
    else LineIndex(index)
  }

  /** One iteration of the `forEach` over lines. */
  function Step(st: State, line: string, index: nat): (r: State)
    requires Valid(st)
    ensures Valid(r)
  {
    var text := Clean(line);
    if text == "" then st
    else
      var level := IndentLevel(line);
      var parent := NewParent(st, level);
      var id := NodeId(st.lookup, text, index);
      State(st.tree + [TreeNode(id, text, parent)], st.lookup[text := id], level, parent)
  }

  function Run(lines: seq<string>, n: nat): (r: State)
    requires n <= |lines|
    ensures Valid(r)
  {
    if n == 0 then State([], map[], 0, None) else Step(Run(lines, n - 1), lines[n - 1], n - 1)
  }

  function Lines(text: string): seq<string> {
    Split(text, '\n')
  }

  /** The nodes the line pass builds from a text. */
  function Build(text: string): (tree: seq<TreeNode>)
    ensures ParentsBefore(tree)
  {
    Run(Lines(text), |Lines(text)|).tree
  }

  // ---------------------------------------------------------------------------
  // The output

  function Declaration(node: TreeNode): string {
    NatToString(node.id) + "[\"" + node.text + "\"]"
  }

  function ParentEdge(parentId: nat, id: nat): string {
    NatToString(parentId) + " --> " + NatToString(id)
  }

  /** The output lines of one node: its declaration, then the edge from its
      parent when it has one. */
  function NodeOutput(tree: seq<TreeNode>, k: nat): seq<string>
    requires ParentsBefore(tree) && k < |tree|
  {
    var node := tree[k];
    [Declaration(node)] + (if node.parent.Some? then [ParentEdge(tree[node.parent.value].id, node.id)] else [])
  }

  /** The output lines of the first `n` nodes. */
  function OutputLines(tree: seq<TreeNode>, n: nat): seq<string>
    requires ParentsBefore(tree) && n <= |tree|
  {
    if n == 0 then [] else OutputLines(tree, n - 1) + NodeOutput(tree, n - 1)
  }

  function Output(tree: seq<TreeNode>): string
    requires ParentsBefore(tree)
  {
    Join([GraphHeader] + OutputLines(tree, |tree|), '\n') + "\n"
  }

  // ---------------------------------------------------------------------------
  // The method

  /** `parse` of treeParser.ts. */
  method Parse(text: string) returns (r: string)
    ensures r == Output(Build(text))
  {
    var lines := Split(text, '\n');
    var tree: seq<TreeNode> := [];
    var textLookup: map<string, nat> := map[];
    var lastIndentationLevel: nat := 0;
    var parent: Option<nat> := None;

    for index := 0 to |lines|
      invariant State(tree, textLookup, lastIndentationLevel, parent) == Run(lines, index)
    {
      tree, textLookup, lastIndentationLevel, parent :=
        ReadLine(tree, textLookup, lastIndentationLevel, parent, lines[index], index);
    }
    var mermaidOutput := Render(tree);
    r := Join(mermaidOutput, '\n') + "\n";
  }

  /** The callback of the `forEach` over lines. */
  method ReadLine(tree: seq<TreeNode>, textLookup: map<string, nat>, lastIndentationLevel: nat, parent: Option<nat>,
                  line: string, index: nat)
    returns (tree': seq<TreeNode>, textLookup': map<string, nat>, lastIndentationLevel': nat, parent': Option<nat>)
    requires Valid(State(tree, textLookup, lastIndentationLevel, parent))
    ensures State(tree', textLookup', lastIndentationLevel', parent')
      == Step(State(tree, textLookup, lastIndentationLevel, parent), line, index)
  {
    ghost var st := State(tree, textLookup, lastIndentationLevel, parent);
    tree', textLookup', lastIndentationLevel', parent' := tree, textLookup, lastIndentationLevel, parent;
    var indentationLevel := LeadingSpaces(line) / IndentSize;
    var nodeText := Filter(Trim(line));
    if nodeText != "" {
      if indentationLevel > lastIndentationLevel {
        parent' := if |tree| == 0 then None else Some(|tree| - 1);
      } else if indentationLevel < lastIndentationLevel {
        var outdent: nat := lastIndentationLevel - indentationLevel;
        while outdent != 0 && parent'.Some?
          invariant InTree(tree, parent')
          invariant Climb(tree, parent', outdent) == NewParent(st, indentationLevel)
          decreases outdent
        {
          parent' := tree[parent'.value].parent;
          outdent := outdent - 1;
        }
      }
      var id := if nodeText in textLookup then textLookup[nodeText] else index;
      textLookup' := textLookup[nodeText := id];
      tree' := tree + [TreeNode(id, nodeText, parent')];
      lastIndentationLevel' := indentationLevel;
    }
  }

  /** The `forEach` over nodes, after the header line. */
  method Render(tree: seq<TreeNode>) returns (mermaidOutput: seq<string>)
    requires ParentsBefore(tree)
    ensures mermaidOutput == [GraphHeader] + OutputLines(tree, |tree|)
  {
    mermaidOutput := [GraphHeader];
    for k := 0 to |tree|
      invariant mermaidOutput == [GraphHeader] + OutputLines(tree, k)
    {
      var node := tree[k];
      mermaidOutput := mermaidOutput + [Declaration(node)];
      if node.parent.Some? {
        mermaidOutput := mermaidOutput + [ParentEdge(tree[node.parent.value].id, node.id)];
      }
    }
  }
}
