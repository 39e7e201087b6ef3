# Pseudocode flowcharts and indented outlines, modelled in Dafny

The repository turns two kinds of plain text into Mermaid diagram source.

* `src/flowchartParser.ts` compiles a small pseudocode language into a
  `flowchart TD` diagram. The language has statements, `if (…) { … }` with an
  optional `else { … }` (and `else if`), and `while (…) { … }`. It works in
  four stages:
  1. `tokeniser` is a character lexer. It rejects `"`.
  2. `preprocess` frames the token list with `Start` and `End` sentinels and
     rewrites `else if` into `else { if … }`.
  3. `convertToTree` is a one-pass state machine that builds nested arrays of
     statement, condition and loop nodes, with ids `id0`, `id1`, …
  4. `parse` walks that tree with an explicit stack of `Link` frames. It
     declares each node reachable from the root exactly once and draws an
     edge to its successor, with `Yes`/`No` labels and a long arrow `--->`
     into the End node. A node that no walk reaches is never declared; the
     only way to build one is a second `else` block for the same `if`, which
     orphans the first one.
* `src/treeParser.ts` turns an indented outline into a `graph TD` tree.
  Every non-blank line becomes a node. The line's indentation, in steps of
  four characters, picks its parent. Lines with the same text share an id.

The Dafny modules follow those stages:

| module | file | contents |
|---|---|---|
| `JsText` | js_text.dfy | the JavaScript string operations the parsers use: `trim`, `\s`, `split`, `join`, decimal rendering |
| `Tokens` | tokens.dfy | `Token`, the error kinds (`FlowError`), `Result`, brace depth |
| `Lexer` | lexer.dfy | `isText`, `tokeniser` |
| `Normaliser` | normaliser.dfy | `preprocess` |
| `TreeBuilder` | tree_builder.dfy | `Node`, `convertToTree` |
| `Linearizer` | linearizer.dfy | `Link`, `parse` of the tree |
| `WalkFacts` | walk_facts.dfy | properties of the emitted flowchart |
| `TreeShape` | tree_shape.dfy | the arena the tree pass builds: each node in one place, each array owned by one field; the orphaned `else` array |
| `WalkShape` | walk_shape.dfy | which places the walk reaches, and that it declares each of them once |
| `FlowchartParser` | flowchart_parser.dfy | the stages composed: `parse(text)` |
| `TreeParser` | tree_parser.dfy | `TreeNode`, `INDENT_SIZE`, `parse` of treeParser.ts |
| `TreeFacts` | tree_facts.dfy | properties of the outline tree and its text |

How the model is built:

* **Methods and specifications.** Every loop of the TypeScript is a Dafny
  `method` with the same loop. Each method is proved equal to a
  specification function. For the lexer, the tree builder and the tree
  parser, that function is a left fold of one `Step` over the input. For the
  stack machine of `parse`, it is `Walk`, a recursion over frames in the
  order the stack pops them. The lemmas state the promised properties about
  those functions.
* **Errors.** Every `throw` is a `Fail` of the `FlowError` datatype. The
  datatype carries the error kind, the line number and the offending token,
  not the message text.
* **Crashes and undefined arrays.** Two failures come from an array that
  is `undefined`. Both are modelled as explicit failures:
  - A `}` with nothing left to close leaves `statements` undefined, and the
    next token crashes with a `TypeError` reading it: `UndefinedAccess(token)`.
  - A condition or loop without a braced block, such as the text `if (`,
    leaves its `then` or `loop` array undefined. `parse` pops a frame for
    that array and throws its own error "no condition or statement": this is
    `NoStatement`.
* **Node arrays.** `convertToTree` aliases node arrays: `statements` and
  `lastStatement.then` are the same array. The model keeps them in an arena.
  `Tree.blocks` holds the arrays and a node refers to its `then`, `else` and
  `loop` arrays by index. A `Link` frame never changes after it is made, so
  the frame chain is a value.
* **Where the code differs from the behaviour one might expect, the model
  follows the code:**
  - A missing `}` is only detected while an `else if` is being rewritten.
    `if (x) { a` on its own is accepted and drawn.
  - A second `else` after the same `if` replaces the first `else` block.
    The first block stays in the arena, but nothing refers to it, and `parse`
    never declares its nodes.
  - A `Yes` edge into the End node uses the short arrow `-->`. Only `No`
    edges and plain statement edges use `--->`.

## Model

| member | source | states |
|---|---|---|
| JsText.Trim | src/flowchartParser.ts:20 | `trim()` returns the substring that starts after the leading whitespace and stops before the trailing whitespace: every character dropped at either end is whitespace, the first and last kept characters are not, and the result is empty exactly when every character is whitespace |
| JsText.LeadingSpaces | src/treeParser.ts:24 | what `/^\s*/` matches: the longest all-whitespace prefix; the next character, if any, is not whitespace |
| JsText.Split | src/treeParser.ts:13 | `split("\n")` gives at least one piece, and no piece contains the separator |
| JsText.JoinSplit | src/treeParser.ts:13 | joining the pieces of a split with the separator gives back the original text |
| JsText.SplitJoin | src/treeParser.ts:63 | splitting a join of separator-free pieces gives back the pieces |
| JsText.NatToString | src/treeParser.ts:57 | a number in a template literal renders as its decimal digits: reading the digits back (`DigitsValue`) gives the number, and there is no leading zero except for 0 itself |
| Lexer.Tokenise | src/flowchartParser.ts:12-67 | the character loop returns exactly the token list, or the error, that the fold `Lex` of the per-character step specifies |
| Lexer.QuoteRejection | src/flowchartParser.ts:31-35 | the tokeniser fails if and only if the text contains `"`; the error carries the number of newlines before the first `"` |
| Lexer.TokenShape | src/flowchartParser.ts:19-52 | for a quote-free text every token is non-empty, trimmed, single-line and quote-free; keywords are `if`, `else` or `while`; each bracket of the text becomes its own one-character grouping token, in text order; token lines never decrease and never exceed the newline count |
| Normaliser.ScanForClose | src/flowchartParser.ts:96-122 | the forward scan stops at the FIRST brace where the depth is back at 0 after a block opened and no `else` follows (no earlier index is such a stop), or runs to the end and returns the depth of what it scanned |
| Normaliser.FirstClose | src/flowchartParser.ts:100-122 | the first index at or after a start where the forward scan stops, or none: the index is a stop and no index before it is |
| Normaliser.KeptInsert | src/flowchartParser.ts:94 | a splice of a flagged token leaves the unflagged tokens, in order, unchanged |
| Normaliser.RewriteElseIf | src/flowchartParser.ts:90-131 | one `else if` rewrite returns exactly what `RewriteAt` gives: the `{` before the `if` and the `}` at the first stop of the scan, or at the end when the scan runs out at depth 0; mismatched opening (with the `if` token's line) exactly when the scan runs out below depth 0, mismatched closing (with the last token's line) exactly when it runs out above; on success the original tokens and the brace depth are kept |
| Normaliser.RewriteAt | src/flowchartParser.ts:90-131 | a successful rewrite adds exactly two tokens and leaves fewer `else` keywords directly followed by `if` from the rewrite position on, so the outer loop terminates |
| Normaliser.RewriteAll | src/flowchartParser.ts:85-135 | the `while` loop over the framed tokens returns exactly what `RewriteFrom` gives: every `else if` rewritten left to right up to the first failure; on success no `else` is directly followed by `if`, the original tokens are kept in order and the inserted tokens are braces that keep the depth; input without `else if` passes through unchanged |
| Normaliser.Preprocess | src/flowchartParser.ts:79-138 | `preprocess` returns exactly `Normalise(input)`: the framed input with every `else if` rewritten, or the first mismatch. The only failures are the two mismatch errors, and mismatched closing reports the last token's line. On success the list starts with `Start`; removing the inserted tokens gives back `Start`, the input, and `End` with the last input line (0 for empty input); inserted tokens are braces that keep the depth; each inserted `{` sits between an original `else` and `if`; no `else` is directly followed by `if`; input without `else if` comes back only framed |
| Normaliser.ElseIfExample | src/flowchartParser.ts:85-135 | `if (a) { b } else if (c) { d }` normalises to `Start if (a) { b } else { if (c) { d } } End` |
| TreeBuilder.Run | src/flowchartParser.ts:152-251 | every successful prefix of the token pass leaves a valid arena: nested arrays are created after their parent array, and the active array and the parent stack point into the arena |
| TreeBuilder.KeywordStep | src/flowchartParser.ts:164-194 | the keyword branch (`if`/`while` append a header node, `else` only checks) leaves a valid arena whenever it succeeds |
| TreeBuilder.GroupingStep | src/flowchartParser.ts:195-226 | the grouping branch (`{` opens the header's array and pushes the parent, `}` pops it) leaves a valid arena whenever it succeeds |
| TreeBuilder.StatementStep | src/flowchartParser.ts:227-250 | the statement branch (label the open header, or append a statement node) leaves a valid arena whenever it succeeds |
| TreeBuilder.Build | src/flowchartParser.ts:140-253 | a successful pass builds a well-formed tree |
| TreeBuilder.FailPersists | src/flowchartParser.ts:152-162 | once a token throws, the outcome of the whole pass is that error |
| TreeBuilder.ConvertToTree | src/flowchartParser.ts:140-254 | the `forEach` over the preprocessed tokens returns exactly the tree, or the error, that the fold `Build` specifies |
| TreeBuilder.RunGood | src/flowchartParser.ts:145-250 | after the first token: `state` and `expected` agree with the last node of the active array; `{` pushes and `}` pops, so the parent stack is as deep as the braces are unbalanced; ids follow the statement tokens read so far |
| TreeBuilder.BuildIds | src/flowchartParser.ts:234-249 | in a successful pass, id `k` belongs to exactly one node and carries the text of the `k`-th statement token (text, start or end); a statement node is an end node exactly when its token is the `End` token |
| TreeBuilder.FirstFailure | src/flowchartParser.ts:152-162 | a failed pass failed at one token after accepting every earlier one |
| TreeBuilder.StepFailure | src/flowchartParser.ts:160-225 | one token can only raise `Unexpected` (its category is not in `expected`), `else` without `if`, the `else if` guard, or the read through an undefined array, each with the token's line |
| TreeBuilder.BuildFailure | src/flowchartParser.ts:148-185 | these are the only errors of the pass, and an `Unexpected` token is never the first token, because `expected` starts as `null` |
| TreeBuilder.ElseIfFreeNeverUnsupported | src/flowchartParser.ts:182-185 | the `else if` guard never fires on a token list without `else if` |
| TreeBuilder.BuildFailureAfterStart | src/flowchartParser.ts:200-226 | after a leading statement token, an unexpected token was checked against one of the lists the pass sets; the undefined-array failure only comes after more `}` than `{` |
| TreeShape.BuildTidy | src/flowchartParser.ts:140-253 | in the tree of a successful pass each node index sits at one place of one array, every array field of a node refers to an existing array, and each array is the field of at most one node |
| TreeShape.SecondElseOrphans | src/flowchartParser.ts:211-214 | a `{` after a second `else` for the same condition replaces its `else` array, and afterwards no field of any node refers to the old one |
| TreeShape.StepKeepsUnreferenced | src/flowchartParser.ts:164-250 | one token never makes a node refer to an array that no node refers to |
| TreeShape.RunKeepsUnreferenced | src/flowchartParser.ts:152-251 | an array that no node refers to after some token stays unreferenced for the rest of a successful pass |
| Linearizer.Children | src/flowchartParser.ts:302-355 | the frames a popped frame pushes are the next sibling, the non-empty `else` array and the `then`/`loop` array; each is visited later than the popped frame (nested array, or later index) |
| Linearizer.FindNext | src/flowchartParser.ts:282-298 | the inner loop finds the successor: the next sibling, else the climb through the enclosing frames, which yields the enclosing loop itself (back edge) or the node after the enclosing node |
| Linearizer.VisitEmptyBlock | src/flowchartParser.ts:310-328 | an empty array with a successor emits the `Yes` edge of the enclosing condition to the successor, or fails with `EmptyLoop` under a loop |
| Linearizer.VisitStatement | src/flowchartParser.ts:329-334 | a statement emits its box `id["text"]` and an edge to its successor when it has one, long exactly when the successor is an end node |
| Linearizer.VisitBranch | src/flowchartParser.ts:335-359 | a condition or loop emits its diamond, the `No` edge (to `else[0]`, else to the successor) and the `Yes` edge into its non-empty inner array |
| Linearizer.VisitNode | src/flowchartParser.ts:329-360 | the lines of a node and the frames it pushes for its arrays |
| Linearizer.VisitFrame | src/flowchartParser.ts:280-360 | one iteration of the outer loop emits exactly the frame's lines, or its failure, and pushes exactly its child frames |
| Linearizer.PopFrame | src/flowchartParser.ts:273-274 | popping a frame and pushing its children leaves the remaining walk unchanged |
| Linearizer.PendingPush | src/flowchartParser.ts:303-355 | frames pushed on the stack are walked before the frames already on it, the last pushed first |
| Linearizer.Parse | src/flowchartParser.ts:262-364 | the stack machine returns exactly the header plus the rendered lines of the recursive walk from the root, or the first error the walk meets |
| WalkShape.Owner | src/flowchartParser.ts:302-355 | every array the walk enters below a place is a field of a node reached from that place |
| WalkShape.SubsApart | src/flowchartParser.ts:302-355 | in a tidy tree, the arrays reached through two different fields of one array's nodes never overlap |
| WalkShape.VisitsOnce | src/flowchartParser.ts:273-360 | the places the walk from a frame visits all lie in that frame's region, and none is visited twice |
| WalkShape.VisitsCover | src/flowchartParser.ts:273-360 | a successful walk from a frame visits every place of that frame's region: the later places of its array and every place of an array entered below them |
| WalkShape.WalkDeclarations | src/flowchartParser.ts:329-343 | the declaration lines of a walk are the declarations of the visited nodes, in visiting order |
| WalkShape.WalkDeclaresReachableOnce | src/flowchartParser.ts:262-364 | a successful walk of a tidy tree visits exactly the places reachable from the root, declares exactly the nodes at those places, in visiting order, and no node twice |
| WalkShape.BuiltDeclaresReachableOnce | src/flowchartParser.ts:140-364 | the same for every tree the tree pass builds |
| WalkShape.UnreferencedUnreached | src/flowchartParser.ts:302-355 | an array other than the root that no node refers to is never reached from the root |
| WalkShape.SecondElseDropped | src/flowchartParser.ts:211-214 | the `{` of a second `else` leaves the first `else` array unreferenced |
| WalkShape.SecondElseNeverDeclared | src/flowchartParser.ts:211-214 | when a pass reads a second `else` block for one condition, no place of the first `else` array is reached from the root, so `parse` declares none of its nodes |
| WalkFacts.EmptyLoopFails | src/flowchartParser.ts:324-325 | a `while` with an empty body cannot be drawn: the walk from its frame fails with `EmptyLoop` |
| WalkFacts.ChildFailure | src/flowchartParser.ts:273-278 | a failure anywhere below a frame is the outcome of the walk of that frame |
| WalkFacts.PendingFailure | src/flowchartParser.ts:273-277 | a failing frame anywhere on the stack makes the whole remaining walk fail |
| WalkFacts.FrameLongToEnd | src/flowchartParser.ts:300-347 | every long arrow a frame emits points at an end node |
| WalkFacts.WalkLongToEnd | src/flowchartParser.ts:300 | every long arrow `--->` of the whole walk points at an end node |
| WalkFacts.LoopBackEdge | src/flowchartParser.ts:285-292 | the successor of the last node of a loop body is the loop itself |
| WalkFacts.BranchEndJoins | src/flowchartParser.ts:285-296 | the successor of the last node of a `then` or `else` array is the condition's own successor |
| WalkFacts.EmptyThenYesEdge | src/flowchartParser.ts:319-323 | the walk of an empty `then` array is a single `Yes` edge from the condition to its successor |
| WalkFacts.WalkErrors | src/flowchartParser.ts:276-325 | the walk only fails with an undefined array or an empty loop |
| WalkFacts.RenderOneLine | src/flowchartParser.ts:330-358 | a rendered line contains no line break when its node text has none |
| WalkFacts.TextLines | src/flowchartParser.ts:363 | with single-line node texts, splitting the output at newlines gives the header, one piece per emitted line, and an empty last piece |
| WalkFacts.HeaderFirst | src/flowchartParser.ts:263 | the output's first line is `flowchart TD`, and the output ends with a newline |
| FlowchartParser.StatementTokensKept | src/flowchartParser.ts:94-126 | the braces that `preprocess` inserts never receive ids: the statement tokens are those of the framed input |
| FlowchartParser.Convert | src/flowchartParser.ts:140-150 | `convertToTree(text)` returns exactly `TreeOf(text)`, the tree pass over the normalised tokens of the lexed text: the quote error at the first `"`; never the `else if` guard error; on success the tree is well formed and ids `id0`, `id1`, … carry `Start`, the text tokens in order, and `End`; without `else if` the result is that of the tree pass on the framed tokens |
| FlowchartParser.Parse | src/flowchartParser.ts:262-364 | `parse(text)` returns exactly `Compile(text)`, the walk of `TreeOf(text)`: the quote error at the first `"`; never the `else if` guard error; the text starts with the `flowchart TD` line and ends with a newline |
| TreeParser.Filter | src/treeParser.ts:26 | the filter keeps only ASCII letters, digits, space, `-`, `(` and `)` |
| TreeParser.Climb | src/treeParser.ts:33-38 | climbing through parents stays inside the node list |
| TreeParser.NewParent | src/treeParser.ts:29-39 | the parent chosen for a line is an existing node or none |
| TreeParser.Step | src/treeParser.ts:22-53 | one line keeps every parent before its child |
| TreeParser.Build | src/treeParser.ts:12-54 | in the node list built from any text, every parent comes before its child |
| TreeParser.ReadLine | src/treeParser.ts:22-53 | the `forEach` callback, with its `outdent` loop, produces exactly the state of one step of the line fold |
| TreeParser.Render | src/treeParser.ts:56-61 | the second `forEach` produces the header and, per node in order, its declaration followed by the edge from its parent exactly when it has one |
| TreeParser.Parse | src/treeParser.ts:12-64 | `parse` returns exactly the joined output of the nodes the line fold builds |
| TreeFacts.KeptLines | src/treeParser.ts:26-28 | the lines that give nodes are, in increasing order, those whose cleaned text is not empty |
| TreeFacts.Levels | src/treeParser.ts:23-25 | the level of each kept line is its leading whitespace divided by 4, rounded down |
| TreeFacts.FilterKeepsAllowed | src/treeParser.ts:26 | text made only of allowed characters passes the filter unchanged |
| TreeFacts.FilterIdempotent | src/treeParser.ts:26 | filtering twice is filtering once |
| TreeFacts.CleanHasNoQuote | src/treeParser.ts:26 | a node text never contains `"` or a line break |
| TreeFacts.RunTexts | src/treeParser.ts:22-53 | there is one node per kept line, in order, holding that line's cleaned text; blank or fully filtered lines give no node |
| TreeFacts.RunIds | src/treeParser.ts:41-49 | the lookup maps each text seen so far to the first line that had it, and each node's id is the lookup entry of its text |
| TreeFacts.BuildIds | src/treeParser.ts:41-49 | a node's id is the index of the first line whose text is the same: that line has the text, and no earlier line has it |
| TreeFacts.BuildIdsShared | src/treeParser.ts:41-49 | two nodes share an id if and only if they share a text |
| TreeFacts.PrototypeKeyCollision | src/treeParser.ts:41-44 | for a new text named like an `Object.prototype` member, the lookup as written yields the inherited member, not the line index that the intended lookup gives |
| TreeFacts.ToStringOutline | src/treeParser.ts:17-44 | the outline `toString`: the lookup as written does not yield line 0, while the intended model builds one root node with id 0 |
| TreeFacts.RunShape | src/treeParser.ts:29-52 | along the line fold, the current parent is the last node's parent and the last level is the last kept line's level (blank lines change neither); every node obeys the parent rule |
| TreeFacts.NewNodeRule | src/treeParser.ts:29-39 | the parent rule for a new node: deeper hangs under the previous node, equal shares its parent, shallower climbs from that parent by the level difference |
| TreeFacts.ClimbDepth | src/treeParser.ts:32-38 | climbing `d` parents removes `d` ancestors, stopping at the top |
| TreeFacts.DepthBound | src/treeParser.ts:29-39 | under the parent rule no node has more ancestors than its indentation level |
| TreeFacts.DepthExact | src/treeParser.ts:29-39 | in an outline that starts at level 0 and deepens one step at a time, each node has exactly as many ancestors as its level |
| TreeFacts.BuildParents | src/treeParser.ts:22-53 | for the nodes built from any text: the parent rule holds, a node's depth is at most its level, a level-0 line is a root, and a well-indented outline has depth equal to level |
| TreeFacts.OutputLinesOneLine | src/treeParser.ts:56-61 | no output line of the tree contains a line break |
| TreeFacts.OutputLayout | src/treeParser.ts:14-63 | splitting the output at newlines gives `graph TD`, the declaration and parent edge of each node in order, and an empty last piece |

## Left out

- The React UI (`src/App.tsx`), browser and xAPI I/O (`src/index.tsx`), the editor widget (`src/Editor.tsx`), the syntax highlighter (`src/flowchartHighlighter.ts`) and thumbnail rasterisation (`src/thumbnail.ts`) are not part of this model. They are presentation and I/O around the two parsers.
- Error message wording: errors are the `FlowError` kinds with their line numbers and tokens, not the message strings.
- Strings are sequences of Dafny characters, not JavaScript UTF-16 code units. Whitespace is the ECMAScript WhiteSpace and LineTerminator set.
- Lexer.TokenShape: states that token lines never decrease and are at most the total newline count. It does not state that each token's line equals the newline count at the point where the token was flushed.
- WalkFacts.WalkLongToEnd: proves that long arrows go only into end nodes. The converse does not hold as written: a `Yes` edge into the End node uses `-->`.
- WalkFacts.TextLines: the end-to-end line layout of the flowchart text assumes node texts are single-line. That holds for every token (`Lexer.TokenShape`), but the link from a tree's node texts back to the tokens is not proved for the walk's output.
- TreeFacts.PrototypeKeyCollision: what the inherited member renders as in the output (the source text of a native function) is engine behaviour and is not modelled; the as-written id is the abstract value `Inherited(name)`.

## Findings

| source | as written | input that shows it | evidently intended | confidence | as-written member | corrected member |
|---|---|---|---|---|---|---|
| src/treeParser.ts:41-44 | `textLookup` is a plain object, so `textLookup[text]` also finds members inherited from `Object.prototype`; for a new text such as `toString` the id is that inherited function rather than the line index | the one-line outline `toString` | the id of a text not seen before is its own line index | not executed | TreeParser.NodeIdAsWritten, TreeFacts.ToStringOutline | TreeParser.NodeId, TreeFacts.BuildIds |
