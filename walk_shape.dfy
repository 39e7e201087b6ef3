/** Which nodes the walk of `parse` declares. The walk starts at the tree's
    own node array and enters the `then` or `loop` array and the `else` array
    of every condition and loop it meets; on a tidy arena (see `TreeShape`)
    it declares each node it can reach that way exactly once, and no other. */
module WalkShape {
  import opened Tokens
  import opened TreeBuilder
  import opened Linearizer
  import opened WalkFacts
  import opened TreeShape

  /** The node at place `j` of block `b`. */
  function PosNode(t: Tree, b: nat, j: nat): (n: Node)
    requires WellFormed(t) && b < |t.blocks| && j < |t.blocks[b]|
    ensures ChildrenAfter(n, b, |t.blocks|)
  {
    assert ChildrenAfter(t.nodes[t.blocks[b][j]], b, |t.blocks|);
    t.nodes[t.blocks[b][j]]
  }

  /** The field holding the block a condition or loop runs when its test holds. */
  function InnerField(n: Node): (f: Field)
    ensures FieldOf(n, f) == Inner(n)
  {
    if n.kind == Condition then ThenField else LoopField
  }

  /** The fields of `n` whose blocks the walk enters. */
  predicate WalkKid(n: Node, f: Field) {
    n.kind != Statement && (f == InnerField(n) || f == ElseField)
  }

  /** The blocks the walk enters from the nodes at places `i` and on of
      block `b`, however deep. */
  ghost function Nested(t: Tree, b: nat, i: nat): set<nat>
    requires WellFormed(t) && b < |t.blocks|
    decreases |t.blocks| - b, |t.blocks[b]| - i
  {
    if i >= |t.blocks[b]| then {}
    else
      var n := PosNode(t, b, i);
      var inner := if n.kind != Statement && Inner(n).Some? then {Inner(n).value} + Nested(t, Inner(n).value, 0) else {};
      var other := if n.kind != Statement && n.elseBlock.Some? then {n.elseBlock.value} + Nested(t, n.elseBlock.value, 0) else {};
      inner + other + Nested(t, b, i + 1)
  }

  /** Block `c` and every block the walk enters from it. */
  ghost function Sub(t: Tree, c: nat): set<nat>
    requires WellFormed(t) && c < |t.blocks|
  {
    {c} + Nested(t, c, 0)
  }

  predicate IsPos(t: Tree, p: (nat, nat)) {
    p.0 < |t.blocks| && p.1 < |t.blocks[p.0]|
  }

  /** Place `p` is reached by a walk from place `i` of block `b`: it comes
      later in the same block, or sits in a block entered on the way. */
  ghost predicate InRegion(t: Tree, p: (nat, nat), b: nat, i: nat)
    requires WellFormed(t) && b < |t.blocks|
  {
    IsPos(t, p) && ((p.0 == b && i <= p.1) || p.0 in Nested(t, b, i))
  }

  /** Nested blocks come after the block they are nested in. */
  lemma {:induction false} NestedAbove(t: Tree, b: nat, i: nat)
    requires WellFormed(t) && b < |t.blocks|
    ensures forall d :: d in Nested(t, b, i) ==> b < d < |t.blocks|
    decreases |t.blocks| - b, |t.blocks[b]| - i
  {
    if i < |t.blocks[b]| {
      var n := PosNode(t, b, i);
      if n.kind != Statement && Inner(n).Some? {
        NestedAbove(t, Inner(n).value, 0);
      }
      if n.kind != Statement && n.elseBlock.Some? {
        NestedAbove(t, n.elseBlock.value, 0);
      }
      NestedAbove(t, b, i + 1);
    }
  }

  /** Every entered block is the field of a node met on the way. */
  lemma {:induction false} Owner(t: Tree, b: nat, i: nat, d: nat) returns (e: nat, j: nat, g: Field)
    requires WellFormed(t) && b < |t.blocks| && d in Nested(t, b, i)
    ensures IsPos(t, (e, j)) && ((e == b && i <= j) || e in Nested(t, b, i))
    ensures FieldOf(PosNode(t, e, j), g) == Some(d)
    decreases |t.blocks| - b, |t.blocks[b]| - i
  {
    var n := PosNode(t, b, i);
    if n.kind != Statement && Inner(n) == Some(d) {
      e, j, g := b, i, InnerField(n);
    } else if n.kind != Statement && n.elseBlock == Some(d) {
      e, j, g := b, i, ElseField;
    } else if n.kind != Statement && Inner(n).Some? && d in Nested(t, Inner(n).value, 0) {
      e, j, g := Owner(t, Inner(n).value, 0, d);
    } else if n.kind != Statement && n.elseBlock.Some? && d in Nested(t, n.elseBlock.value, 0) {
      e, j, g := Owner(t, n.elseBlock.value, 0, d);
    } else {
      e, j, g := Owner(t, b, i + 1, d);
    }
  }

  /** Every entered block lies under a walk field of a node at place `i` or
      later of block `b`. */
  lemma {:induction false} TopOwner(t: Tree, b: nat, i: nat, d: nat) returns (j: nat, g: Field)
    requires WellFormed(t) && b < |t.blocks| && d in Nested(t, b, i)
    ensures i <= j < |t.blocks[b]| && WalkKid(PosNode(t, b, j), g) && FieldOf(PosNode(t, b, j), g).Some?
    ensures d in Sub(t, FieldOf(PosNode(t, b, j), g).value)
    decreases |t.blocks[b]| - i
  {
    var n := PosNode(t, b, i);
    if n.kind != Statement && Inner(n).Some? && d in Sub(t, Inner(n).value) {
      j, g := i, InnerField(n);
    } else if n.kind != Statement && n.elseBlock.Some? && d in Sub(t, n.elseBlock.value) {
      j, g := i, ElseField;
    } else {
      j, g := TopOwner(t, b, i + 1, d);
    }
  }

  /** On a tidy arena the blocks under two different fields of the nodes of
      one block have no block in common. */
  lemma {:induction false} SubsApart(t: Tree, b: nat, j1: nat, g1: Field, j2: nat, g2: Field, d: nat)
    requires WellFormed(t) && Tidy(t) && b < |t.blocks|
    requires j1 < |t.blocks[b]| && j2 < |t.blocks[b]| && (j1 != j2 || g1 != g2)
    requires FieldOf(PosNode(t, b, j1), g1).Some? && FieldOf(PosNode(t, b, j2), g2).Some?
    ensures d !in Sub(t, FieldOf(PosNode(t, b, j1), g1).value) || d !in Sub(t, FieldOf(PosNode(t, b, j2), g2).value)
    decreases d
  {
    var c1 := FieldOf(PosNode(t, b, j1), g1).value;
    var c2 := FieldOf(PosNode(t, b, j2), g2).value;
    NestedAbove(t, c1, 0);
    NestedAbove(t, c2, 0);
    if d in Sub(t, c1) && d in Sub(t, c2) {
      if d == c1 && d == c2 {
        assert false;
      } else if d == c1 {
        var e, j, g := Owner(t, c2, 0, d);
        assert false;
      } else if d == c2 {
        var e, j, g := Owner(t, c1, 0, d);
        assert false;
      } else {
        var e1, k1, h1 := Owner(t, c1, 0, d);
        var e2, k2, h2 := Owner(t, c2, 0, d);
        assert t.blocks[e1][k1] == t.blocks[e2][k2];
        assert e1 in Sub(t, c1) && e1 in Sub(t, c2);
        SubsApart(t, b, j1, g1, j2, g2, e1);
      }
    }
  }

  /** Where the walk from a node array's place `i` goes after visiting that
      place itself. */
  lemma KidInside(t: Tree, b: nat, i: nat, g: Field, p: (nat, nat))
    requires WellFormed(t) && Tidy(t) && b < |t.blocks| && i < |t.blocks[b]|
    requires WalkKid(PosNode(t, b, i), g) && FieldOf(PosNode(t, b, i), g).Some?
    requires InRegion(t, p, FieldOf(PosNode(t, b, i), g).value, 0)
    ensures InRegion(t, p, b, i) && p.0 != b && !InRegion(t, p, b, i + 1)
  {
    var c := FieldOf(PosNode(t, b, i), g).value;
    NestedAbove(t, c, 0);
    assert p.0 in Sub(t, c);
    if p.0 in Nested(t, b, i + 1) {
      var j, h := TopOwner(t, b, i + 1, p.0);
      SubsApart(t, b, i, g, j, h, p.0);
    }
  }

  lemma SiblingInside(t: Tree, b: nat, i: nat, p: (nat, nat))
    requires WellFormed(t) && b < |t.blocks| && i < |t.blocks[b]| && InRegion(t, p, b, i + 1)
    ensures InRegion(t, p, b, i) && p != (b, i)
  {
    NestedAbove(t, b, i + 1);
  }

  /** The `then` (or `loop`) part and the `else` part of one node share no place. */
  lemma KidsApart(t: Tree, b: nat, i: nat, p: (nat, nat))
    requires WellFormed(t) && Tidy(t) && b < |t.blocks| && i < |t.blocks[b]|
    requires PosNode(t, b, i).kind != Statement && Inner(PosNode(t, b, i)).Some? && PosNode(t, b, i).elseBlock.Some?
    requires InRegion(t, p, Inner(PosNode(t, b, i)).value, 0)
    ensures !InRegion(t, p, PosNode(t, b, i).elseBlock.value, 0)
  {
    var n := PosNode(t, b, i);
    SubsApart(t, b, i, InnerField(n), i, ElseField, p.0);
  }

  // ---------------------------------------------------------------------------
  // The places the walk visits

  /** The places whose node the walk from frame `f` emits, in output order;
      it follows `Walk` frame by frame. */
  ghost function Visits(t: Tree, f: Link): (vs: seq<(nat, nat)>)
    requires WellFormed(t) && FrameOk(t, f)
    ensures forall p :: p in vs ==> IsPos(t, p)
    decreases Rank(t, f), Rest(t, f)
  {
    if f.statements.None? then []
    else
      var b := f.statements.value;
      (if f.index < |t.blocks[b]| then [(b, f.index)] else []) + VisitsAll(t, f, Children(t, f))
  }

  ghost function VisitsAll(t: Tree, f: Link, cs: seq<Link>): (vs: seq<(nat, nat)>)
    requires WellFormed(t) && FrameOk(t, f) && f.statements.Some?
    requires forall k :: 0 <= k < |cs| ==> FrameOk(t, cs[k]) && Below(t, cs[k], f)
    ensures forall p :: p in vs ==> IsPos(t, p)
    decreases Rank(t, f), Rest(t, f), |cs|
  {
    if cs == [] then []
    else
      assert Below(t, cs[|cs| - 1], f);
      Visits(t, cs[|cs| - 1]) + VisitsAll(t, f, cs[..|cs| - 1])
  }

  function SiblingFrame(f: Link): Link {
    Link(f.statements, f.index + 1, f.parent)
  }

  /** The frame of one of the blocks of the node at frame `f`. */
  function KidFrame(block: Option<nat>, f: Link): Link {
    Link(block, 0, Some(f))
  }

  /** The sibling frame a frame pushes, if its block goes on. */
  function SiblingFrames(t: Tree, f: Link): (cs: seq<Link>)
    requires WellFormed(t) && FrameOk(t, f) && f.statements.Some?
    ensures forall k :: 0 <= k < |cs| ==> FrameOk(t, cs[k]) && Below(t, cs[k], f)
  {
    if f.index + 1 < |t.blocks[f.statements.value]| then [SiblingFrame(f)] else []
  }

  /** What the walk visits after the node at frame `f`: the rest of its block, */
  ghost function SiblingPart(t: Tree, f: Link): seq<(nat, nat)>
    requires WellFormed(t) && FrameOk(t, f) && f.statements.Some?
  {
    if f.index + 1 < |t.blocks[f.statements.value]| then Visits(t, SiblingFrame(f)) else []
  }

  /** its `else` block, */
  ghost function ElsePart(t: Tree, f: Link): seq<(nat, nat)>
    requires WellFormed(t) && FrameOk(t, f) && f.statements.Some? && f.index < |t.blocks[f.statements.value]|
  {
    var n := NodeAt(t, f);
    if n.kind != Statement && n.elseBlock.Some? && |t.blocks[n.elseBlock.value]| > 0
    then Visits(t, KidFrame(n.elseBlock, f)) else []
  }

  /** and its `then` or `loop` block. */
  ghost function InnerPart(t: Tree, f: Link): seq<(nat, nat)>
    requires WellFormed(t) && FrameOk(t, f) && f.statements.Some? && f.index < |t.blocks[f.statements.value]|
  {
    var n := NodeAt(t, f);
    if n.kind != Statement then Visits(t, KidFrame(Inner(n), f)) else []
  }

  lemma SiblingFramesVisits(t: Tree, f: Link)
    requires WellFormed(t) && FrameOk(t, f) && f.statements.Some?
    ensures VisitsAll(t, f, SiblingFrames(t, f)) == SiblingPart(t, f)
  {
    var cont := SiblingFrames(t, f);
    if cont != [] {
      assert cont[..0] == [];
    }
  }

  /** The `else` frame a condition or loop pushes, if its `else` block has nodes. */
  function ElseFrames(t: Tree, f: Link): seq<Link>
    requires WellFormed(t) && FrameOk(t, f) && f.statements.Some? && f.index < |t.blocks[f.statements.value]|
  {
    var n := NodeAt(t, f);
    if n.elseBlock.Some? && |t.blocks[n.elseBlock.value]| > 0 then [KidFrame(n.elseBlock, f)] else []
  }

  lemma BranchChildren(t: Tree, f: Link)
    requires WellFormed(t) && FrameOk(t, f) && f.statements.Some? && f.index < |t.blocks[f.statements.value]|
    requires NodeAt(t, f).kind != Statement
    ensures Children(t, f) == SiblingFrames(t, f) + ElseFrames(t, f) + [KidFrame(Inner(NodeAt(t, f)), f)]
  {
  }

  lemma ElseVisits(t: Tree, f: Link)
    requires WellFormed(t) && FrameOk(t, f) && f.statements.Some? && f.index < |t.blocks[f.statements.value]|
    requires NodeAt(t, f).kind != Statement
    ensures forall k :: 0 <= k < |SiblingFrames(t, f) + ElseFrames(t, f)| ==>
      var c := (SiblingFrames(t, f) + ElseFrames(t, f))[k]; FrameOk(t, c) && Below(t, c, f)
    ensures VisitsAll(t, f, SiblingFrames(t, f) + ElseFrames(t, f)) == ElsePart(t, f) + VisitsAll(t, f, SiblingFrames(t, f))
  {
    var cont := SiblingFrames(t, f);
    var rest := cont + ElseFrames(t, f);
    BranchChildren(t, f);
    assert forall k :: 0 <= k < |rest| ==> rest[k] == Children(t, f)[k];
    if ElseFrames(t, f) != [] {
      assert rest[..|rest| - 1] == cont;
    } else {
      assert rest == cont;
    }
  }

  /** The frames a condition or loop pushes, visited last pushed first. */
  lemma BranchVisits(t: Tree, f: Link)
    requires WellFormed(t) && FrameOk(t, f) && f.statements.Some? && f.index < |t.blocks[f.statements.value]|
    requires NodeAt(t, f).kind != Statement
    ensures VisitsAll(t, f, Children(t, f)) == InnerPart(t, f) + (ElsePart(t, f) + VisitsAll(t, f, SiblingFrames(t, f)))
  {
    var n := NodeAt(t, f);
    var cs := Children(t, f);
    BranchChildren(t, f);
    ElseVisits(t, f);
    assert cs[..|cs| - 1] == SiblingFrames(t, f) + ElseFrames(t, f);
    assert cs[|cs| - 1] == KidFrame(Inner(n), f);
  }

  /** The visits of a frame: its own place, then the `then` (or `loop`)
      block, then the `else` block, then the rest of its own block. */
  lemma VisitsSplit(t: Tree, f: Link)
    requires WellFormed(t) && FrameOk(t, f) && f.statements.Some? && f.index < |t.blocks[f.statements.value]|
    ensures Visits(t, f) == [(f.statements.value, f.index)] + (InnerPart(t, f) + (ElsePart(t, f) + SiblingPart(t, f)))
  {
    SiblingFramesVisits(t, f);
    if NodeAt(t, f).kind != Statement {
      BranchVisits(t, f);
    } else {
      assert Children(t, f) == SiblingFrames(t, f);
    }
  }

  predicate Distinct<T(==)>(s: seq<T>) {
    forall k1, k2 :: 0 <= k1 < k2 < |s| ==> s[k1] != s[k2]
  }

  lemma DistinctConcat<T>(a: seq<T>, b: seq<T>)
    requires Distinct(a) && Distinct(b) && forall x :: x in a ==> x !in b
    ensures Distinct(a + b)
  {
    forall k1, k2 | 0 <= k1 < k2 < |a + b| ensures (a + b)[k1] != (a + b)[k2] {
      if k1 < |a| && k2 >= |a| {
        assert (a + b)[k1] in a && (a + b)[k2] == b[k2 - |a|];
      }
    }
  }

  /** The four parts of a frame's visits do not overlap and stay within
      what the frame can reach. */
  lemma PartsCombine(t: Tree, b: nat, i: nat, inner: seq<(nat, nat)>, other: seq<(nat, nat)>, sibling: seq<(nat, nat)>)
    requires WellFormed(t) && b < |t.blocks| && i < |t.blocks[b]|
    requires Distinct(inner) && Distinct(other) && Distinct(sibling)
    requires forall p :: p in inner ==> InRegion(t, p, b, i) && p.0 != b && !InRegion(t, p, b, i + 1) && p !in other
    requires forall p :: p in other ==> InRegion(t, p, b, i) && p.0 != b && !InRegion(t, p, b, i + 1)
    requires forall p :: p in sibling ==> InRegion(t, p, b, i) && InRegion(t, p, b, i + 1) && p != (b, i)
    ensures forall p :: p in [(b, i)] + (inner + (other + sibling)) ==> InRegion(t, p, b, i)
    ensures Distinct([(b, i)] + (inner + (other + sibling)))
  {
    DistinctConcat(other, sibling);
    DistinctConcat(inner, other + sibling);
    DistinctConcat([(b, i)], inner + (other + sibling));
  }

  /** The visits of the rest of a frame's block. */
  lemma {:induction false} SiblingOnce(t: Tree, f: Link)
    requires WellFormed(t) && Tidy(t) && FrameOk(t, f) && f.statements.Some? && f.index < |t.blocks[f.statements.value]|
    ensures var b, i := f.statements.value, f.index;
      forall p :: p in SiblingPart(t, f) ==> InRegion(t, p, b, i) && InRegion(t, p, b, i + 1) && p != (b, i)
    ensures Distinct(SiblingPart(t, f))
    decreases Rank(t, f), Rest(t, f), 0
  {
    var b, i := f.statements.value, f.index;
    if i + 1 < |t.blocks[b]| {
      VisitsOnce(t, SiblingFrame(f));
      forall p | p in SiblingPart(t, f) ensures InRegion(t, p, b, i) && p != (b, i) {
        SiblingInside(t, b, i, p);
      }
    }
  }

  /** The visits of a block a condition or loop at frame `f` enters. */
  lemma {:induction false} KidOnce(t: Tree, f: Link, g: Field)
    requires WellFormed(t) && Tidy(t) && FrameOk(t, f) && f.statements.Some? && f.index < |t.blocks[f.statements.value]|
    requires WalkKid(NodeAt(t, f), g) && FieldOf(NodeAt(t, f), g).Some?
    ensures var b, i := f.statements.value, f.index;
      forall p :: p in Visits(t, KidFrame(FieldOf(NodeAt(t, f), g), f)) ==>
        && InRegion(t, p, FieldOf(NodeAt(t, f), g).value, 0)
        && InRegion(t, p, b, i) && p.0 != b && !InRegion(t, p, b, i + 1)
    ensures Distinct(Visits(t, KidFrame(FieldOf(NodeAt(t, f), g), f)))
    decreases Rank(t, f), Rest(t, f), 0
  {
    var b, i := f.statements.value, f.index;
    var c := FieldOf(NodeAt(t, f), g);
    assert NodeAt(t, f) == PosNode(t, b, i);
    VisitsOnce(t, KidFrame(c, f));
    forall p | p in Visits(t, KidFrame(c, f)) ensures InRegion(t, p, b, i) && p.0 != b && !InRegion(t, p, b, i + 1) {
      KidInside(t, b, i, g, p);
    }
  }

  lemma {:induction false} ElseOnce(t: Tree, f: Link)
    requires WellFormed(t) && Tidy(t) && FrameOk(t, f) && f.statements.Some? && f.index < |t.blocks[f.statements.value]|
    ensures var b, i := f.statements.value, f.index;
      forall p :: p in ElsePart(t, f) ==> InRegion(t, p, b, i) && p.0 != b && !InRegion(t, p, b, i + 1)
    ensures Distinct(ElsePart(t, f))
    ensures forall p :: p in ElsePart(t, f) ==> InRegion(t, p, NodeAt(t, f).elseBlock.value, 0)
    decreases Rank(t, f), Rest(t, f), 1
  {
    if ElsePart(t, f) != [] {
      KidOnce(t, f, ElseField);
    }
  }

  lemma {:induction false} InnerOnce(t: Tree, f: Link)
    requires WellFormed(t) && Tidy(t) && FrameOk(t, f) && f.statements.Some? && f.index < |t.blocks[f.statements.value]|
    ensures var b, i := f.statements.value, f.index;
      forall p :: p in InnerPart(t, f) ==> InRegion(t, p, b, i) && p.0 != b && !InRegion(t, p, b, i + 1) && p !in ElsePart(t, f)
    ensures Distinct(InnerPart(t, f))
    decreases Rank(t, f), Rest(t, f), 2
  {
    var b, i := f.statements.value, f.index;
    var n := NodeAt(t, f);
    if n.kind != Statement && Inner(n).Some? {
      KidOnce(t, f, InnerField(n));
      ElseOnce(t, f);
      forall p | p in InnerPart(t, f) ensures p !in ElsePart(t, f) {
        if ElsePart(t, f) != [] {
          KidsApart(t, b, i, p);
        }
      }
    } else if n.kind != Statement {
      assert InnerPart(t, f) == [];
    }
  }

  /** On a tidy arena the walk from a frame visits only places it can reach,
      and none of them twice. */
  lemma {:induction false} VisitsOnce(t: Tree, f: Link)
    requires WellFormed(t) && Tidy(t) && FrameOk(t, f) && f.statements.Some?
    ensures forall p :: p in Visits(t, f) ==> InRegion(t, p, f.statements.value, f.index)
    ensures Distinct(Visits(t, f))
    decreases Rank(t, f), Rest(t, f), 3
  {
    var b, i := f.statements.value, f.index;
    if i >= |t.blocks[b]| {
      assert Children(t, f) == [];
      assert Visits(t, f) == [];
    } else {
      VisitsSplit(t, f);
      SiblingOnce(t, f);
      ElseOnce(t, f);
      InnerOnce(t, f);
      PartsCombine(t, b, i, InnerPart(t, f), ElsePart(t, f), SiblingPart(t, f));
    }
  }

  /** A frame whose walk succeeds has children whose walks succeed. */
  lemma ChildOk(t: Tree, f: Link, k: nat)
    requires WellFormed(t) && FrameOk(t, f) && f.statements.Some? && k < |Children(t, f)| && Walk(t, f).Ok?
    ensures Walk(t, Children(t, f)[k]).Ok?
  {
    if Walk(t, Children(t, f)[k]).Fail? {
      ChildFailure(t, f, k);
    }
  }

  /** A place a frame can reach, other than the frame's own, is reached
      through the rest of the block, the `then` (or `loop`) block or the
      `else` block. */
  lemma RegionCases(t: Tree, b: nat, i: nat, p: (nat, nat))
    requires WellFormed(t) && b < |t.blocks| && i < |t.blocks[b]| && InRegion(t, p, b, i) && p != (b, i)
    ensures var n := PosNode(t, b, i);
      || (i + 1 < |t.blocks[b]| && InRegion(t, p, b, i + 1))
      || (n.kind != Statement && Inner(n).Some? && InRegion(t, p, Inner(n).value, 0))
      || (n.kind != Statement && n.elseBlock.Some? && |t.blocks[n.elseBlock.value]| > 0
          && InRegion(t, p, n.elseBlock.value, 0))
  {
    var n := PosNode(t, b, i);
    if !((p.0 == b && i < p.1) || p.0 in Nested(t, b, i + 1)) {
      if !(n.kind != Statement && Inner(n).Some? && p.0 in Sub(t, Inner(n).value)) {
        assert p.0 in Sub(t, n.elseBlock.value);
      }
    }
  }

  lemma {:induction false} CoverSibling(t: Tree, f: Link, p: (nat, nat))
    requires WellFormed(t) && FrameOk(t, f) && f.statements.Some? && Walk(t, f).Ok?
    requires f.index + 1 < |t.blocks[f.statements.value]| && InRegion(t, p, f.statements.value, f.index + 1)
    ensures p in SiblingPart(t, f)
    decreases Rank(t, f), Rest(t, f), 0
  {
    if f.index < |t.blocks[f.statements.value]| && NodeAt(t, f).kind != Statement {
      BranchChildren(t, f);
    } else {
      assert Children(t, f) == SiblingFrames(t, f);
    }
    assert Children(t, f)[0] == SiblingFrame(f);
    ChildOk(t, f, 0);
    VisitsCover(t, SiblingFrame(f), p);
  }

  lemma {:induction false} CoverInner(t: Tree, f: Link, p: (nat, nat))
    requires WellFormed(t) && FrameOk(t, f) && f.statements.Some? && Walk(t, f).Ok?
    requires f.index < |t.blocks[f.statements.value]| && NodeAt(t, f).kind != Statement && Inner(NodeAt(t, f)).Some?
    requires InRegion(t, p, Inner(NodeAt(t, f)).value, 0)
    ensures p in InnerPart(t, f)
    decreases Rank(t, f), Rest(t, f), 0
  {
    BranchChildren(t, f);
    ChildOk(t, f, |Children(t, f)| - 1);
    VisitsCover(t, KidFrame(Inner(NodeAt(t, f)), f), p);
  }

  lemma {:induction false} CoverElse(t: Tree, f: Link, p: (nat, nat))
    requires WellFormed(t) && FrameOk(t, f) && f.statements.Some? && Walk(t, f).Ok?
    requires f.index < |t.blocks[f.statements.value]| && NodeAt(t, f).kind != Statement
    requires NodeAt(t, f).elseBlock.Some? && |t.blocks[NodeAt(t, f).elseBlock.value]| > 0
    requires InRegion(t, p, NodeAt(t, f).elseBlock.value, 0)
    ensures p in ElsePart(t, f)
    decreases Rank(t, f), Rest(t, f), 0
  {
    BranchChildren(t, f);
    var k := |SiblingFrames(t, f)|;
    assert Children(t, f)[k] == KidFrame(NodeAt(t, f).elseBlock, f);
    ChildOk(t, f, k);
    VisitsCover(t, KidFrame(NodeAt(t, f).elseBlock, f), p);
  }

  /** A successful walk from a frame visits every place it can reach. */
  lemma {:induction false} VisitsCover(t: Tree, f: Link, p: (nat, nat))
    requires WellFormed(t) && FrameOk(t, f) && f.statements.Some? && Walk(t, f).Ok?
    requires InRegion(t, p, f.statements.value, f.index)
    ensures p in Visits(t, f)
    decreases Rank(t, f), Rest(t, f), 1
  {
    var b, i := f.statements.value, f.index;
    if i < |t.blocks[b]| {
      VisitsSplit(t, f);
      var n := NodeAt(t, f);
      assert n == PosNode(t, b, i);
      if p != (b, i) {
        RegionCases(t, b, i, p);
        if i + 1 < |t.blocks[b]| && InRegion(t, p, b, i + 1) {
          CoverSibling(t, f, p);
        } else if n.kind != Statement && Inner(n).Some? && InRegion(t, p, Inner(n).value, 0) {
          CoverInner(t, f, p);
        } else {
          CoverElse(t, f, p);
        }
      }
    }
  }

  // ---------------------------------------------------------------------------
  // The declarations the walk emits

  /** The declaration lines of an output, in order. */
  function Declarations(lines: seq<Line>): seq<Line> {
    if lines == [] then [] else (if lines[0].Declare? then [lines[0]] else []) + Declarations(lines[1..])
  }

  lemma {:induction false} DeclarationsAppend(a: seq<Line>, b: seq<Line>)
    ensures Declarations(a + b) == Declarations(a) + Declarations(b)
    decreases |a|
  {
    if a == [] {
      assert a + b == b;
    } else {
      var head := if a[0].Declare? then [a[0]] else [];
      assert (a + b)[0] == a[0];
      assert (a + b)[1..] == a[1..] + b;
      DeclarationsAppend(a[1..], b);
      assert Declarations(a + b) == head + (Declarations(a[1..]) + Declarations(b));
    }
  }

  lemma {:induction false} EdgesOnly(es: seq<Line>)
    requires forall k :: 0 <= k < |es| ==> es[k].Edge?
    ensures Declarations(es) == []
    decreases |es|
  {
    if es != [] {
      EdgesOnly(es[1..]);
    }
  }

  lemma DeclarationThenEdges(d: Line, es: seq<Line>)
    requires d.Declare? && forall k :: 0 <= k < |es| ==> es[k].Edge?
    ensures Declarations([d] + es) == [d]
  {
    assert ([d] + es)[1..] == es;
    EdgesOnly(es);
  }

  /** The line `parse` emits to declare a node: a box for a statement, a
      diamond for a condition or loop. */
  function DeclOf(n: Node): Line {
    Declare(n.kind == Statement, n.id, n.text)
  }

  /** The declarations of the nodes at places `ps`, in order. */
  ghost function DeclsAt(t: Tree, ps: seq<(nat, nat)>): seq<Line>
    requires WellFormed(t) && forall p :: p in ps ==> IsPos(t, p)
  {
    if ps == [] then []
    else
      var p := ps[0];
      assert p in ps && IsPos(t, p);
      assert forall q :: q in ps[1..] ==> q in ps;
      [DeclOf(PosNode(t, p.0, p.1))] + DeclsAt(t, ps[1..])
  }

  lemma {:induction false} DeclsAtAppend(t: Tree, a: seq<(nat, nat)>, b: seq<(nat, nat)>)
    requires WellFormed(t) && (forall p :: p in a ==> IsPos(t, p)) && forall p :: p in b ==> IsPos(t, p)
    ensures DeclsAt(t, a + b) == DeclsAt(t, a) + DeclsAt(t, b)
    decreases |a|
  {
    if a == [] {
      assert a + b == b;
    } else {
      assert (a + b)[1..] == a[1..] + b;
      DeclsAtAppend(t, a[1..], b);
    }
  }

  /** The lines of one frame declare its node, if it has one, and nothing else. */
  lemma FrameDeclarations(t: Tree, f: Link)
    requires WellFormed(t) && FrameOk(t, f) && f.statements.Some? && FrameLines(t, f).Ok?
    ensures var b := f.statements.value;
      Declarations(FrameLines(t, f).value) == DeclsAt(t, if f.index < |t.blocks[b]| then [(b, f.index)] else [])
  {
    var b := f.statements.value;
    if f.index < |t.blocks[b]| {
      var n := NodeAt(t, f);
      var next := Successor(t, f);
      assert DeclsAt(t, [(b, f.index)]) == [DeclOf(n)];
      if n.kind == Statement {
        DeclarationThenEdges(Declare(true, n.id, n.text), if next.Some? then [Edge(n.id, Plain, t.nodes[next.value].isEnd, IdOf(t, next))] else []);
      } else {
        DeclarationThenEdges(Declare(false, n.id, n.text), NoEdge(t, n, next) + YesEdge(t, n));
        assert BranchLines(t, n, next) == [Declare(false, n.id, n.text)] + (NoEdge(t, n, next) + YesEdge(t, n));
      }
    } else {
      EdgesOnly(FrameLines(t, f).value);
    }
  }

  /** The walk declares the nodes at the places it visits, in that order. */
  lemma {:induction false} WalkDeclarations(t: Tree, f: Link)
    requires WellFormed(t) && FrameOk(t, f) && Walk(t, f).Ok?
    ensures Declarations(Walk(t, f).value) == DeclsAt(t, Visits(t, f))
    decreases Rank(t, f), Rest(t, f), 1
  {
    var b := f.statements.value;
    var cs := Children(t, f);
    var head: seq<(nat, nat)> := if f.index < |t.blocks[b]| then [(b, f.index)] else [];
    FrameDeclarations(t, f);
    WalkAllDeclarations(t, f, cs);
    DeclarationsAppend(FrameLines(t, f).value, WalkAll(t, f, cs).value);
    DeclsAtAppend(t, head, VisitsAll(t, f, cs));
  }

  lemma {:induction false} WalkAllDeclarations(t: Tree, f: Link, cs: seq<Link>)
    requires WellFormed(t) && FrameOk(t, f) && f.statements.Some?
    requires forall k :: 0 <= k < |cs| ==> FrameOk(t, cs[k]) && Below(t, cs[k], f)
    requires WalkAll(t, f, cs).Ok?
    ensures Declarations(WalkAll(t, f, cs).value) == DeclsAt(t, VisitsAll(t, f, cs))
    decreases Rank(t, f), Rest(t, f), 0, |cs|
  {
    if cs != [] {
      var last := cs[|cs| - 1];
      assert Below(t, last, f);
      WalkDeclarations(t, last);
      WalkAllDeclarations(t, f, cs[..|cs| - 1]);
      DeclarationsAppend(Walk(t, last).value, WalkAll(t, f, cs[..|cs| - 1]).value);
      DeclsAtAppend(t, Visits(t, last), VisitsAll(t, f, cs[..|cs| - 1]));
    }
  }

  // ---------------------------------------------------------------------------
  // What `parse` declares

  /** The node indices at places `ps`. */
  ghost function NodesAt(t: Tree, ps: seq<(nat, nat)>): (ns: seq<nat>)
    requires forall p :: p in ps ==> IsPos(t, p)
    ensures |ns| == |ps|
  {
    seq(|ps|, k requires 0 <= k < |ps| => var p := ps[k]; assert p in ps && IsPos(t, p); t.blocks[p.0][p.1])
  }

  /** A successful walk of a tidy arena declares, in order, the nodes at the
      places it visits; it visits exactly the places reachable from the root
      through the blocks of conditions and loops; and no node twice. */
  lemma WalkDeclaresReachableOnce(t: Tree)
    requires WellFormed(t) && Tidy(t) && Walk(t, RootFrame).Ok?
    ensures Declarations(Walk(t, RootFrame).value) == DeclsAt(t, Visits(t, RootFrame))
    ensures forall p :: p in Visits(t, RootFrame) <==> InRegion(t, p, 0, 0)
    ensures Distinct(NodesAt(t, Visits(t, RootFrame)))
  {
    var vs := Visits(t, RootFrame);
    WalkDeclarations(t, RootFrame);
    VisitsOnce(t, RootFrame);
    forall p | InRegion(t, p, 0, 0) ensures p in vs {
      VisitsCover(t, RootFrame, p);
    }
    var ns := NodesAt(t, vs);
    forall k1, k2 | 0 <= k1 < k2 < |ns| ensures ns[k1] != ns[k2] {
      assert vs[k1] in vs && vs[k2] in vs && vs[k1] != vs[k2];
    }
  }

  /** For an arena built from tokens: every node `parse` can reach is
      declared once. */
  lemma BuiltDeclaresReachableOnce(tokens: seq<Token>)
    requires Build(tokens).Ok? && Walk(Build(tokens).value, RootFrame).Ok?
    ensures var t := Build(tokens).value;
      && Declarations(Walk(t, RootFrame).value) == DeclsAt(t, Visits(t, RootFrame))
      && (forall p :: p in Visits(t, RootFrame) <==> InRegion(t, p, 0, 0))
      && Distinct(NodesAt(t, Visits(t, RootFrame)))
  {
    BuildTidy(tokens);
    WalkDeclaresReachableOnce(Build(tokens).value);
  }

  /** A block no field refers to is never reached (unless it is the tree). */
  lemma UnreferencedUnreached(t: Tree, c: nat)
    requires WellFormed(t) && c != 0 && Unreferenced(t, c)
    ensures forall p :: InRegion(t, p, 0, 0) ==> p.0 != c
  {
    forall p | InRegion(t, p, 0, 0) ensures p.0 != c {
      if p.0 == c {
        var e, j, g := Owner(t, 0, 0, c);
      }
    }
  }

  /** Block `c` is the `else` block of the condition a `{` token would
      give a new `else` block. */
  ghost predicate ReopensElse(st: Builder, token: Token, c: nat) {
    && Valid(st) && token.kind == Grouping && token.value == "{"
    && st.state == ElseHead && st.statements.Some? && LastNode(st.tree, st.statements.value).Some?
    && st.tree.nodes[LastNode(st.tree, st.statements.value).value].elseBlock == Some(c)
  }

  /** The `{` of a second `else` block leaves the first one unreferenced. */
  lemma SecondElseDropped(st: Builder, tokens: seq<Token>, m: nat, c: nat)
    requires m < |tokens| && ReopensElse(st, tokens[m], c) && Tidy(st.tree) && Step(st, tokens, m).Ok?
    ensures c != 0 && Unreferenced(Step(st, tokens, m).value.tree, c)
  {
    var s := st.statements.value;
    assert LastNode(st.tree, s).value == st.tree.blocks[s][|st.tree.blocks[s]| - 1];
    SecondElseOrphans(st, tokens[m]);
  }

  /** A condition with two `else` blocks: when the `{` of the second is read,
      the first `else` block is dropped, and none of its nodes is reached, so
      `parse` never declares them. */
  lemma SecondElseNeverDeclared(tokens: seq<Token>, m: nat, c: nat)
    requires m < |tokens| && Build(tokens).Ok? && Run(tokens, m).Ok? && ReopensElse(Run(tokens, m).value, tokens[m], c)
    ensures forall p :: InRegion(Build(tokens).value, p, 0, 0) ==> p.0 != c
  {
    var st := Run(tokens, m).value;
    RunKeepsUnreferenced(tokens, m + 1, |tokens|, c);
    assert Run(tokens, m + 1) == Step(st, tokens, m);
    RunTidy(tokens, m);
    SecondElseDropped(st, tokens, m, c);
    UnreferencedUnreached(Build(tokens).value, c);
  }
}
