/** Trees grown one node at a time along a path: each node is the last child or the next sibling of the
    one before. They serve as witnesses. */
module Staircase {
  import opened Dom

  /** The node added last: it can get a child or a next sibling. */
  ghost predicate IsTip(t: Tree, v: Node) {
    && t.Valid() && |t.kind| == v + 1
    && (t.kind[v] == Element || t.parent[v] == None)
    && (t.parent[v].Some? ==> t.pos[v] + 1 == |t.kids[t.Parent(v).value]|)
  }

  /** The parent of a node put one step in direction `dir` after `tip`. */
  function Above(t: Tree, tip: Node, dir: Dir): Node
    requires t.Valid() && t.Has(tip) && (dir == PreviousSibling ==> t.parent[tip].Some?)
  {
    if dir == ParentNode then tip else t.Parent(tip).value
  }

  function Grow(t: Tree, tip: Node, dir: Dir): Tree
    requires IsTip(t, tip) && (dir == PreviousSibling ==> t.parent[tip].Some?)
  {
    var p := Above(t, tip, dir);
    Tree(t.kind + [Element], t.parent + [Some(p)], t.kids[p := t.kids[p] + [tip + 1]] + [[]],
         t.depth + [t.depth[p] + 1], t.pos + [|t.kids[p]|])
  }

  lemma GrowIsTree(t: Tree, tip: Node, dir: Dir)
    requires IsTip(t, tip) && (dir == PreviousSibling ==> t.parent[tip].Some?)
    ensures IsTip(Grow(t, tip, dir), tip + 1)
  {
    var p, now := Above(t, tip, dir), Grow(t, tip, dir);
    assert t.DownLinks(p) && t.UpLink(tip);
    forall v: Node | now.Has(v) ensures now.UpLink(v) && now.DownLinks(v) {
      if v <= tip { assert t.UpLink(v) && t.DownLinks(v); }
    }
  }

  /** One step from `v` in direction `dir` is `u`. */
  ghost predicate Leads(t: Tree, dir: Dir, v: Node, u: Node) {
    t.Valid() && t.Has(v) && t.Next(dir, v) == Some(u)
  }

  lemma GrowAdds(t: Tree, tip: Node, dir: Dir)
    requires IsTip(t, tip) && (dir == PreviousSibling ==> t.parent[tip].Some?)
    ensures Leads(Grow(t, tip, dir), dir, tip + 1, tip)
  {
    GrowIsTree(t, tip, dir);
    var p, now := Above(t, tip, dir), Grow(t, tip, dir);
    assert now.UpLink(tip + 1) && t.UpLink(tip);
  }

  lemma GrowKeeps(t: Tree, tip: Node, dir: Dir, d: Dir, v: Node, u: Node)
    requires IsTip(t, tip) && (dir == PreviousSibling ==> t.parent[tip].Some?)
    requires Leads(t, d, v, u)
    ensures Leads(Grow(t, tip, dir), d, v, u)
  {
    GrowIsTree(t, tip, dir);
    assert t.UpLink(v) && Grow(t, tip, dir).UpLink(v);
  }

  /** The index of the first node of the path: the document itself, or an element below it. */
  function Base(doc: bool): nat {
    if doc then 0 else 1
  }

  predicate Walkable(doc: bool, moves: seq<Dir>) {
    doc && moves != [] ==> moves[0] == ParentNode
  }

  function Stair(doc: bool, moves: seq<Dir>): (t: Tree)
    requires Walkable(doc, moves)
    ensures IsTip(t, Base(doc) + |moves|) && t.kind[0] == Document && t.parent[0] == None
    ensures Base(doc) + |moves| > 0 ==> t.parent[Base(doc) + |moves|].Some?
  {
    if moves == [] then
      var t := if doc then Tree([Document], [None], [[]], [0], [0])
               else Tree([Document, Element], [None, Some(0)], [[1], []], [0, 1], [0, 0]);
      assert forall v: Node :: t.Has(v) ==> t.UpLink(v) && t.DownLinks(v);
      t
    else
      var n := |moves| - 1;
      var t := Stair(doc, moves[..n]);
      GrowIsTree(t, Base(doc) + n, moves[n]);
      Grow(t, Base(doc) + n, moves[n])
  }

  lemma StairGrows(doc: bool, moves: seq<Dir>)
    requires Walkable(doc, moves) && moves != []
    ensures var n := |moves| - 1;
            var front, tip := Stair(doc, moves[..n]), Base(doc) + n;
            && IsTip(front, tip) && (moves[n] == PreviousSibling ==> front.parent[tip].Some?)
            && Stair(doc, moves) == Grow(front, tip, moves[n])
  {
  }

  ghost predicate StairLeads(doc: bool, moves: seq<Dir>, d: Dir, v: Node, u: Node) {
    Walkable(doc, moves) && Leads(Stair(doc, moves), d, v, u)
  }

  lemma StairEnd(doc: bool, moves: seq<Dir>)
    requires Walkable(doc, moves) && moves != []
    ensures StairLeads(doc, moves, moves[|moves| - 1], Base(doc) + |moves|, Base(doc) + |moves| - 1)
  {
    var n := |moves| - 1;
    StairGrows(doc, moves);
    GrowAdds(Stair(doc, moves[..n]), Base(doc) + n, moves[n]);
  }

  lemma StairKeeps(doc: bool, moves: seq<Dir>, d: Dir, v: Node, u: Node)
    requires Walkable(doc, moves) && moves != []
    requires StairLeads(doc, moves[..|moves| - 1], d, v, u)
    ensures StairLeads(doc, moves, d, v, u)
  {
    var n := |moves| - 1;
    StairGrows(doc, moves);
    GrowKeeps(Stair(doc, moves[..n]), Base(doc) + n, moves[n], d, v, u);
  }

  /** Each move of the path leads back to the node before. */
  lemma {:induction false} StairLinks(doc: bool, moves: seq<Dir>, j: nat)
    requires Walkable(doc, moves) && j < |moves|
    ensures StairLeads(doc, moves, moves[j], Base(doc) + j + 1, Base(doc) + j)
    decreases |moves|
  {
    var n := |moves| - 1;
    if j == n {
      StairEnd(doc, moves);
    } else {
      StairLinks(doc, moves[..n], j);
      StairKeeps(doc, moves, moves[..n][j], Base(doc) + j + 1, Base(doc) + j);
    }
  }

  /** All nodes but the document are elements. */
  lemma {:induction false} StairElements(doc: bool, moves: seq<Dir>, v: Node)
    requires Walkable(doc, moves) && 0 < v <= Base(doc) + |moves|
    ensures Stair(doc, moves).kind[v] == Element
    decreases |moves|
  {
    if moves != [] && v < Base(doc) + |moves| {
      StairElements(doc, moves[..|moves| - 1], v);
    }
  }
}
