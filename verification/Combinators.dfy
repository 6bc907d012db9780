/** What the four combinators relate, in terms of parents, child positions and node types alone, and
    what the simplest selectors come down to. */
module Combinators {
  import opened Dom
  import opened Selectors

  /** `chain` leads from `p` to `v`, each node the parent of the next. */
  ghost predicate ParentChain(t: Tree, p: Node, v: Node, chain: seq<Node>)
    requires t.Shaped()
  {
    && |chain| >= 2 && chain[0] == p && chain[|chain| - 1] == v
    && (forall i :: 0 <= i < |chain| ==> t.Has(chain[i]))
    && forall i :: 0 < i < |chain| ==> t.parent[chain[i]] == Some(chain[i-1])
  }

  ghost predicate Ancestor(t: Tree, p: Node, v: Node)
    requires t.Shaped()
  {
    exists chain :: ParentChain(t, p, v, chain)
  }

  /** `p` and `v` have the same parent and `p` comes first. */
  predicate EarlierSibling(t: Tree, p: Node, v: Node)
    requires t.Shaped() && t.Has(p) && t.Has(v)
  {
    t.parent[p] == t.parent[v] && t.parent[v].Some? && t.pos[p] < t.pos[v]
  }

  ghost predicate NoElementBetween(t: Tree, p: Node, v: Node)
    requires t.Shaped() && t.Has(p) && t.Has(v)
  {
    forall q: Node :: t.Has(q) && t.parent[q] == t.parent[v] && t.pos[p] < t.pos[q] < t.pos[v] ==> t.kind[q] != Element
  }

  // ---- Reaching ----

  lemma {:induction false} ReachesAncestor(t: Tree, p: Node, v: Node) returns (chain: seq<Node>)
    requires t.Valid() && t.Has(p) && t.Has(v) && Reaches(t, ParentNode, p, v)
    ensures ParentChain(t, p, v, chain)
    decreases t.depth[v]
  {
    assert t.UpLink(v);
    var u := t.parent[v].value;
    if p == u {
      chain := [p, v];
    } else {
      var up := ReachesAncestor(t, p, u);
      chain := up + [v];
    }
  }

  lemma {:induction false} AncestorReaches(t: Tree, p: Node, v: Node, chain: seq<Node>)
    requires t.Valid() && t.Has(v) && ParentChain(t, p, v, chain)
    ensures Reaches(t, ParentNode, p, v)
    decreases |chain|
  {
    var n := |chain| - 1;
    assert t.UpLink(v);
    if n > 1 {
      AncestorReaches(t, p, chain[n-1], chain[..n]);
    }
  }

  lemma ReachesParents(t: Tree, p: Node, v: Node)
    requires t.Valid() && t.Has(p) && t.Has(v)
    ensures Reaches(t, ParentNode, p, v) <==> Ancestor(t, p, v)
  {
    if Reaches(t, ParentNode, p, v) {
      var chain := ReachesAncestor(t, p, v);
    }
    if chain :| ParentChain(t, p, v, chain) {
      AncestorReaches(t, p, v, chain);
    }
  }

  lemma {:induction false} ReachesSiblings(t: Tree, p: Node, v: Node)
    requires t.Valid() && t.Has(p) && t.Has(v)
    ensures Reaches(t, PreviousSibling, p, v) <==> EarlierSibling(t, p, v)
    decreases t.pos[v]
  {
    assert t.UpLink(p) && t.UpLink(v);
    if t.pos[v] > 0 {
      var up := t.parent[v].value;
      assert t.DownLinks(up);
      var u := t.kids[up][t.pos[v] - 1];
      assert t.UpLink(u) && t.Next(PreviousSibling, v) == Some(u);
      ReachesSiblings(t, p, u);
      if EarlierSibling(t, p, v) && t.pos[p] == t.pos[u] {
        assert t.kids[up][t.pos[p]] == p;
      }
    }
  }

  // ---- The combinators ----

  /** " ": an element above; for the search for the context, any node above. */
  lemma DescendantMeans(t: Tree, anyNode: bool, p: Node, v: Node)
    requires t.Valid() && t.Has(p) && t.Has(v)
    ensures Related(t, Descendant, anyNode, p, v) <==> (anyNode || t.kind[p] == Element) && Ancestor(t, p, v)
  {
    ReachesParents(t, p, v);
  }

  /** "~": an element among the siblings before. */
  lemma SiblingMeans(t: Tree, anyNode: bool, p: Node, v: Node)
    requires t.Valid() && t.Has(p) && t.Has(v)
    ensures Related(t, Sibling, anyNode, p, v) <==> t.kind[p] == Element && EarlierSibling(t, p, v)
  {
    ReachesSiblings(t, p, v);
  }

  /** "+": the last such element. */
  lemma AdjacentMeans(t: Tree, anyNode: bool, p: Node, v: Node)
    requires t.Valid() && t.Has(p) && t.Has(v)
    ensures Related(t, Adjacent, anyNode, p, v)
            <==> t.kind[p] == Element && EarlierSibling(t, p, v) && NoElementBetween(t, p, v)
  {
    ReachesSiblings(t, p, v);
    forall q: Node | t.Has(q)
      ensures Reaches(t, PreviousSibling, q, v) <==> EarlierSibling(t, q, v)
      ensures Reaches(t, PreviousSibling, p, q) <==> EarlierSibling(t, p, q)
    {
      ReachesSiblings(t, q, v);
      ReachesSiblings(t, p, q);
    }
  }

  /** ">": the parent, if it is an element; for the search for the context, whatever it is. */
  lemma ChildMeans(t: Tree, anyNode: bool, p: Node, v: Node)
    requires t.Valid() && t.Has(p) && t.Has(v)
    ensures Related(t, Child, anyNode, p, v) <==> (anyNode || t.kind[p] == Element) && t.parent[v] == Some(p)
  {
    assert t.UpLink(v);
    if t.parent[v].Some? {
      var u := t.parent[v].value;
      assert t.DownLinks(u) && t.UpLink(u);
      NothingBelowParent(t, u, v);
    }
  }

  /** Between a node and its parent there is nothing. */
  lemma NothingBelowParent(t: Tree, u: Node, v: Node)
    requires t.Valid() && t.Has(v) && t.parent[v] == Some(u)
    ensures t.Has(u) && Reaches(t, ParentNode, u, v)
    ensures forall q: Node :: t.Has(q) && Reaches(t, ParentNode, q, v) ==> q == u || Reaches(t, ParentNode, q, u)
    ensures forall q: Node :: t.Has(q) && Reaches(t, ParentNode, q, v) ==> !Reaches(t, ParentNode, u, q)
  {
    assert t.UpLink(v);
    forall q: Node | t.Has(q) && Reaches(t, ParentNode, q, v) ensures !Reaches(t, ParentNode, u, q) {
      ReachesShallower(t, q, v);
      if Reaches(t, ParentNode, u, q) { ReachesShallower(t, u, q); }
    }
  }

  lemma {:induction false} ReachesShallower(t: Tree, p: Node, v: Node)
    requires t.Valid() && t.Has(p) && t.Has(v) && Reaches(t, ParentNode, p, v)
    ensures t.depth[p] < t.depth[v]
    decreases t.depth[v]
  {
    var u := t.Next(ParentNode, v).value;
    if p != u { ReachesShallower(t, p, u); }
  }

  /** The relation a combinator stands for, without any search. */
  ghost predicate Stands(t: Tree, rel: Relation, p: Node, v: Node)
    requires t.Shaped() && t.Has(p) && t.Has(v)
  {
    match rel
    case Descendant => Ancestor(t, p, v)
    case Child => t.parent[v] == Some(p)
    case Sibling => EarlierSibling(t, p, v)
    case Adjacent => EarlierSibling(t, p, v) && NoElementBetween(t, p, v)
  }

  lemma RelatedStands(t: Tree, rel: Relation, anyNode: bool, p: Node, v: Node)
    requires t.Valid() && t.Has(p) && t.Has(v)
    ensures Related(t, rel, anyNode, p, v) <==>
            Stands(t, rel, p, v) && (t.kind[p] == Element || (anyNode && (rel == Descendant || rel == Child)))
  {
    match rel
    case Descendant => DescendantMeans(t, anyNode, p, v);
    case Child => ChildMeans(t, anyNode, p, v);
    case Sibling => SiblingMeans(t, anyNode, p, v);
    case Adjacent => AdjacentMeans(t, anyNode, p, v);
  }

  // ---- The simplest selectors ----

  /** "f", in a context that is not the document: the elements below a context node that pass. */
  lemma ScopedMeans(env: Env, f: nat, v: Node)
    requires env.Valid() && env.tree.Has(v)
    ensures Selects(env, [Simple(f)], v) <==>
            (f, v) in env.sat && (env.xml || env.contextIsDocument || exists p: Node ::
              env.tree.Has(p) && IsContextNode(env, p) && Ancestor(env.tree, p, v))
  {
    var tokens := [Simple(f)];
    SelectsByTokens(env, tokens, v);
    forall p: Node | env.tree.Has(p) ensures Related(env.tree, Descendant, true, p, v) <==> Ancestor(env.tree, p, v) {
      DescendantMeans(env.tree, true, p, v);
    }
    assert SelectsUpTo(env, tokens, 0, v) <==> Rooted(env, tokens, v);
    assert SelectsUpTo(env, tokens, 1, v) <==> exists u :: env.tree.Has(u) && Link(env, tokens[0], u, v) && SelectsUpTo(env, tokens, 0, u);
  }

  /** "f > g" and the like, run on the document. */
  lemma PairMeans(env: Env, f: nat, rel: Relation, g: nat, v: Node)
    requires env.Valid() && env.tree.Has(v) && env.contextIsDocument
    ensures Selects(env, [Simple(f), Combinator(rel), Simple(g)], v) <==>
            (g, v) in env.sat && exists p: Node ::
              env.tree.Has(p) && env.tree.kind[p] == Element && Stands(env.tree, rel, p, v) && (f, p) in env.sat
  {
    var tokens := [Simple(f), Combinator(rel), Simple(g)];
    SelectsByTokens(env, tokens, v);
    forall p: Node | env.tree.Has(p)
      ensures Related(env.tree, rel, false, p, v) <==> Stands(env.tree, rel, p, v) && env.tree.kind[p] == Element
      ensures SelectsUpTo(env, tokens, 1, p) <==> (f, p) in env.sat
    {
      RelatedStands(env.tree, rel, false, p, v);
      FirstToken(env, tokens, f, p);
    }
    SecondToken(env, tokens, rel, v);
    assert SelectsUpTo(env, tokens, 3, v) <==> (g, v) in env.sat && SelectsUpTo(env, tokens, 2, v);
  }

  lemma FirstToken(env: Env, tokens: seq<Token>, f: nat, p: Node)
    requires env.Valid() && env.tree.Has(p) && env.contextIsDocument && tokens != [] && tokens[0] == Simple(f)
    ensures SelectsUpTo(env, tokens, 1, p) <==> (f, p) in env.sat
  {
    assert SelectsUpTo(env, tokens, 0, p) <==> Rooted(env, tokens, p);
  }

  lemma SecondToken(env: Env, tokens: seq<Token>, rel: Relation, v: Node)
    requires env.Valid() && env.tree.Has(v) && |tokens| >= 2 && tokens[0].Simple? && tokens[1] == Combinator(rel)
    ensures SelectsUpTo(env, tokens, 2, v) <==>
            exists p :: env.tree.Has(p) && Related(env.tree, rel, false, p, v) && SelectsUpTo(env, tokens, 1, p)
  {
    if p :| env.tree.Has(p) && Related(env.tree, rel, false, p, v) && SelectsUpTo(env, tokens, 1, p) {
      assert Link(env, tokens[1], p, v);
    }
  }

  /** "> f" and the like: what stands in the relation to a context node and passes. */
  lemma LeadingMeans(env: Env, rel: Relation, f: nat, v: Node)
    requires env.Valid() && env.tree.Has(v)
    ensures Selects(env, [Combinator(rel), Simple(f)], v) <==>
            (f, v) in env.sat && exists p: Node ::
              && env.tree.Has(p) && IsContextNode(env, p) && Stands(env.tree, rel, p, v)
              && (env.tree.kind[p] == Element || rel == Descendant || rel == Child)
  {
    var tokens := [Combinator(rel), Simple(f)];
    SelectsByTokens(env, tokens, v);
    forall p: Node | env.tree.Has(p) {
      RelatedStands(env.tree, rel, true, p, v);
    }
    assert SelectsUpTo(env, tokens, 1, v) <==> Rooted(env, tokens, v);
    assert SelectsUpTo(env, tokens, 2, v) <==> exists u :: env.tree.Has(u) && Link(env, tokens[1], u, v) && SelectsUpTo(env, tokens, 1, u);
  }
}
