/** Why the exact condition asks for groups of the selector grammar: "f > ~", with two combinators in a row, is
    compiled as well, keeps marks, and is right nevertheless, because siblings have the same parent. */
module BeyondGrammar {
  import opened Dom
  import opened Selectors
  import opened Matchers
  import opened Evaluation
  import opened Compilation
  import opened Robustness

  /** A "~" search right after a ">" search that keeps no marks. */
  ghost predicate SiblingOfChild(env: Env, m: Matcher) {
    && m.Combine? && m.rel == Sibling && !m.base
    && m.inner.Combine? && m.inner.rel == Child && !m.inner.base && Unmarking(env, m.inner)
  }

  /** The marks of `m` tell the truth. */
  ghost predicate MarksTrue(env: Env, clock: Clock, m: Matcher, c: Caches)
    requires env.Valid() && m.Combine?
  {
    forall v: Node :: env.tree.Has(v) && Marked(clock, m, v, c) ==>
      match c[(v, DirOf(m.rel))].data
      case Pending => false
      case Hit => Holds(env, m.inner, v)
      case Miss(_) => !Holds(env, m.inner, v)
  }

  lemma SameForSibling(env: Env, m: Matcher, v: Node, u: Node)
    requires env.Valid() && env.tree.Has(v) && SiblingOfChild(env, m) && env.tree.Next(PreviousSibling, v) == Some(u)
    ensures Holds(env, m.inner, u) <==> Holds(env, m.inner, v)
  {
    var t := env.tree;
    assert t.UpLink(v) && t.DownLinks(t.parent[v].value);
    assert t.Next(ParentNode, u) == t.Next(ParentNode, v);
    var p := t.parent[v].value;
    if !t.IsElement(p) {
      assert t.DownLinks(p) && t.UpLink(p);
      assert t.Next(ParentNode, p) == None;
    }
  }

  /** If the inner matcher fails on a node, the whole search fails from there on. */
  lemma {:induction false} FailsFrom(env: Env, m: Matcher, v: Node)
    requires env.Valid() && env.tree.Has(v) && SiblingOfChild(env, m) && !Holds(env, m.inner, v)
    ensures !Holds(env, m, v)
    decreases env.tree.Steps(PreviousSibling, v)
  {
    match env.tree.Next(PreviousSibling, v)
    case None =>
    case Some(u) =>
      SameForSibling(env, m, v, u);
      FailsFrom(env, m, u);
  }

  lemma {:induction false} SearchIsRight(env: Env, clock: Clock, m: Matcher, cur: Node, c: Caches)
    requires env.Valid() && env.tree.Has(cur) && SiblingOfChild(env, m) && !env.xml && MarksTrue(env, clock, m, c)
    ensures var o := SearchFrom(env, clock, m, cur, c);
            (o.ok <==> Holds(env, m, cur)) && MarksTrue(env, clock, m, o.caches)
    decreases env.tree.Steps(PreviousSibling, cur)
  {
    var next := env.tree.Next(PreviousSibling, cur);
    if next.Some? {
      var p := next.value;
      if !Holds(env, m.inner, p) { FailsFrom(env, m, p); }
      if !Stop(env.tree, m.rel, m.base, p) || Marked(clock, m, p, c) {
        SearchIsRight(env, clock, m, p, c);
      } else {
        var mid := Mark(clock, m, p, c, Pending);
        EvalUnmarking(env, clock, m.inner, p, mid);
        var now := Mark(clock, m, p, mid, if Holds(env, m.inner, p) then Hit else Miss(clock.cachedruns));
        assert MarksTrue(env, clock, m, now);
        SearchIsRight(env, clock, m, p, now);
      }
    }
  }

  lemma {:induction false} EachIsRight(env: Env, clock: Clock, m: Matcher, elems: seq<Node>, c: Caches)
    requires AllIn(env, elems) && SiblingOfChild(env, m) && !env.xml && MarksTrue(env, clock, m, c)
    ensures var r := EvalEach(env, clock, m, elems, c);
            MarksTrue(env, clock, m, r.caches) && forall i :: 0 <= i < |elems| ==> (r.answers[i] <==> Holds(env, m, elems[i]))
    decreases |elems|
  {
    if elems != [] {
      var n := |elems| - 1;
      EachIsRight(env, clock, m, elems[..n], c);
      SearchIsRight(env, clock, m, elems[n], EvalEach(env, clock, m, elems[..n], c).caches);
    }
  }

  const CHILD_SIBLING: seq<Token> := [Simple(0), Combinator(Child), Combinator(Sibling)]

  lemma CompiledIs(env: Env, first: nat)
    requires env.contextIsDocument
    ensures SiblingOfChild(env, Compiled(CHILD_SIBLING, first))
  {
    var top := CompiledUpTo(CHILD_SIBLING, 0, first);
    var list := CompiledUpTo(CHILD_SIBLING, 1, first);
    assert list == top + [Filter(0)] && Unmarking(env, top[0]) && Unmarking(env, Filter(0));
    assert Unmarking(env, ElementMatcher(list));
    var child := CompiledUpTo(CHILD_SIBLING, 2, first);
    assert |child| == 1 && child[0].Combine? && child[0].inner == ElementMatcher(list);
  }

  /** Outside the grammar the condition is not necessary. */
  lemma NotNecessary()
    ensures !Robust(CHILD_SIBLING, false, true) && AlwaysRight(CHILD_SIBLING, false, true)
  {
    assert CHILD_SIBLING[2] == Combinator(Sibling);
    forall r: Trial | r.Ok() && r.env.xml == false && r.env.contextIsDocument == true ensures r.Right(CHILD_SIBLING) {
      var m := Compiled(CHILD_SIBLING, r.first);
      CompiledIs(r.env, r.first);
      EachIsRight(r.env, r.clock, m, r.elems, r.caches);
      CompiledMeans(CHILD_SIBLING, r.first);
      forall i | 0 <= i < |r.elems| ensures Holds(r.env, m, r.elems[i]) <==> Selects(r.env, CHILD_SIBLING, r.elems[i]) {
        UseMeans(m, CHILD_SIBLING, r.env, r.elems[i]);
      }
    }
  }
}
