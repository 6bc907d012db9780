/** The closures `matcherFromTokens` builds, as data, and their cache-free meaning. */
module Matchers {
  import opened Dom
  import opened Selectors

  datatype Matcher =
    | Filter(id: nat)
    /** `elem === checkContext` and `indexOf.call( checkContext, elem ) > -1` */
    | IsContext
    | InContexts
    /** the first entry of `matchers` */
    | TopLevel(leading: bool, matchContext: Matcher, matchAnyContext: Matcher)
    /** what `addCombinator` returns */
    | Combine(inner: Matcher, rel: Relation, base: bool, doneName: nat)
    /** what `elementMatcher` returns for more than one matcher */
    | Every(parts: seq<Matcher>)

  ghost function StepsLeft(env: Env, m: Matcher, v: Node): nat
    requires env.Valid() && env.tree.Has(v)
  {
    if m.Combine? then env.tree.Steps(DirOf(m.rel), v) else 0
  }

  /** The truth value of a matcher when every search is the plain loop without a cache. */
  ghost predicate Holds(env: Env, m: Matcher, v: Node)
    requires env.Valid() && env.tree.Has(v)
    decreases m, StepsLeft(env, m, v)
  {
    match m
    case Filter(id) => (id, v) in env.sat
    case IsContext => env.context == One(v)
    case InContexts => env.context.Many? && v in env.context.nodes
    case TopLevel(leading, single, several) =>
      || (!leading && (env.xml || env.contextIsDocument))
      || (if env.context.One? then Holds(env, single, v) else Holds(env, several, v))
    case Combine(inner, rel, base, _) =>
      (match env.tree.Next(DirOf(rel), v)
       case None => false
       case Some(p) =>
         if !Stop(env.tree, rel, base, p) then Holds(env, m, p)
         else Holds(env, inner, p) || (!First(rel) && Holds(env, m, p)))
    case Every(parts) => forall i :: 0 <= i < |parts| ==> Holds(env, parts[i], v)
  }

  /** Combinator closures carry distinct names: each is registered under its own name,
      and everything inside it was made earlier. In a list of matchers only the first, which
      is tried last, may search: once a search has succeeded nothing may fail after it. */
  ghost predicate Named(m: Matcher, made: map<nat, Matcher>, bound: nat)
    decreases m
  {
    match m
    case Filter(_) => true
    case IsContext => true
    case InContexts => true
    case TopLevel(_, single, several) => Named(single, made, bound) && Named(several, made, bound)
    case Combine(inner, _, _, name) =>
      name < bound && name in made && made[name] == m && Named(inner, made, name)
    case Every(parts) =>
      forall i :: 0 <= i < |parts| ==> Named(parts[i], made, bound) && (i > 0 ==> parts[i].Filter?)
  }

  lemma {:induction false} NamedGrows(m: Matcher, made: map<nat, Matcher>, bound: nat,
                                      made': map<nat, Matcher>, bound': nat)
    requires Named(m, made, bound) && bound <= bound'
    requires forall name :: name in made && name < bound ==> name in made' && made'[name] == made[name]
    ensures Named(m, made', bound')
    decreases m
  {
    match m
    case Filter(_) =>
    case IsContext =>
    case InContexts =>
    case TopLevel(_, single, several) =>
      NamedGrows(single, made, bound, made', bound');
      NamedGrows(several, made, bound, made', bound');
    case Combine(inner, _, _, name) =>
      NamedGrows(inner, made, name, made', name);
    case Every(parts) =>
      forall i | 0 <= i < |parts| ensures Named(parts[i], made', bound') {
        NamedGrows(parts[i], made, bound, made', bound');
      }
  }

  // ---- A search finds what the relation says ----

  /** `m` is a search; it succeeds exactly when a related node satisfies the inner matcher. */
  lemma {:induction false} SearchMeansRelated(env: Env, m: Matcher, v: Node)
    requires env.Valid() && env.tree.Has(v) && m.Combine?
    ensures Holds(env, m, v) <==>
            exists p :: Related(env.tree, m.rel, m.base, p, v) && Holds(env, m.inner, p)
    decreases env.tree.Steps(DirOf(m.rel), v)
  {
    var t, dir := env.tree, DirOf(m.rel);
    match t.Next(dir, v) {
      case None =>
      case Some(u) =>
        SearchMeansRelated(env, m, u);
        forall p | t.Has(p)
          ensures Related(t, m.rel, m.base, p, v) <==>
                  || (p == u && Stop(t, m.rel, m.base, u))
                  || (Related(t, m.rel, m.base, p, u) && !(First(m.rel) && Stop(t, m.rel, m.base, u)))
        {
          RelatedStep(t, m.rel, m.base, p, u, v);
        }
        if Stop(t, m.rel, m.base, u) {
          assert Related(t, m.rel, m.base, u, v);
        }
    }
  }

  /** A related node is the next stop, or is related to the next node. */
  lemma RelatedStep(t: Tree, rel: Relation, anyNode: bool, p: Node, u: Node, v: Node)
    requires t.Valid() && t.Has(v) && t.Has(p) && t.Next(DirOf(rel), v) == Some(u)
    ensures Related(t, rel, anyNode, p, v) <==>
            || (p == u && Stop(t, rel, anyNode, u))
            || (Related(t, rel, anyNode, p, u) && !(First(rel) && Stop(t, rel, anyNode, u)))
  {
    var dir := DirOf(rel);
    assert forall q :: t.Has(q) ==> (Reaches(t, dir, q, v) <==> q == u || Reaches(t, dir, q, u));
    if Reaches(t, dir, p, u) {
      ReachesDown(t, dir, p, u);
    }
    forall q | t.Has(q) && Reaches(t, dir, q, u) ensures t.Steps(dir, q) < t.Steps(dir, u) {
      ReachesDown(t, dir, q, u);
    }
    if p == u {
      forall q | t.Has(q) && Reaches(t, dir, q, v) && Reaches(t, dir, p, q) ensures false {
        ReachesDown(t, dir, p, q);
      }
    }
  }

  lemma {:induction false} ReachesDown(t: Tree, dir: Dir, p: Node, v: Node)
    requires t.Valid() && t.Has(v) && t.Has(p) && Reaches(t, dir, p, v)
    ensures t.Steps(dir, p) < t.Steps(dir, v)
    decreases t.Steps(dir, v)
  {
    var u := t.Next(dir, v).value;
    if p != u { ReachesDown(t, dir, p, u); }
  }

  /** ">" relates an element to its children only, whatever else may be in between in general. */
  lemma ChildIsParent(t: Tree, p: Node, v: Node)
    requires t.Valid() && t.Has(v) && t.Has(p)
    ensures Related(t, Child, false, p, v) <==> t.parent[v] == Some(p) && t.IsElement(p)
  {
    match t.parent[v]
    case None =>
    case Some(u) =>
      assert t.UpLink(v);
      RelatedStep(t, Child, false, p, u, v);
      if !t.IsElement(u) {
        assert t.DownLinks(u);
        assert t.parent[u] == None;
      }
  }
}
