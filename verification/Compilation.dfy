/** Compilation of a selector group without positional filters, and its meaning. */
module Compilation {
  import opened Dom
  import opened Selectors
  import opened Matchers

  /** A matching problem: is `v` selected in `env`? */
  ghost predicate Poses(env: Env, v: Node) {
    env.Valid() && env.tree.Has(v)
  }

  ghost predicate Means(m: Matcher, tokens: seq<Token>) {
    forall env: Env, v: Node {:trigger Poses(env, v)} :: Poses(env, v) ==>
      (Holds(env, m, v) <==> Selects(env, tokens, v))
  }

  ghost predicate MeansUpTo(matchers: seq<Matcher>, tokens: seq<Token>, i: nat) {
    Start(tokens) <= i <= |tokens| &&
    forall env: Env, v: Node {:trigger Poses(env, v)} :: Poses(env, v) ==>
      (AllHold(env, matchers, v) <==> SelectsUpTo(env, tokens, i, v))
  }

  lemma UseMeans(m: Matcher, tokens: seq<Token>, env: Env, v: Node)
    requires Means(m, tokens) && Poses(env, v)
    ensures Holds(env, m, v) <==> Selects(env, tokens, v)
  {
  }

  function ElementMatcher(matchers: seq<Matcher>): Matcher
    requires matchers != []
  {
    if |matchers| > 1 then Every(matchers) else matchers[0]
  }

  ghost predicate AllHold(env: Env, matchers: seq<Matcher>, v: Node)
    requires env.Valid() && env.tree.Has(v)
  {
    forall k :: 0 <= k < |matchers| ==> Holds(env, matchers[k], v)
  }

  /** How many of the tokens before `i` became searches of their own. */
  function Searches(tokens: seq<Token>, i: nat): nat
    requires Start(tokens) <= i <= |tokens|
  {
    if i == Start(tokens) then 0
    else Searches(tokens, i - 1) + if tokens[i-1].Combinator? then 1 else 0
  }

  /** The search that roots a group in its context. */
  function RootSearch(tokens: seq<Token>, inner: Matcher, name: nat): Matcher {
    Combine(inner, RootRelation(tokens), true, name)
  }

  /** The name of the search that token `i` becomes, if closures are named from `first` on. */
  function NameOf(tokens: seq<Token>, i: nat, first: nat): nat
    requires Start(tokens) <= i <= |tokens|
  {
    first + 2 + Searches(tokens, i)
  }

  /** The list of matchers after the tokens before `i`. */
  function CompiledUpTo(tokens: seq<Token>, i: nat, first: nat): (matchers: seq<Matcher>)
    requires Start(tokens) <= i <= |tokens|
    ensures matchers != []
  {
    if i == Start(tokens) then
      [TopLevel(Leading(tokens), RootSearch(tokens, IsContext, first), RootSearch(tokens, InContexts, first + 1))]
    else
      var was := CompiledUpTo(tokens, i - 1, first);
      match tokens[i-1]
      case Combinator(rel) => [Combine(ElementMatcher(was), rel, false, NameOf(tokens, i - 1, first))]
      case Simple(f) => was + [Filter(f)]
  }

  function Compiled(tokens: seq<Token>, first: nat): Matcher
    requires tokens != []
  {
    ElementMatcher(CompiledUpTo(tokens, |tokens|, first))
  }

  lemma {:induction false} CompiledUpToMeans(tokens: seq<Token>, i: nat, first: nat)
    requires tokens != [] && Start(tokens) <= i <= |tokens|
    ensures MeansUpTo(CompiledUpTo(tokens, i, first), tokens, i)
    decreases i
  {
    if i == Start(tokens) {
      MeansAtStart(tokens, RootSearch(tokens, IsContext, first), RootSearch(tokens, InContexts, first + 1));
    } else {
      CompiledUpToMeans(tokens, i - 1, first);
      CompileStep(tokens, i - 1, CompiledUpTo(tokens, i - 1, first), CompiledUpTo(tokens, i, first));
    }
  }

  /** Compilation preserves meaning: the matcher accepts exactly the nodes the group selects. */
  lemma CompiledMeans(tokens: seq<Token>, first: nat)
    requires tokens != []
    ensures Means(Compiled(tokens, first), tokens)
  {
    CompiledUpToMeans(tokens, |tokens|, first);
    MeansAtEnd(tokens, CompiledUpTo(tokens, |tokens|, first));
  }

  /** The closures of a compiled group are named in the order they are made, and only the first of a list searches. */
  ghost predicate ListNamed(matchers: seq<Matcher>, made: map<nat, Matcher>, bound: nat) {
    forall k :: 0 <= k < |matchers| ==> Named(matchers[k], made, bound) && (k > 0 ==> matchers[k].Filter?)
  }

  lemma ElementMatcherNamed(matchers: seq<Matcher>, made: map<nat, Matcher>, bound: nat)
    requires matchers != [] && ListNamed(matchers, made, bound)
    ensures Named(ElementMatcher(matchers), made, bound)
  {
  }

  /** The registry of the closures made for a group. */
  lemma {:induction false} CompiledNamed(tokens: seq<Token>, i: nat, first: nat) returns (made: map<nat, Matcher>)
    requires tokens != [] && Start(tokens) <= i <= |tokens|
    ensures ListNamed(CompiledUpTo(tokens, i, first), made, NameOf(tokens, i, first))
    decreases i
  {
    if i == Start(tokens) {
      var single, several := RootSearch(tokens, IsContext, first), RootSearch(tokens, InContexts, first + 1);
      made := map[first := single, first + 1 := several];
      assert Named(IsContext, made, first) && Named(InContexts, made, first + 1);
      assert Named(single, made, first + 2) && Named(several, made, first + 2);
    } else {
      made := CompiledNamed(tokens, i - 1, first);
      var was, now, name := CompiledUpTo(tokens, i - 1, first), CompiledUpTo(tokens, i, first), NameOf(tokens, i - 1, first);
      match tokens[i-1] {
        case Combinator(_) =>
          ElementMatcherNamed(was, made, name);
          NamedGrows(ElementMatcher(was), made, name, made[name := now[0]], name);
          made := made[name := now[0]];
        case Simple(f) =>
          assert now == was + [Filter(f)];
      }
    }
  }

  lemma TopLevelMeansRooted(env: Env, tokens: seq<Token>, single: Matcher, several: Matcher, v: Node)
    requires env.Valid() && env.tree.Has(v)
    requires single.Combine? && single.inner == IsContext && single.rel == RootRelation(tokens) && single.base
    requires several.Combine? && several.inner == InContexts && several.rel == RootRelation(tokens) && several.base
    ensures Holds(env, TopLevel(Leading(tokens), single, several), v) <==> Rooted(env, tokens, v)
  {
    SearchMeansRelated(env, single, v);
    SearchMeansRelated(env, several, v);
    var t, rel := env.tree, RootRelation(tokens);
    forall p | t.Has(p)
      ensures IsContextNode(env, p) <==> Holds(env, if env.context.One? then IsContext else InContexts, p)
    {
    }
  }

  lemma AllHoldOne(env: Env, m: Matcher, v: Node)
    requires env.Valid() && env.tree.Has(v)
    ensures AllHold(env, [m], v) <==> Holds(env, m, v)
  {
    assert [m][0] == m;
  }

  lemma MeansAtStart(tokens: seq<Token>, single: Matcher, several: Matcher)
    requires tokens != []
    requires single.Combine? && single.inner == IsContext && single.rel == RootRelation(tokens) && single.base
    requires several.Combine? && several.inner == InContexts && several.rel == RootRelation(tokens) && several.base
    ensures MeansUpTo([TopLevel(Leading(tokens), single, several)], tokens, Start(tokens))
  {
    var top := TopLevel(Leading(tokens), single, several);
    forall env: Env, v: Node | Poses(env, v)
      ensures AllHold(env, [top], v) <==> SelectsUpTo(env, tokens, Start(tokens), v)
    {
      TopLevelMeansRooted(env, tokens, single, several, v);
      AllHoldOne(env, top, v);
    }
  }

  lemma MeansAtEnd(tokens: seq<Token>, matchers: seq<Matcher>)
    requires matchers != [] && MeansUpTo(matchers, tokens, |tokens|)
    ensures Means(ElementMatcher(matchers), tokens)
  {
    forall env: Env, v: Node | Poses(env, v)
      ensures Holds(env, ElementMatcher(matchers), v) <==> Selects(env, tokens, v)
    {
      ElementMatcherHolds(env, matchers, v);
      assert Poses(env, v);
      SelectsByTokens(env, tokens, v);
    }
  }

  /** One more token: a filter joins the list, a combinator wraps the list in a search. */
  lemma CompileStep(tokens: seq<Token>, i: nat, was: seq<Matcher>, now: seq<Matcher>)
    requires i < |tokens| && was != [] && MeansUpTo(was, tokens, i)
    requires match tokens[i]
             case Simple(f) => now == was + [Filter(f)]
             case Combinator(rel) => exists name :: now == [Combine(ElementMatcher(was), rel, false, name)]
    ensures MeansUpTo(now, tokens, i + 1)
  {
    forall env: Env, v: Node | Poses(env, v)
      ensures AllHold(env, now, v) <==> SelectsUpTo(env, tokens, i + 1, v)
    {
      match tokens[i] {
        case Simple(f) =>
          FilterStep(env, was, f, v);
          assert Link(env, tokens[i], v, v) <==> (f, v) in env.sat;
        case Combinator(rel) =>
          AllHoldOne(env, now[0], v);
          SearchStep(env, tokens, i, was, now[0], v);
      }
    }
  }

  lemma FilterStep(env: Env, was: seq<Matcher>, f: nat, v: Node)
    requires env.Valid() && env.tree.Has(v)
    ensures AllHold(env, was + [Filter(f)], v) <==> AllHold(env, was, v) && (f, v) in env.sat
  {
    var now := was + [Filter(f)];
    assert now[|was|] == Filter(f);
    assert forall k :: 0 <= k < |was| ==> now[k] == was[k];
  }

  lemma SearchStep(env: Env, tokens: seq<Token>, i: nat, was: seq<Matcher>, search: Matcher, v: Node)
    requires env.Valid() && env.tree.Has(v) && i < |tokens| && was != [] && MeansUpTo(was, tokens, i)
    requires tokens[i].Combinator? && search.Combine? && search.inner == ElementMatcher(was)
    requires search.rel == tokens[i].rel && !search.base
    ensures Holds(env, search, v) <==> SelectsUpTo(env, tokens, i + 1, v)
  {
    SearchMeansRelated(env, search, v);
    if Holds(env, search, v) {
      var p :| Related(env.tree, search.rel, false, p, v) && Holds(env, search.inner, p);
      ElementMatcherHolds(env, was, p);
      assert Poses(env, p);
      assert Link(env, tokens[i], p, v) && SelectsUpTo(env, tokens, i, p);
    }
    if SelectsUpTo(env, tokens, i + 1, v) {
      var p :| env.tree.Has(p) && Link(env, tokens[i], p, v) && SelectsUpTo(env, tokens, i, p);
      ElementMatcherHolds(env, was, p);
      assert Poses(env, p);
      assert Related(env.tree, search.rel, false, p, v) && Holds(env, search.inner, p);
    }
  }

  lemma ElementMatcherHolds(env: Env, matchers: seq<Matcher>, v: Node)
    requires env.Valid() && env.tree.Has(v) && matchers != []
    ensures Holds(env, ElementMatcher(matchers), v) <==> AllHold(env, matchers, v)
  {
    if |matchers| == 1 {
      assert matchers == [matchers[0]];
      AllHoldOne(env, matchers[0], v);
    }
  }
}
