/** What goes wrong when several elements are tried under one value of `cachedruns`, as `condense` in
    `setMatcher` does: a search that once failed on a node ends there for every later element, although
    going on might succeed. */
module SharedRun {
  import opened Dom
  import opened Selectors
  import opened Matchers
  import opened Evaluation
  import opened Compilation
  import opened Staircase
  import Positional

  // ---- How a failure is found again ----

  lemma {:induction false} SameParts(env: Env, clock: Clock, a: Matcher, b: Matcher, i: nat, v: Node, c: Caches)
    requires env.Valid() && env.tree.Has(v) && a.Every? && b.Every? && i <= |a.parts| && i <= |b.parts|
    requires a.parts[..i] == b.parts[..i]
    ensures EvalParts(env, clock, a, i, v, c) == EvalParts(env, clock, b, i, v, c)
    decreases i
  {
    if i > 0 {
      assert a.parts[i-1] == a.parts[..i][i-1] == b.parts[i-1];
      var o := Eval(env, clock, a.parts[i-1], v, c);
      assert a.parts[..i-1] == a.parts[..i][..i-1] == b.parts[..i-1];
      SameParts(env, clock, a, b, i - 1, v, o.caches);
    }
  }

  /** A filter at the end of a list is asked first; if it fails nothing else is asked. */
  lemma FilterFirst(env: Env, clock: Clock, was: seq<Matcher>, f: nat, v: Node, c: Caches)
    requires env.Valid() && env.tree.Has(v) && was != []
    ensures Eval(env, clock, ElementMatcher(was + [Filter(f)]), v, c)
            == if (f, v) in env.sat then Eval(env, clock, ElementMatcher(was), v, c) else Outcome(false, c)
  {
    var now, n := Every(was + [Filter(f)]), |was|;
    assert now.parts[n] == Filter(f) && Eval(env, clock, Filter(f), v, c) == Outcome((f, v) in env.sat, c);
    assert Eval(env, clock, now, v, c) == EvalParts(env, clock, now, n + 1, v, c);
    if (f, v) in env.sat {
      assert EvalParts(env, clock, now, n + 1, v, c) == EvalParts(env, clock, now, n, v, c);
      SameParts(env, clock, now, Every(was), n, v, c);
      ElementMatcherParts(env, clock, was, v, c);
    } else {
      assert EvalParts(env, clock, now, n + 1, v, c) == Outcome(false, c);
    }
  }

  lemma ElementMatcherParts(env: Env, clock: Clock, matchers: seq<Matcher>, v: Node, c: Caches)
    requires env.Valid() && env.tree.Has(v) && matchers != []
    ensures Eval(env, clock, ElementMatcher(matchers), v, c) == EvalParts(env, clock, Every(matchers), |matchers|, v, c)
  {
    if |matchers| == 1 {
      var o := Eval(env, clock, matchers[0], v, c);
      assert EvalParts(env, clock, Every(matchers), 0, v, o.caches) == Outcome(true, o.caches);
      assert EvalParts(env, clock, Every(matchers), 1, v, c) == o;
    }
  }

  /** `s` is recorded as a node on which the search `m` failed for the current candidate. */
  ghost predicate FailedAt(clock: Clock, m: Matcher, s: Node, c: Caches)
    requires m.Combine?
  {
    Marked(clock, m, s, c) && c[(s, DirOf(m.rel))].data == Miss(clock.cachedruns)
  }

  lemma FailureStays(env: Env, clock: Clock, m: Matcher, u: Node, s: Node, c: Caches)
    requires env.Valid() && !env.xml && m.Combine? && !First(m.rel) && Leads(env.tree, DirOf(m.rel), u, s)
    requires Stop(env.tree, m.rel, m.base, s) && !Marked(clock, m, s, c)
    requires !Eval(env, clock, m.inner, s, Mark(clock, m, s, c, Pending)).ok
    ensures FailedAt(clock, m, s, SearchFrom(env, clock, m, u, c).caches)
  {
    var o := Eval(env, clock, m.inner, s, Mark(clock, m, s, c, Pending));
    var now := Mark(clock, m, s, o.caches, Miss(clock.cachedruns));
    assert SearchFrom(env, clock, m, u, c) == SearchFrom(env, clock, m, s, now);
    SearchWritesBefore(env, clock, m, s, now);
  }

  lemma FailureEndsSearch(env: Env, clock: Clock, m: Matcher, u: Node, s: Node, c: Caches)
    requires env.Valid() && !env.xml && m.Combine? && !First(m.rel) && Leads(env.tree, DirOf(m.rel), u, s)
    requires Stop(env.tree, m.rel, m.base, s) && FailedAt(clock, m, s, c)
    ensures SearchFrom(env, clock, m, u, c) == Outcome(false, c)
  {
  }

  lemma OneMore(env: Env, clock: Clock, m: Matcher, elems: seq<Node>, v: Node, c: Caches)
    requires AllIn(env, elems) && env.tree.Has(v)
    ensures var before := EvalEach(env, clock, m, elems, c);
            var o := Eval(env, clock, m, v, before.caches);
            AllIn(env, elems + [v]) && EvalEach(env, clock, m, elems + [v], c) == Tried(before.answers + [o.ok], o.caches)
  {
    assert (elems + [v])[..|elems|] == elems;
  }

  lemma TwoAnswers(env: Env, clock: Clock, m: Matcher, p: Node, q: Node, c: Caches)
    requires env.Valid() && env.tree.Has(p) && env.tree.Has(q)
    ensures var first := Eval(env, clock, m, p, c);
            EvalEach(env, clock, m, [p, q], c).answers == [first.ok, Eval(env, clock, m, q, first.caches).ok]
  {
    OneMore(env, clock, m, [], p, c);
    OneMore(env, clock, m, [p], q, c);
    assert [] + [p] == [p] && [p] + [q] == [p, q];
  }

  // ---- The document div > section > (p, p), and "div p" ----

  const DIV: nat := 0
  const P: nat := 1

  /** Node 0 is the document, then div, section, and the two p. */
  const PAGE := Tree([Document, Element, Element, Element, Element], [None, Some(0), Some(1), Some(2), Some(2)],
                     [[1], [2], [3, 4], [], []], [0, 1, 2, 3, 3], [0, 0, 0, 0, 1])

  const IN_PAGE := Env(PAGE, {(DIV, 1), (P, 3), (P, 4)}, One(0), true, false)

  const DIV_P: seq<Token> := [Simple(DIV), Combinator(Descendant), Simple(P)]

  lemma PageIsValid()
    ensures IN_PAGE.Valid()
  {
    assert forall v: Node :: PAGE.Has(v) ==> PAGE.UpLink(v) && PAGE.DownLinks(v);
  }

  function DivInner(first: nat): Matcher {
    ElementMatcher(CompiledUpTo(DIV_P, 0, first) + [Filter(DIV)])
  }

  function DivSearch(first: nat): Matcher {
    Combine(DivInner(first), Descendant, false, NameOf(DIV_P, 1, first))
  }

  lemma CompiledDivP(first: nat)
    ensures Compiled(DIV_P, first) == ElementMatcher([DivSearch(first)] + [Filter(P)])
  {
    assert CompiledUpTo(DIV_P, 1, first) == CompiledUpTo(DIV_P, 0, first) + [Filter(DIV)];
    assert CompiledUpTo(DIV_P, 2, first) == [DivSearch(first)];
    assert CompiledUpTo(DIV_P, 3, first) == [DivSearch(first)] + [Filter(P)];
  }

  lemma DivHolds(first: nat)
    ensures IN_PAGE.Valid() && Holds(IN_PAGE, DivInner(first), 1)
  {
    PageIsValid();
    var top := CompiledUpTo(DIV_P, 0, first)[0];
    assert Holds(IN_PAGE, top, 1) && Holds(IN_PAGE, Filter(DIV), 1);
    assert DivInner(first) == Every([top, Filter(DIV)]);
  }

  lemma BothSelected(first: nat, v: Node)
    requires v == 3 || v == 4
    ensures IN_PAGE.Valid() && Selects(IN_PAGE, DIV_P, v)
  {
    DivHolds(first);
    var search := DivSearch(first);
    assert Holds(IN_PAGE, search, 2);
    assert Holds(IN_PAGE, search, v);
    AllHoldOne(IN_PAGE, search, v);
    FilterStep(IN_PAGE, [search], P, v);
    ElementMatcherHolds(IN_PAGE, [search] + [Filter(P)], v);
    CompiledDivP(first);
    CompiledMeans(DIV_P, first);
    UseMeans(Compiled(DIV_P, first), DIV_P, IN_PAGE, v);
  }

  /** Both p are selected, and the one tried second is refused. */
  lemma SecondIsMissed(first: nat, clock: Clock)
    ensures IN_PAGE.Valid() && Selects(IN_PAGE, DIV_P, 3) && Selects(IN_PAGE, DIV_P, 4)
    ensures EvalEach(IN_PAGE, clock, Compiled(DIV_P, first), [3, 4], map[]).answers == [true, false]
  {
    BothSelected(first, 3);
    BothSelected(first, 4);
    FirstIsFound(first, clock);
    CompiledDivP(first);
    var m, search := Compiled(DIV_P, first), DivSearch(first);
    var after := Eval(IN_PAGE, clock, m, 3, map[]).caches;
    FilterFirst(IN_PAGE, clock, [search], P, 3, map[]);
    FilterFirst(IN_PAGE, clock, [search], P, 4, after);
    var top := CompiledUpTo(DIV_P, 0, first);
    FilterFirst(IN_PAGE, clock, top, DIV, 2, Mark(clock, search, 2, map[], Pending));
    FailureStays(IN_PAGE, clock, search, 3, 2, map[]);
    FailureEndsSearch(IN_PAGE, clock, search, 4, 2, after);
    TwoAnswers(IN_PAGE, clock, m, 3, 4, map[]);
  }

  lemma FirstIsFound(first: nat, clock: Clock)
    ensures IN_PAGE.Valid() && Eval(IN_PAGE, clock, Compiled(DIV_P, first), 3, map[]).ok
  {
    BothSelected(first, 3);
    var made := CompiledNamed(DIV_P, 3, first);
    var name := NameOf(DIV_P, 3, first);
    ElementMatcherNamed(CompiledUpTo(DIV_P, 3, first), made, name);
    EvalExact(IN_PAGE, made, clock, Compiled(DIV_P, first), 3, map[], name);
    CompiledMeans(DIV_P, first);
    UseMeans(Compiled(DIV_P, first), DIV_P, IN_PAGE, 3);
  }

  // ---- What this means for positional selectors ----

  /** The answers of a compiled matcher, as a set matcher sees them. */
  ghost function AnswersOf(env: Env, clock: Clock, m: Matcher, c: Caches): Positional.Answers {
    (f: nat, asked: seq<Node>, v: Node) =>
      AllIn(env, asked) && env.tree.Has(v) && Eval(env, clock, m, v, EvalEach(env, clock, m, asked, c).caches).ok
  }

  lemma {:induction false} AskedIn(env: Env, at: map<nat, Node>, n: nat)
    requires env.Valid() && forall i :: i in at ==> env.tree.Has(at[i])
    ensures AllIn(env, Positional.Asked(at, n))
  {
    if n > 0 { AskedIn(env, at, n - 1); }
  }

  /** The pass of `condense` over `at` asks the matcher about the elements in order, and gets the answers of `EvalEach`. */
  lemma {:induction false} CondenseAsks(env: Env, clock: Clock, m: Matcher, c: Caches, f: nat, at: map<nat, Node>, i: nat, n: nat)
    requires env.Valid() && (forall j :: j in at ==> env.tree.Has(at[j])) && i < n && i in at
    ensures AllIn(env, Positional.Asked(at, n)) && |Positional.Asked(at, i)| < |Positional.Asked(at, n)|
    ensures Positional.Passes(AnswersOf(env, clock, m, c), at, Some(f), i)
            <==> EvalEach(env, clock, m, Positional.Asked(at, n), c).answers[|Positional.Asked(at, i)|]
    decreases n
  {
    AskedIn(env, at, n);
    AskedIn(env, at, n - 1);
    if n - 1 in at {
      OneMore(env, clock, m, Positional.Asked(at, n - 1), at[n-1], c);
    } else {
      assert Positional.Asked(at, n) == Positional.Asked(at, n - 1);
    }
    if i < n - 1 { CondenseAsks(env, clock, m, c, f, at, i, n - 1); }
  }

  /** In the document above, "div p:last" picks the first p. */
  lemma LastIsFirst(first: nat, clock: Clock)
    ensures var ask := AnswersOf(IN_PAGE, clock, Compiled(DIV_P, first), map[]);
            var sm := Positional.SetMatcher(Some(0), Some(Positional.LastOf), None);
            Positional.Outcome(ask, sm, 2, map[0 := 3, 1 := 4], map[]) == map[0 := 3]
  {
    PageIsValid();
    SecondIsMissed(first, clock);
    var m, at: map<nat, Node> := Compiled(DIV_P, first), map[0 := 3, 1 := 4];
    var ask := AnswersOf(IN_PAGE, clock, m, map[]);
    assert Positional.Asked(at, 0) == [] && Positional.Asked(at, 1) == [3] && Positional.Asked(at, 2) == [3, 4];
    CondenseAsks(IN_PAGE, clock, m, map[], 0, at, 0, 2);
    CondenseAsks(IN_PAGE, clock, m, map[], 0, at, 1, 2);
    OnlyFirstPasses(ask, at);
  }

  lemma OnlyFirstPasses(ask: Positional.Answers, at: map<nat, Node>)
    requires at == map[0 := 3, 1 := 4]
    requires Positional.Passes(ask, at, Some(0), 0) && !Positional.Passes(ask, at, Some(0), 1)
    ensures var sm := Positional.SetMatcher(Some(0), Some(Positional.LastOf), None);
            Positional.Outcome(ask, sm, 2, at, map[]) == map[0 := 3]
  {
    OnlyFirstIndex(ask, at);
    OneOfTwo(ask, at, [0]);
  }

  lemma OneOfTwo(ask: Positional.Answers, at: map<nat, Node>, ix: seq<nat>)
    requires at == map[0 := 3, 1 := 4] && ix == [0] && Positional.Indices(ask, at, Some(0), 2) == ix
    ensures var sm := Positional.SetMatcher(Some(0), Some(Positional.LastOf), None);
            Positional.Outcome(ask, sm, 2, at, map[]) == map[0 := 3]
  {
    var sm := Positional.SetMatcher(Some(0), Some(Positional.LastOf), None);
    LastOfOne(Positional.Packed(at, ix));
    var moved := Positional.Unpacked(ix, {0});
    assert Positional.Chosen(ask, sm, ix, at).Keys == {0};
    assert moved == {0};
    assert map[] + Positional.Restrict(at, moved) == map[0 := 3];
  }

  lemma OnlyFirstIndex(ask: Positional.Answers, at: map<nat, Node>)
    requires at == map[0 := 3, 1 := 4]
    requires Positional.Passes(ask, at, Some(0), 0) && !Positional.Passes(ask, at, Some(0), 1)
    ensures Positional.Indices(ask, at, Some(0), 2) == [0]
  {
    assert Positional.Scan(ask, at, Some(0), 0) == [];
    assert Positional.Scan(ask, at, Some(0), 1) == [0];
  }

  lemma LastOfOne(packed: map<nat, Node>)
    requires packed.Keys == {0}
    ensures Positional.Matched(Some(Positional.LastOf), 1, packed).Keys == {0}
  {
  }
}
