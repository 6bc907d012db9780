/** The matching engine: the searches with the marks they leave on the nodes, the compiler that creates
    them, the candidate loop that drives them, and the cache of compiled selectors. */
module Search {
  import opened Dom
  import opened Selectors
  import opened Matchers
  import opened Evaluation
  import opened Compilation
  import opened BoundedCache

  class Engine {
    var dirruns: nat
    var cachedruns: nat
    /** the counter `done` that names combinator closures */
    var done: nat
    /** `elem[ expando ][ dir ]` for all nodes and directions */
    var dirCache: Caches
    /** every combinator closure made so far, by name */
    ghost var made: map<nat, Matcher>

    constructor ()
      ensures dirruns == 0 && done == 0 && dirCache == map[] && made == map[]
    {
      dirruns, cachedruns, done, dirCache, made := 0, 0, 0, map[], map[];
    }

    ghost function Now(): Clock
      reads this
    {
      Clock(dirruns, cachedruns)
    }

    /** Calls a matcher. */
    method Eval(env: Env, m: Matcher, v: Node) returns (r: bool)
      requires env.Valid() && env.tree.Has(v)
      modifies this`dirCache
      ensures Outcome(r, dirCache) == Evaluation.Eval(env, Now(), m, v, old(dirCache))
      decreases m, 1
    {
      match m {
        case Filter(id) => r := (id, v) in env.sat;
        case IsContext => r := env.context == One(v);
        case InContexts => r := env.context.Many? && v in env.context.nodes;
        case TopLevel(leading, single, several) =>
          if !leading && (env.xml || env.contextIsDocument) {
            r := true;
          } else if env.context.One? {
            r := Eval(env, single, v);
          } else {
            r := Eval(env, several, v);
          }
        case Combine(_, rel, _, _) =>
          if First(rel) {
            r := Nearest(env, m, v);
          } else if env.xml {
            r := SearchPlain(env, m, v);
          } else {
            r := SearchCached(env, m, v);
          }
        case Every(parts) =>
          var i := |parts|;
          while i > 0
            invariant 0 <= i <= |parts|
            invariant EvalParts(env, Now(), m, i, v, dirCache) == EvalParts(env, Now(), m, |parts|, v, old(dirCache))
          {
            i := i - 1;
            var ok := Eval(env, parts[i], v);
            if !ok { return false; }
          }
          r := true;
      }
    }

    /** `combinator.first`: check against the closest ancestor or preceding element. */
    method Nearest(env: Env, m: Matcher, v: Node) returns (r: bool)
      requires env.Valid() && env.tree.Has(v) && m.Combine? && First(m.rel)
      modifies this`dirCache
      ensures Outcome(r, dirCache) == SearchFrom(env, Now(), m, v, old(dirCache))
      decreases m, 0
    {
      var cur, next := v, env.tree.Next(DirOf(m.rel), v);
      while next.Some?
        invariant env.tree.Has(cur) && next == env.tree.Next(DirOf(m.rel), cur)
        invariant dirCache == old(dirCache)
        invariant SearchFrom(env, Now(), m, cur, dirCache) == SearchFrom(env, Now(), m, v, old(dirCache))
        decreases env.tree.Steps(DirOf(m.rel), cur)
      {
        cur := next.value;
        if Stop(env.tree, m.rel, m.base, cur) {
          r := Eval(env, m.inner, cur);
          return;
        }
        next := env.tree.Next(DirOf(m.rel), cur);
      }
      r := false;
    }

    /** The loop for XML documents, which keeps no cache. */
    method SearchPlain(env: Env, m: Matcher, v: Node) returns (r: bool)
      requires env.Valid() && env.tree.Has(v) && m.Combine? && !First(m.rel) && env.xml
      modifies this`dirCache
      ensures Outcome(r, dirCache) == SearchFrom(env, Now(), m, v, old(dirCache))
      decreases m, 0
    {
      var cur, next := v, env.tree.Next(DirOf(m.rel), v);
      while next.Some?
        invariant env.tree.Has(cur) && next == env.tree.Next(DirOf(m.rel), cur)
        invariant SearchFrom(env, Now(), m, cur, dirCache) == SearchFrom(env, Now(), m, v, old(dirCache))
        decreases env.tree.Steps(DirOf(m.rel), cur)
      {
        cur := next.value;
        if Stop(env.tree, m.rel, m.base, cur) {
          var ok := Eval(env, m.inner, cur);
          if ok { return true; }
        }
        next := env.tree.Next(DirOf(m.rel), cur);
      }
      r := false;
    }

    /** The loop for HTML documents, which reads and writes the nodes' caches. */
    method SearchCached(env: Env, m: Matcher, v: Node) returns (r: bool)
      requires env.Valid() && env.tree.Has(v) && m.Combine? && !First(m.rel) && !env.xml
      modifies this`dirCache
      ensures Outcome(r, dirCache) == SearchFrom(env, Now(), m, v, old(dirCache))
      decreases m, 0
    {
      var dir := DirOf(m.rel);
      var cur, next := v, env.tree.Next(dir, v);
      while next.Some?
        invariant env.tree.Has(cur) && next == env.tree.Next(dir, cur)
        invariant SearchFrom(env, Now(), m, cur, dirCache) == SearchFrom(env, Now(), m, v, old(dirCache))
        decreases env.tree.Steps(dir, cur)
      {
        cur := next.value;
        if Stop(env.tree, m.rel, m.base, cur) {
          if (cur, dir) in dirCache && dirCache[(cur, dir)].run == dirruns && dirCache[(cur, dir)].name == m.doneName {
            var data := dirCache[(cur, dir)].data;
            if data == Hit || data == Miss(cachedruns) {
              r := data == Hit;
              return;
            }
          } else {
            dirCache := dirCache[(cur, dir) := Entry(dirruns, m.doneName, Pending)];
            EvalWritesBefore(env, Now(), m.inner, cur, dirCache);
            var ok := Eval(env, m.inner, cur);
            // The array written next is still the one put there before the call.
            assert dirCache[(cur, dir)] == Entry(dirruns, m.doneName, Pending);
            dirCache := dirCache[(cur, dir) := Entry(dirruns, m.doneName, if ok then Hit else Miss(cachedruns))];
            if ok {
              return true;
            }
          }
        }
        next := env.tree.Next(dir, cur);
      }
      r := false;
    }

    /** What `condense` and the candidate loop without `outermost` do: elements are tried one after the other, and
        `cachedruns` stays. Nothing is accepted wrongly, but see SharedRun for what may be missed. */
    method TryEach(env: Env, m: Matcher, elems: seq<Node>) returns (answers: seq<bool>)
      requires AllIn(env, elems)
      modifies this`dirCache
      ensures Tried(answers, dirCache) == EvalEach(env, Now(), m, elems, old(dirCache))
      ensures Named(m, made, done) && HitsTrue(env, made, Now(), old(dirCache)) ==>
                forall i :: 0 <= i < |elems| && answers[i] ==> Holds(env, m, elems[i])
      ensures Unmarking(env, m) ==> forall i :: 0 <= i < |elems| ==> (answers[i] <==> Holds(env, m, elems[i]))
    {
      answers := [];
      var i := 0;
      while i < |elems|
        invariant 0 <= i <= |elems|
        invariant Tried(answers, dirCache) == EvalEach(env, Now(), m, elems[..i], old(dirCache))
      {
        assert elems[..i+1][..i] == elems[..i];
        var ok := Eval(env, m, elems[i]);
        answers := answers + [ok];
        i := i + 1;
      }
      assert elems[..i] == elems;
      if Named(m, made, done) && HitsTrue(env, made, Now(), old(dirCache)) {
        EachTruthful(env, made, Now(), m, elems, old(dirCache), done);
      }
      if Unmarking(env, m) {
        EachUnmarking(env, Now(), m, elems, old(dirCache));
      }
    }

    ghost predicate NamesUsed()
      reads this
    {
      forall name :: name in made ==> name < done
    }

    /** Only earlier runs, or the current one, have left marks on the nodes. */
    ghost predicate Aged()
      reads this
    {
      forall key :: key in dirCache ==> dirCache[key].run <= dirruns
    }

    method AddCombinator(inner: Matcher, rel: Relation, base: bool) returns (m: Matcher)
      requires NamesUsed() && Named(inner, made, done)
      modifies this`done, this`made
      ensures NamesUsed() && Named(m, made, done)
      ensures m == Combine(inner, rel, base, old(done)) && done == old(done) + 1
      ensures made == old(made)[old(done) := m]
    {
      m := Combine(inner, rel, base, done);
      NamedGrows(inner, made, done, made[done := m], done);
      made := made[done := m];
      done := done + 1;
    }

    /** Compiles a group without positional filters. */
    method MatcherFromTokens(tokens: seq<Token>) returns (m: Matcher)
      requires tokens != [] && NamesUsed()
      modifies this`done, this`made
      ensures NamesUsed() && Named(m, made, done)
      ensures old(done) <= done && Extends(old(made), made)
      ensures m == Compiled(tokens, old(done)) && Means(m, tokens)
    {
      var leading := tokens[0].Combinator?;
      var implicit := if leading then tokens[0].rel else Descendant;
      var i := if leading then 1 else 0;
      var matchContext := AddCombinator(IsContext, implicit, true);
      var matchAnyContext := AddCombinator(InContexts, implicit, true);
      NamedGrows(matchContext, old(made)[old(done) := matchContext], old(done) + 1, made, done);
      var matchers := [TopLevel(leading, matchContext, matchAnyContext)];
      while i < |tokens|
        invariant Start(tokens) <= i <= |tokens|
        invariant NamesUsed() && Extends(old(made), made)
        invariant matchers != [] && ListNamed(matchers, made, done)
        invariant matchers == CompiledUpTo(tokens, i, old(done)) && done == NameOf(tokens, i, old(done))
      {
        match tokens[i] {
          case Combinator(rel) =>
            ElementMatcherNamed(matchers, made, done);
            var search := AddCombinator(ElementMatcher(matchers), rel, false);
            matchers := [search];
          case Simple(f) =>
            matchers := matchers + [Filter(f)];
        }
        i := i + 1;
      }
      m := ElementMatcher(matchers);
      ElementMatcherNamed(matchers, made, done);
      CompiledMeans(tokens, old(done));
    }

    /** `compile`: the groups are compiled last to first. */
    method Compile(groups: seq<seq<Token>>) returns (sm: SuperMatcher)
      requires NamesUsed() && forall g :: 0 <= g < |groups| ==> groups[g] != []
      modifies this`done, this`made
      ensures NamesUsed() && fresh(sm) && sm.engine == this && sm.groups == groups && sm.Valid()
      ensures old(done) <= done && Extends(old(made), made)
    {
      var matchers := [];
      var i := |groups|;
      while i > 0
        invariant 0 <= i <= |groups| && |matchers| == |groups| - i
        invariant NamesUsed() && old(done) <= done && Extends(old(made), made)
        invariant AllNamed(matchers, made, done) && AllMean(matchers, groups[i..])
      {
        i := i - 1;
        ghost var earlier, before := made, done;
        var m := MatcherFromTokens(groups[i]);
        AllNamedGrow(matchers, earlier, before, made, done);
        AllMeanStep(matchers, m, groups, i);
        matchers := matchers + [m];
      }
      assert groups[0..] == groups;
      sm := new SuperMatcher(this, matchers, groups);
    }
  }

  /** What `matcherFromGroupMatchers` returns when no group is positional. */
  class SuperMatcher {
    const engine: Engine
    const elementMatchers: seq<Matcher>
    ghost const groups: seq<seq<Token>>
    var matcherCachedRuns: nat

    ghost predicate Valid()
      reads engine
    {
      AllNamed(elementMatchers, engine.made, engine.done) && AllMean(elementMatchers, groups)
    }

    constructor (engine: Engine, elementMatchers: seq<Matcher>, ghost groups: seq<seq<Token>>)
      ensures this.engine == engine && this.elementMatchers == elementMatchers && this.groups == groups
    {
      this.engine, this.elementMatchers, this.groups := engine, elementMatchers, groups;
      matcherCachedRuns := 0;
    }

    /** Tries the matchers in turn until one accepts `elem`. */
    method MatchOne(env: Env, elem: Node) returns (matched: bool)
      requires Valid() && env.Valid() && env.tree.Has(elem)
      requires Sound(env, engine.made, engine.Now(), engine.dirCache, engine.done, true)
      modifies engine`dirCache
      ensures matched <==> SelectsAny(env, groups, elem)
      ensures Sound(env, engine.made, engine.Now(), engine.dirCache, engine.done, !matched)
    {
      matched := false;
      var j := 0;
      while j < |elementMatchers|
        invariant 0 <= j <= |elementMatchers|
        invariant Sound(env, engine.made, engine.Now(), engine.dirCache, engine.done, true)
        invariant forall g :: |groups| - j <= g < |groups| ==> !Selects(env, groups[g], elem)
      {
        UseMeans(elementMatchers[j], GroupOf(groups, j), env, elem);
        EvalExact(env, engine.made, engine.Now(), elementMatchers[j], elem, engine.dirCache, engine.done);
        matched := engine.Eval(env, elementMatchers[j], elem);
        if matched {
          return;
        }
        j := j + 1;
      }
    }

    /** Between two candidates of a run. */
    ghost predicate Running(env: Env)
      requires env.Valid()
      reads this, engine
    {
      && Valid() && engine.cachedruns == matcherCachedRuns
      && Sound(env, engine.made, engine.Now(), engine.dirCache, engine.done, true)
    }

    method MatchCandidate(env: Env, elem: Node) returns (matched: bool)
      requires env.Valid() && env.tree.Has(elem) && Running(env)
      modifies this`matcherCachedRuns, engine`cachedruns, engine`dirCache
      ensures Running(env)
      ensures matched <==> SelectsAny(env, groups, elem)
    {
      matched := MatchOne(env, elem);
      NextCandidate(env, engine.made, engine.Now(), engine.dirCache, engine.done, matcherCachedRuns + 1);
      matcherCachedRuns := matcherCachedRuns + 1;
      engine.cachedruns := matcherCachedRuns;
    }

    /** An outermost run over the candidates `elems`. */
    method Match(env: Env, elems: seq<Node>, results: seq<Node>) returns (found: seq<Node>)
      requires Valid() && engine.Aged()
      requires env.Valid() && forall i :: 0 <= i < |elems| ==> env.tree.Has(elems[i])
      modifies this`matcherCachedRuns, engine`dirruns, engine`cachedruns, engine`dirCache
      ensures Valid() && engine.Aged()
      ensures found == results + Selected(env, groups, elems)
    {
      engine.dirruns := engine.dirruns + 1;
      engine.cachedruns := matcherCachedRuns;
      found := results;
      var i := 0;
      while i < |elems|
        invariant 0 <= i <= |elems|
        invariant Running(env)
        invariant found == results + Selected(env, groups, elems[..i])
      {
        var matched := MatchCandidate(env, elems[i]);
        if matched {
          found := found + [elems[i]];
        }
        StepSelected(env, groups, elems, i);
        i := i + 1;
      }
      assert elems[..i] == elems;
      SoundIsAged(env, engine.made, engine.Now(), engine.dirCache, engine.done);
    }
  }

  /** `compile` with its cache, and runs of what it returns. A selector is known by its groups. */
  class Finder {
    const engine: Engine
    const compilerCache: Cache<seq<seq<Token>>, SuperMatcher>
    /** every compiled selector, cached or evicted */
    ghost var compiled: set<SuperMatcher>

    ghost predicate EntryOk(key: seq<seq<Token>>)
      requires key in compilerCache.stored
      reads this, engine, compilerCache
    {
      compilerCache.stored[key] in compiled && compilerCache.stored[key].groups == key
    }

    ghost predicate Valid()
      reads this, engine, compilerCache
    {
      && engine.NamesUsed() && engine.Aged() && compilerCache.Valid()
      && (forall sm :: sm in compiled ==> sm.engine == engine && sm.Valid())
      && (forall key :: key in compilerCache.stored ==> EntryOk(key))
    }

    constructor (cacheLength: nat)
      ensures Valid() && fresh(engine) && fresh(compilerCache) && compiled == {}
    {
      engine := new Engine();
      compilerCache := new Cache(cacheLength);
      compiled := {};
    }

    /** A selector compiled before, in whatever run, is as good as a new one. */
    method Compile(groups: seq<seq<Token>>) returns (sm: SuperMatcher)
      requires Valid() && forall g :: 0 <= g < |groups| ==> groups[g] != []
      modifies this`compiled, engine`done, engine`made, compilerCache
      ensures Valid() && sm in compiled && sm.groups == groups
      ensures old(compiled) <= compiled && fresh(compiled - old(compiled))
    {
      if groups in compilerCache.stored {
        assert EntryOk(groups);
        return compilerCache.stored[groups];
      }
      ghost var made, done, was := engine.made, engine.done, compilerCache.stored;
      sm := engine.Compile(groups);
      StillCompiled(made, done);
      compilerCache.Store(groups, sm);
      compiled := compiled + {sm};
      forall key | key in compilerCache.stored ensures EntryOk(key) {
        if key != groups { assert old(EntryOk(key)) && was[key] == compilerCache.stored[key]; }
      }
    }

    /** What was compiled earlier stays valid when more is compiled. */
    lemma StillCompiled(made: map<nat, Matcher>, done: nat)
      requires done <= engine.done && Extends(made, engine.made)
      requires forall sm :: sm in compiled ==> sm.engine == engine && AllNamed(sm.elementMatchers, made, done) && AllMean(sm.elementMatchers, sm.groups)
      ensures forall sm :: sm in compiled ==> sm.Valid()
    {
      forall sm | sm in compiled ensures sm.Valid() {
        AllNamedGrow(sm.elementMatchers, made, done, engine.made, engine.done);
      }
    }

    /** Compiles a selector, or finds it compiled, and runs it over the candidates. */
    method Find(env: Env, groups: seq<seq<Token>>, elems: seq<Node>, results: seq<Node>) returns (found: seq<Node>)
      requires Valid() && forall g :: 0 <= g < |groups| ==> groups[g] != []
      requires env.Valid() && forall i :: 0 <= i < |elems| ==> env.tree.Has(elems[i])
      modifies this, engine, compilerCache, compiled
      ensures Valid() && found == results + Selected(env, groups, elems)
      ensures old(compiled) <= compiled && fresh(compiled - old(compiled))
    {
      var sm := Compile(groups);
      found := sm.Match(env, elems, results);
    }

    /** Any sequence of queries, with any selectors in any order, each in its own document. */
    method FindEach(queries: seq<Query>) returns (found: seq<seq<Node>>)
      requires Valid() && forall q :: 0 <= q < |queries| ==> queries[q].Ok()
      modifies this, engine, compilerCache, compiled
      ensures Valid() && |found| == |queries|
      ensures forall q :: 0 <= q < |queries| ==> queries[q].Ok() && found[q] == queries[q].Answer()
    {
      found := [];
      var i := 0;
      while i < |queries|
        invariant 0 <= i == |found| <= |queries| && Valid()
        invariant old(compiled) <= compiled && fresh(compiled - old(compiled))
        invariant forall q :: 0 <= q < i ==> queries[q].Ok() && found[q] == queries[q].Answer()
      {
        var q := queries[i];
        assert queries[i].Ok();
        var one := Find(q.env, q.groups, q.elems, []);
        assert [] + q.Answer() == q.Answer();
        found := found + [one];
        i := i + 1;
      }
    }
  }

  datatype Query = Query(env: Env, groups: seq<seq<Token>>, elems: seq<Node>)
  {
    ghost predicate Ok() {
      && (forall g :: 0 <= g < |groups| ==> groups[g] != [])
      && env.Valid() && forall i :: 0 <= i < |elems| ==> env.tree.Has(elems[i])
    }

    ghost function Answer(): seq<Node>
      requires Ok()
    {
      Selected(env, groups, elems)
    }
  }

  // ---- What the compiler and the candidate loop are proved against ----

  /** Closures made earlier keep their names. */
  ghost predicate Extends(made: map<nat, Matcher>, made': map<nat, Matcher>) {
    forall name :: name in made ==> name in made' && made'[name] == made[name]
  }

  ghost predicate AllNamed(matchers: seq<Matcher>, made: map<nat, Matcher>, done: nat) {
    forall j :: 0 <= j < |matchers| ==> Named(matchers[j], made, done)
  }

  /** The group of matcher j: the j-th from the end. */
  function GroupOf(groups: seq<seq<Token>>, j: nat): seq<Token>
    requires j < |groups|
  {
    groups[|groups| - 1 - j]
  }

  ghost predicate AllMean(matchers: seq<Matcher>, groups: seq<seq<Token>>) {
    |matchers| == |groups| && forall j :: 0 <= j < |matchers| ==> Means(matchers[j], GroupOf(groups, j))
  }

  lemma AllMeanStep(matchers: seq<Matcher>, m: Matcher, groups: seq<seq<Token>>, i: nat)
    requires i < |groups| && AllMean(matchers, groups[i+1..]) && Means(m, groups[i])
    ensures AllMean(matchers + [m], groups[i..])
  {
    assert |groups[i..]| == |matchers| + 1;
    assert GroupOf(groups[i..], |matchers|) == groups[i];
    assert forall j: nat :: j < |matchers| ==> GroupOf(groups[i..], j) == GroupOf(groups[i+1..], j);
  }

  lemma AllNamedGrow(matchers: seq<Matcher>, made: map<nat, Matcher>, done: nat, made': map<nat, Matcher>, done': nat)
    requires AllNamed(matchers, made, done) && done <= done'
    requires Extends(made, made')
    ensures AllNamed(matchers, made', done')
  {
    forall j | 0 <= j < |matchers| ensures Named(matchers[j], made', done') {
      NamedGrows(matchers[j], made, done, made', done');
    }
  }

  ghost predicate SelectsAny(env: Env, groups: seq<seq<Token>>, v: Node)
    requires env.Valid()
  {
    exists g :: 0 <= g < |groups| && Selects(env, groups[g], v)
  }

  /** The candidates some group selects, in candidate order. */
  ghost function Selected(env: Env, groups: seq<seq<Token>>, elems: seq<Node>): seq<Node>
    requires env.Valid()
  {
    if elems == [] then [] else
    var last := elems[|elems| - 1];
    Selected(env, groups, elems[..|elems| - 1]) + if SelectsAny(env, groups, last) then [last] else []
  }

  /** A candidate is in the outcome exactly when some group selects it. */
  lemma {:induction false} SelectedMeans(env: Env, groups: seq<seq<Token>>, elems: seq<Node>, v: Node)
    requires env.Valid()
    ensures v in Selected(env, groups, elems) <==> v in elems && exists g :: 0 <= g < |groups| && Selects(env, groups[g], v)
    decreases |elems|
  {
    if elems != [] {
      var front, last := elems[..|elems| - 1], elems[|elems| - 1];
      SelectedMeans(env, groups, front, v);
      assert v in elems <==> v in front || v == last;
    }
  }

  /** The outcome keeps the order of the candidates, repeats included. */
  lemma {:induction false} SelectedInOrder(env: Env, groups: seq<seq<Token>>, a: seq<Node>, b: seq<Node>)
    requires env.Valid()
    ensures Selected(env, groups, a + b) == Selected(env, groups, a) + Selected(env, groups, b)
    decreases |b|
  {
    if b == [] {
      assert a + b == a;
    } else {
      SelectedInOrder(env, groups, a, b[..|b| - 1]);
      assert (a + b)[..|a + b| - 1] == a + b[..|b| - 1];
    }
  }

  lemma StepSelected(env: Env, groups: seq<seq<Token>>, elems: seq<Node>, i: nat)
    requires env.Valid() && i < |elems|
    ensures Selected(env, groups, elems[..i+1])
            == Selected(env, groups, elems[..i]) + if SelectsAny(env, groups, elems[i]) then [elems[i]] else []
  {
    assert elems[..i+1][..i] == elems[..i];
  }
}
