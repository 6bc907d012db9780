/** What calling a matcher does, as a function of the marks on the nodes: combinator searches remember
    results on the nodes they pass, and read them again. */
module Evaluation {
  import opened Dom
  import opened Selectors
  import opened Matchers

  /** `cache[1]` of a node's cache array: unset, `true`, or the value of `cachedruns` when it failed. */
  datatype Data = Pending | Hit | Miss(at: nat)

  /** A node's cache array for one direction; `run` and `name` together are its `dirkey`. */
  datatype Entry = Entry(run: nat, name: nat, data: Data)

  type Caches = map<(Node, Dir), Entry>

  /** The engine's clock: which outermost run and which candidate is being matched. */
  datatype Clock = Clock(dirruns: nat, cachedruns: nat)

  /** An entry of the current run belongs to a search in its direction and tells the truth
      about one node. An entry that failed for the current candidate says more, if its search
      is older than `bound`: that whole search fails from here on. */
  ghost predicate EntryOk(env: Env, made: map<nat, Matcher>, clock: Clock, key: (Node, Dir), e: Entry,
                          bound: nat, exact: bool)
    requires env.Valid()
  {
    && e.run <= clock.dirruns
    && (e.run == clock.dirruns ==>
          && env.tree.Has(key.0) && e.name in made && made[e.name].Combine?
          && DirOf(made[e.name].rel) == key.1 && !First(made[e.name].rel)
          && match e.data
             case Pending => e.name >= bound
             case Hit => Holds(env, made[e.name].inner, key.0)
             case Miss(at) =>
               && at <= clock.cachedruns
               && !Holds(env, made[e.name].inner, key.0)
               && (exact && at == clock.cachedruns && e.name < bound ==> !Holds(env, made[e.name], key.0)))
  }

  ghost predicate Sound(env: Env, made: map<nat, Matcher>, clock: Clock, caches: Caches, bound: nat, exact: bool)
    requires env.Valid()
  {
    forall key :: key in caches ==> EntryOk(env, made, clock, key, caches[key], bound, exact)
  }

  /** Entries of this run that `now` has for searches numbered `bound` or later were there before. */
  ghost predicate NothingNew(clock: Clock, was: Caches, now: Caches, bound: nat) {
    forall key :: key in now && now[key].run == clock.dirruns && now[key].name >= bound ==>
                    key in was && was[key] == now[key]
  }

  /** Matching at `v` writes only on nodes before `v`. */
  ghost predicate WritesBefore(t: Tree, was: Caches, now: Caches, v: Node)
    requires t.Valid() && t.Has(v)
  {
    forall n: Node, dir :: t.Has(n) && !t.Before(n, v) ==>
      ((n, dir) in now <==> (n, dir) in was) && ((n, dir) in now ==> now[(n, dir)] == was[(n, dir)])
  }

  /** The search `m` is under way: it has passed `visited` without success and stands on `cur`. */
  ghost predicate Searching(env: Env, made: map<nat, Matcher>, clock: Clock, m: Matcher,
                            was: Caches, now: Caches, visited: set<Node>, v: Node, cur: Node)
    requires env.Valid() && m.Combine? && env.tree.Has(v) && env.tree.Has(cur)
  {
    && (Holds(env, m, v) <==> Holds(env, m, cur))
    && (cur == v || env.tree.Before(cur, v))
    && Sound(env, made, clock, now, m.doneName, true)
    && NothingNew(clock, was, now, m.doneName + 1)
    && WritesBefore(env.tree, was, now, v)
    && (forall key :: key in now && now[key].run == clock.dirruns && now[key].name == m.doneName ==>
          || (key in was && was[key] == now[key])
          || (key.0 in visited && now[key].data.Miss? && (Holds(env, m, key.0) ==> Holds(env, m, v))))
    && (forall n :: n in visited ==> env.tree.Has(n) && env.tree.Steps(DirOf(m.rel), cur) <= env.tree.Steps(DirOf(m.rel), n))
  }

  // ---- Calling a matcher ----

  /** What a call returns, and the marks on the nodes afterwards. */
  datatype Outcome = Outcome(ok: bool, caches: Caches)

  function Eval(env: Env, clock: Clock, m: Matcher, v: Node, c: Caches): Outcome
    requires env.Valid() && env.tree.Has(v)
    decreases m, 1, 0
  {
    match m
    case Filter(id) => Outcome((id, v) in env.sat, c)
    case IsContext => Outcome(env.context == One(v), c)
    case InContexts => Outcome(env.context.Many? && v in env.context.nodes, c)
    case TopLevel(leading, single, several) =>
      if !leading && (env.xml || env.contextIsDocument) then Outcome(true, c)
      else if env.context.One? then Eval(env, clock, single, v, c)
      else Eval(env, clock, several, v, c)
    case Combine(_, _, _, _) => SearchFrom(env, clock, m, v, c)
    case Every(parts) => EvalParts(env, clock, m, |parts|, v, c)
  }

  /** The last of the first `i` matchers is asked first, and the first failure decides. */
  function EvalParts(env: Env, clock: Clock, m: Matcher, i: nat, v: Node, c: Caches): Outcome
    requires env.Valid() && env.tree.Has(v) && m.Every? && i <= |m.parts|
    decreases m, 0, i
  {
    if i == 0 then Outcome(true, c) else
    var o := Eval(env, clock, m.parts[i-1], v, c);
    if o.ok then EvalParts(env, clock, m, i - 1, v, o.caches) else o
  }

  /** The rest of a search that stands on `cur`. */
  function SearchFrom(env: Env, clock: Clock, m: Matcher, cur: Node, c: Caches): Outcome
    requires env.Valid() && env.tree.Has(cur) && m.Combine?
    decreases m, 0, env.tree.Steps(DirOf(m.rel), cur)
  {
    var dir := DirOf(m.rel);
    match env.tree.Next(dir, cur)
    case None => Outcome(false, c)
    case Some(p) =>
      if !Stop(env.tree, m.rel, m.base, p) then SearchFrom(env, clock, m, p, c)
      else if First(m.rel) then Eval(env, clock, m.inner, p, c)
      else if env.xml then
        var o := Eval(env, clock, m.inner, p, c);
        if o.ok then o else SearchFrom(env, clock, m, p, o.caches)
      else if Marked(clock, m, p, c) then
        match c[(p, dir)].data
        case Hit => Outcome(true, c)
        case Miss(at) => if at == clock.cachedruns then Outcome(false, c) else SearchFrom(env, clock, m, p, c)
        case Pending => SearchFrom(env, clock, m, p, c)
      else
        var o := Eval(env, clock, m.inner, p, Mark(clock, m, p, c, Pending));
        var now := Mark(clock, m, p, o.caches, if o.ok then Hit else Miss(clock.cachedruns));
        if o.ok then Outcome(true, now) else SearchFrom(env, clock, m, p, now)
  }

  /** The cache array of `p` in the direction of `m` has the `dirkey` of `m` in this run. */
  predicate Marked(clock: Clock, m: Matcher, p: Node, c: Caches)
    requires m.Combine?
  {
    (p, DirOf(m.rel)) in c && c[(p, DirOf(m.rel))].run == clock.dirruns && c[(p, DirOf(m.rel))].name == m.doneName
  }

  function Mark(clock: Clock, m: Matcher, p: Node, c: Caches, data: Data): Caches
    requires m.Combine?
  {
    c[(p, DirOf(m.rel)) := Entry(clock.dirruns, m.doneName, data)]
  }

  /** Writing `cache[1]` after the inner call is right: the array written to is still the one on the node. */
  lemma {:induction false} EvalWritesBefore(env: Env, clock: Clock, m: Matcher, v: Node, c: Caches)
    requires env.Valid() && env.tree.Has(v)
    ensures WritesBefore(env.tree, c, Eval(env, clock, m, v, c).caches, v)
    decreases m, 1, 0
  {
    match m
    case Filter(_) =>
    case IsContext =>
    case InContexts =>
    case TopLevel(_, single, several) =>
      EvalWritesBefore(env, clock, single, v, c);
      EvalWritesBefore(env, clock, several, v, c);
    case Combine(_, _, _, _) => SearchWritesBefore(env, clock, m, v, c);
    case Every(parts) => PartsWriteBefore(env, clock, m, |parts|, v, c);
  }

  lemma {:induction false} PartsWriteBefore(env: Env, clock: Clock, m: Matcher, i: nat, v: Node, c: Caches)
    requires env.Valid() && env.tree.Has(v) && m.Every? && i <= |m.parts|
    ensures WritesBefore(env.tree, c, EvalParts(env, clock, m, i, v, c).caches, v)
    decreases m, 0, i
  {
    if i > 0 {
      EvalWritesBefore(env, clock, m.parts[i-1], v, c);
      var o := Eval(env, clock, m.parts[i-1], v, c);
      if o.ok { PartsWriteBefore(env, clock, m, i - 1, v, o.caches); }
    }
  }

  lemma {:induction false} SearchWritesBefore(env: Env, clock: Clock, m: Matcher, cur: Node, c: Caches)
    requires env.Valid() && env.tree.Has(cur) && m.Combine?
    ensures WritesBefore(env.tree, c, SearchFrom(env, clock, m, cur, c).caches, cur)
    decreases m, 0, env.tree.Steps(DirOf(m.rel), cur)
  {
    var next := env.tree.Next(DirOf(m.rel), cur);
    if next.Some? {
      var p := next.value;
      if !Stop(env.tree, m.rel, m.base, p) {
        SearchWritesBefore(env, clock, m, p, c);
      } else if First(m.rel) {
        EvalWritesBefore(env, clock, m.inner, p, c);
      } else if env.xml {
        EvalWritesBefore(env, clock, m.inner, p, c);
        SearchWritesBefore(env, clock, m, p, Eval(env, clock, m.inner, p, c).caches);
      } else if Marked(clock, m, p, c) {
        SearchWritesBefore(env, clock, m, p, c);
      } else {
        var mid := Mark(clock, m, p, c, Pending);
        EvalWritesBefore(env, clock, m.inner, p, mid);
        var o := Eval(env, clock, m.inner, p, mid);
        SearchWritesBefore(env, clock, m, p, Mark(clock, m, p, o.caches, Miss(clock.cachedruns)));
      }
    }
  }

  // ---- One candidate: the answer is right ----

  /** From marks that are exact for the current candidate, a call gives the cache-free meaning. The marks stay
      truthful and, unless the call succeeds, exact; searches made later than those in `m` get no new ones. */
  lemma {:induction false} EvalExact(env: Env, made: map<nat, Matcher>, clock: Clock, m: Matcher, v: Node, c: Caches, bound: nat)
    requires env.Valid() && env.tree.Has(v)
    requires Named(m, made, bound) && Sound(env, made, clock, c, bound, true)
    ensures var o := Eval(env, clock, m, v, c);
            && (o.ok <==> Holds(env, m, v))
            && Sound(env, made, clock, o.caches, bound, !o.ok)
            && NothingNew(clock, c, o.caches, bound)
    decreases m, 1, 0
  {
    match m
    case Filter(_) =>
    case IsContext =>
    case InContexts =>
    case TopLevel(leading, single, several) =>
      if leading || !(env.xml || env.contextIsDocument) {
        if env.context.One? { EvalExact(env, made, clock, single, v, c, bound); }
        else { EvalExact(env, made, clock, several, v, c, bound); }
      }
    case Combine(_, rel, _, _) =>
      if First(rel) || env.xml {
        PlainExact(env, made, clock, m, v, c, bound);
      } else {
        EarlierBound(env, made, clock, c, m.doneName, bound, true);
        SearchExact(env, made, clock, m, c, c, {}, v, v, bound);
      }
    case Every(parts) => PartsExact(env, made, clock, m, |parts|, v, c, bound);
  }

  lemma {:induction false} PartsExact(env: Env, made: map<nat, Matcher>, clock: Clock, m: Matcher, i: nat, v: Node, c: Caches, bound: nat)
    requires env.Valid() && env.tree.Has(v) && m.Every? && i <= |m.parts|
    requires Named(m, made, bound) && Sound(env, made, clock, c, bound, true)
    ensures var o := EvalParts(env, clock, m, i, v, c);
            && (o.ok <==> forall k :: 0 <= k < i ==> Holds(env, m.parts[k], v))
            && Sound(env, made, clock, o.caches, bound, !o.ok)
            && NothingNew(clock, c, o.caches, bound)
    decreases m, 0, i
  {
    if i > 0 {
      EvalExact(env, made, clock, m.parts[i-1], v, c, bound);
      var o := Eval(env, clock, m.parts[i-1], v, c);
      if o.ok {
        if i == 1 {
          assert EvalParts(env, clock, m, 0, v, o.caches) == Outcome(true, o.caches);
        } else {
          assert m.parts[i-1].Filter? && o.caches == c;
          PartsExact(env, made, clock, m, i - 1, v, c, bound);
        }
      }
    } else {
      EarlierExact(env, made, clock, c, bound);
    }
  }

  /** The searches that keep no marks of their own: ">", "+", and all in XML documents. */
  lemma {:induction false} PlainExact(env: Env, made: map<nat, Matcher>, clock: Clock, m: Matcher, cur: Node, c: Caches, bound: nat)
    requires env.Valid() && env.tree.Has(cur) && m.Combine? && (First(m.rel) || env.xml)
    requires Named(m, made, bound) && Sound(env, made, clock, c, bound, true)
    ensures var o := SearchFrom(env, clock, m, cur, c);
            && (o.ok <==> Holds(env, m, cur))
            && Sound(env, made, clock, o.caches, bound, !o.ok)
            && NothingNew(clock, c, o.caches, bound)
    decreases m, 0, env.tree.Steps(DirOf(m.rel), cur)
  {
    var next := env.tree.Next(DirOf(m.rel), cur);
    if next.Some? {
      var p := next.value;
      if !Stop(env.tree, m.rel, m.base, p) {
        PlainExact(env, made, clock, m, p, c, bound);
      } else {
        EarlierBound(env, made, clock, c, m.doneName, bound, true);
        EvalExact(env, made, clock, m.inner, p, c, m.doneName);
        var o := Eval(env, clock, m.inner, p, c);
        Close(env, made, clock, c, o.caches, m.doneName, bound, !o.ok);
        if !First(m.rel) && !o.ok {
          PlainExact(env, made, clock, m, p, o.caches, bound);
        }
      }
    }
  }

  /** The searches that read and leave marks, from anywhere on their way. */
  lemma {:induction false} SearchExact(env: Env, made: map<nat, Matcher>, clock: Clock, m: Matcher, was: Caches, now: Caches,
                                       visited: set<Node>, v: Node, cur: Node, bound: nat)
    requires env.Valid() && env.tree.Has(v) && env.tree.Has(cur) && m.Combine? && !First(m.rel) && !env.xml
    requires Named(m, made, bound) && Sound(env, made, clock, was, bound, true)
    requires Searching(env, made, clock, m, was, now, visited, v, cur)
    ensures var o := SearchFrom(env, clock, m, cur, now);
            && (o.ok <==> Holds(env, m, v))
            && Sound(env, made, clock, o.caches, bound, !o.ok)
            && NothingNew(clock, was, o.caches, bound)
    decreases m, 0, env.tree.Steps(DirOf(m.rel), cur)
  {
    var next := env.tree.Next(DirOf(m.rel), cur);
    if next.None? {
      CloseSearch(env, made, clock, m, was, now, visited, v, cur, bound);
    } else if !Stop(env.tree, m.rel, m.base, next.value) {
      StepOver(env, made, clock, m, was, now, visited, v, cur, next.value);
      SearchExact(env, made, clock, m, was, now, visited, v, next.value, bound);
    } else if Marked(clock, m, next.value, now) {
      var p := next.value;
      var data := now[(p, DirOf(m.rel))].data;
      assert p !in visited;
      if data == Hit || data == Miss(clock.cachedruns) {
        CloseSearch(env, made, clock, m, was, now, visited, v, cur, bound);
      } else {
        StepOver(env, made, clock, m, was, now, visited, v, cur, p);
        SearchExact(env, made, clock, m, was, now, visited, v, p, bound);
      }
    } else {
      var p := next.value;
      var mid := Mark(clock, m, p, now, Pending);
      OpenSlot(env, made, clock, m, was, now, visited, v, cur, p);
      EvalExact(env, made, clock, m.inner, p, mid, m.doneName);
      EvalWritesBefore(env, clock, m.inner, p, mid);
      var o := Eval(env, clock, m.inner, p, mid);
      if o.ok {
        FillSlotHit(env, made, clock, m, was, now, mid, o.caches, visited, v, cur, p, bound);
      } else {
        FillSlotMiss(env, made, clock, m, was, now, mid, o.caches, visited, v, cur, p);
        SearchExact(env, made, clock, m, was, Mark(clock, m, p, o.caches, Miss(clock.cachedruns)), visited + {p}, v, p, bound);
      }
    }
  }

  // ---- Any marks of this run: a call never accepts wrongly ----

  /** A recorded success is one. */
  ghost predicate HitsTrue(env: Env, made: map<nat, Matcher>, clock: Clock, c: Caches)
    requires env.Valid()
  {
    forall key :: key in c && c[key].run == clock.dirruns && c[key].data == Hit ==>
      env.tree.Has(key.0) && c[key].name in made && made[c[key].name].Combine? && Holds(env, made[c[key].name].inner, key.0)
  }

  lemma {:induction false} EvalTruthful(env: Env, made: map<nat, Matcher>, clock: Clock, m: Matcher, v: Node, c: Caches, bound: nat)
    requires env.Valid() && env.tree.Has(v)
    requires Named(m, made, bound) && HitsTrue(env, made, clock, c)
    ensures var o := Eval(env, clock, m, v, c);
            (o.ok ==> Holds(env, m, v)) && HitsTrue(env, made, clock, o.caches)
    decreases m, 1, 0
  {
    match m
    case Filter(_) =>
    case IsContext =>
    case InContexts =>
    case TopLevel(_, single, several) =>
      EvalTruthful(env, made, clock, single, v, c, bound);
      EvalTruthful(env, made, clock, several, v, c, bound);
    case Combine(_, _, _, _) => SearchTruthful(env, made, clock, m, v, c, bound);
    case Every(parts) => PartsTruthful(env, made, clock, m, |parts|, v, c, bound);
  }

  lemma {:induction false} PartsTruthful(env: Env, made: map<nat, Matcher>, clock: Clock, m: Matcher, i: nat, v: Node, c: Caches, bound: nat)
    requires env.Valid() && env.tree.Has(v) && m.Every? && i <= |m.parts|
    requires Named(m, made, bound) && HitsTrue(env, made, clock, c)
    ensures var o := EvalParts(env, clock, m, i, v, c);
            (o.ok ==> forall k :: 0 <= k < i ==> Holds(env, m.parts[k], v)) && HitsTrue(env, made, clock, o.caches)
    decreases m, 0, i
  {
    if i > 0 {
      EvalTruthful(env, made, clock, m.parts[i-1], v, c, bound);
      var o := Eval(env, clock, m.parts[i-1], v, c);
      if o.ok { PartsTruthful(env, made, clock, m, i - 1, v, o.caches, bound); }
    }
  }

  lemma {:induction false} SearchTruthful(env: Env, made: map<nat, Matcher>, clock: Clock, m: Matcher, cur: Node, c: Caches, bound: nat)
    requires env.Valid() && env.tree.Has(cur) && m.Combine?
    requires Named(m, made, bound) && HitsTrue(env, made, clock, c)
    ensures var o := SearchFrom(env, clock, m, cur, c);
            (o.ok ==> Holds(env, m, cur)) && HitsTrue(env, made, clock, o.caches)
    decreases m, 0, env.tree.Steps(DirOf(m.rel), cur)
  {
    var next := env.tree.Next(DirOf(m.rel), cur);
    if next.Some? {
      var p := next.value;
      if !Stop(env.tree, m.rel, m.base, p) || (!First(m.rel) && !env.xml && Marked(clock, m, p, c)) {
        SearchTruthful(env, made, clock, m, p, c, bound);
      } else {
        var mid := if First(m.rel) || env.xml then c else Mark(clock, m, p, c, Pending);
        EvalTruthful(env, made, clock, m.inner, p, mid, m.doneName);
        var o := Eval(env, clock, m.inner, p, mid);
        if env.xml || First(m.rel) {
          if !o.ok { SearchTruthful(env, made, clock, m, p, o.caches, bound); }
        } else {
          var now := Mark(clock, m, p, o.caches, if o.ok then Hit else Miss(clock.cachedruns));
          assert HitsTrue(env, made, clock, now);
          if !o.ok { SearchTruthful(env, made, clock, m, p, now, bound); }
        }
      }
    }
  }

  // ---- Matchers that keep no marks ----

  /** No search that reads or leaves marks is ever begun. */
  ghost predicate Unmarking(env: Env, m: Matcher)
    decreases m
  {
    match m
    case Filter(_) => true
    case IsContext => true
    case InContexts => true
    case TopLevel(leading, single, several) =>
      (!leading && (env.xml || env.contextIsDocument)) || (Unmarking(env, single) && Unmarking(env, several))
    case Combine(inner, rel, _, _) => (env.xml || First(rel)) && Unmarking(env, inner)
    case Every(parts) => forall i :: 0 <= i < |parts| ==> Unmarking(env, parts[i])
  }

  lemma {:induction false} EvalUnmarking(env: Env, clock: Clock, m: Matcher, v: Node, c: Caches)
    requires env.Valid() && env.tree.Has(v) && Unmarking(env, m)
    ensures Eval(env, clock, m, v, c) == Outcome(Holds(env, m, v), c)
    decreases m, 1, 0
  {
    match m
    case Filter(_) =>
    case IsContext =>
    case InContexts =>
    case TopLevel(leading, single, several) =>
      if leading || !(env.xml || env.contextIsDocument) {
        EvalUnmarking(env, clock, single, v, c);
        EvalUnmarking(env, clock, several, v, c);
      }
    case Combine(_, _, _, _) => SearchUnmarking(env, clock, m, v, c);
    case Every(parts) => PartsUnmarking(env, clock, m, |parts|, v, c);
  }

  lemma {:induction false} PartsUnmarking(env: Env, clock: Clock, m: Matcher, i: nat, v: Node, c: Caches)
    requires env.Valid() && env.tree.Has(v) && m.Every? && i <= |m.parts| && Unmarking(env, m)
    ensures EvalParts(env, clock, m, i, v, c) == Outcome(forall k :: 0 <= k < i ==> Holds(env, m.parts[k], v), c)
    decreases m, 0, i
  {
    if i > 0 {
      EvalUnmarking(env, clock, m.parts[i-1], v, c);
      PartsUnmarking(env, clock, m, i - 1, v, c);
    }
  }

  lemma {:induction false} SearchUnmarking(env: Env, clock: Clock, m: Matcher, cur: Node, c: Caches)
    requires env.Valid() && env.tree.Has(cur) && m.Combine? && Unmarking(env, m)
    ensures SearchFrom(env, clock, m, cur, c) == Outcome(Holds(env, m, cur), c)
    decreases m, 0, env.tree.Steps(DirOf(m.rel), cur)
  {
    var next := env.tree.Next(DirOf(m.rel), cur);
    if next.Some? {
      EvalUnmarking(env, clock, m.inner, next.value, c);
      SearchUnmarking(env, clock, m, next.value, c);
    }
  }

  lemma SoundIsAged(env: Env, made: map<nat, Matcher>, clock: Clock, now: Caches, bound: nat)
    requires env.Valid() && Sound(env, made, clock, now, bound, true)
    ensures forall key :: key in now ==> now[key].run <= clock.dirruns
  {
    forall key | key in now ensures now[key].run <= clock.dirruns {
      assert EntryOk(env, made, clock, key, now[key], bound, true);
    }
  }

  /** A new value of `cachedruns` turns every recorded failure into one of an earlier candidate. */
  lemma NextCandidate(env: Env, made: map<nat, Matcher>, clock: Clock, now: Caches, bound: nat, next: nat)
    requires env.Valid() && next > clock.cachedruns && Sound(env, made, clock, now, bound, false)
    ensures Sound(env, made, clock.(cachedruns := next), now, bound, true)
  {
    forall key | key in now ensures EntryOk(env, made, clock.(cachedruns := next), key, now[key], bound, true) {
      assert EntryOk(env, made, clock, key, now[key], bound, false);
    }
  }

  // ---- Several elements tried under one value of `cachedruns` ----

  /** The answers for a list of elements, and the marks left in the end. */
  datatype Tried = Tried(answers: seq<bool>, caches: Caches)

  ghost predicate AllIn(env: Env, elems: seq<Node>) {
    env.Valid() && forall i :: 0 <= i < |elems| ==> env.tree.Has(elems[i])
  }

  function EvalEach(env: Env, clock: Clock, m: Matcher, elems: seq<Node>, c: Caches): (r: Tried)
    requires AllIn(env, elems)
    ensures |r.answers| == |elems|
  {
    if elems == [] then Tried([], c) else
    var n := |elems| - 1;
    var before := EvalEach(env, clock, m, elems[..n], c);
    var o := Eval(env, clock, m, elems[n], before.caches);
    Tried(before.answers + [o.ok], o.caches)
  }

  /** No element is accepted wrongly. */
  lemma {:induction false} EachTruthful(env: Env, made: map<nat, Matcher>, clock: Clock, m: Matcher, elems: seq<Node>, c: Caches,
                                        bound: nat)
    requires AllIn(env, elems) && Named(m, made, bound) && HitsTrue(env, made, clock, c)
    ensures var r := EvalEach(env, clock, m, elems, c);
            && HitsTrue(env, made, clock, r.caches)
            && forall i :: 0 <= i < |elems| && r.answers[i] ==> Holds(env, m, elems[i])
    decreases |elems|
  {
    if elems != [] {
      var n := |elems| - 1;
      EachTruthful(env, made, clock, m, elems[..n], c, bound);
      EvalTruthful(env, made, clock, m, elems[n], EvalEach(env, clock, m, elems[..n], c).caches, bound);
    }
  }

  /** As long as elements are refused, answers are right: only after a success can one be wrong. */
  lemma {:induction false} EachExactUntilHit(env: Env, made: map<nat, Matcher>, clock: Clock, m: Matcher, elems: seq<Node>,
                                             last: Node, c: Caches, bound: nat)
    requires AllIn(env, elems) && env.tree.Has(last)
    requires Named(m, made, bound) && Sound(env, made, clock, c, bound, true)
    requires forall i :: 0 <= i < |elems| ==> !EvalEach(env, clock, m, elems, c).answers[i]
    ensures var o := Eval(env, clock, m, last, EvalEach(env, clock, m, elems, c).caches);
            (o.ok <==> Holds(env, m, last)) && Sound(env, made, clock, o.caches, bound, !o.ok)
    decreases |elems|
  {
    var r := EvalEach(env, clock, m, elems, c);
    if elems != [] {
      var n := |elems| - 1;
      var before := EvalEach(env, clock, m, elems[..n], c);
      assert before.answers == r.answers[..n] && !r.answers[n];
      EachExactUntilHit(env, made, clock, m, elems[..n], elems[n], c, bound);
    }
    EvalExact(env, made, clock, m, last, r.caches, bound);
  }

  /** A matcher that keeps no marks is always right. */
  lemma {:induction false} EachUnmarking(env: Env, clock: Clock, m: Matcher, elems: seq<Node>, c: Caches)
    requires AllIn(env, elems) && Unmarking(env, m)
    ensures var r := EvalEach(env, clock, m, elems, c);
            r.caches == c && forall i :: 0 <= i < |elems| ==> (r.answers[i] <==> Holds(env, m, elems[i]))
    decreases |elems|
  {
    if elems != [] {
      var n := |elems| - 1;
      EachUnmarking(env, clock, m, elems[..n], c);
      EvalUnmarking(env, clock, m, elems[n], c);
    }
  }

  // ---- Proof steps of the searches ----

  /** Marks that are exact are truthful. */
  lemma EarlierExact(env: Env, made: map<nat, Matcher>, clock: Clock, now: Caches, bound: nat)
    requires env.Valid() && Sound(env, made, clock, now, bound, true)
    ensures Sound(env, made, clock, now, bound, false)
  {
    forall key | key in now ensures EntryOk(env, made, clock, key, now[key], bound, false) {
      assert EntryOk(env, made, clock, key, now[key], bound, true);
    }
  }

  lemma EarlierBound(env: Env, made: map<nat, Matcher>, clock: Clock, now: Caches, lo: nat, hi: nat, exact: bool)
    requires env.Valid() && lo <= hi && Sound(env, made, clock, now, hi, exact)
    ensures Sound(env, made, clock, now, lo, exact)
  {
    forall key | key in now ensures EntryOk(env, made, clock, key, now[key], lo, exact) {
      assert EntryOk(env, made, clock, key, now[key], hi, exact);
    }
  }

  /** What is sound for searches before `lo`, and added nothing from `lo` on, is sound up to `hi`. */
  lemma Close(env: Env, made: map<nat, Matcher>, clock: Clock, was: Caches, now: Caches, lo: nat, hi: nat, exact: bool)
    requires env.Valid() && lo <= hi
    requires Sound(env, made, clock, was, hi, true)
    requires Sound(env, made, clock, now, lo, exact) && NothingNew(clock, was, now, lo)
    ensures Sound(env, made, clock, now, hi, exact)
  {
    forall key | key in now ensures EntryOk(env, made, clock, key, now[key], hi, exact) {
      assert EntryOk(env, made, clock, key, now[key], lo, exact);
      if now[key].run == clock.dirruns && now[key].name >= lo {
        assert EntryOk(env, made, clock, key, was[key], hi, true);
      }
    }
  }

  /** The search moves from `from` to `cur` when `cur` is no stop or is known to fail. */
  lemma StepOver(env: Env, made: map<nat, Matcher>, clock: Clock, m: Matcher, was: Caches, now: Caches,
                 visited: set<Node>, v: Node, from: Node, cur: Node)
    requires env.Valid() && m.Combine? && !First(m.rel) && env.tree.Has(v) && env.tree.Has(from)
    requires env.tree.Next(DirOf(m.rel), from) == Some(cur)
    requires Searching(env, made, clock, m, was, now, visited, v, from)
    requires Stop(env.tree, m.rel, m.base, cur) ==> !Holds(env, m.inner, cur)
    ensures Searching(env, made, clock, m, was, now, visited, v, cur)
  {
  }

  /** The search is over: by now its own entries are exact unless it succeeds. */
  lemma CloseSearch(env: Env, made: map<nat, Matcher>, clock: Clock, m: Matcher, was: Caches, now: Caches,
                    visited: set<Node>, v: Node, cur: Node, bound: nat)
    requires env.Valid() && m.Combine? && env.tree.Has(v) && env.tree.Has(cur)
    requires Named(m, made, bound) && Sound(env, made, clock, was, bound, true)
    requires Searching(env, made, clock, m, was, now, visited, v, cur)
    ensures Sound(env, made, clock, now, bound, !Holds(env, m, v))
    ensures NothingNew(clock, was, now, bound)
  {
    forall key | key in now ensures EntryOk(env, made, clock, key, now[key], bound, !Holds(env, m, v)) {
      assert EntryOk(env, made, clock, key, now[key], m.doneName, true);
      if key in was && was[key] == now[key] {
        assert EntryOk(env, made, clock, key, was[key], bound, true);
      }
    }
  }

  lemma OpenSlot(env: Env, made: map<nat, Matcher>, clock: Clock, m: Matcher, was: Caches, before: Caches,
                 visited: set<Node>, v: Node, from: Node, cur: Node)
    requires env.Valid() && m.Combine? && !First(m.rel) && env.tree.Has(v) && env.tree.Has(from)
    requires m.doneName in made && made[m.doneName] == m
    requires env.tree.Next(DirOf(m.rel), from) == Some(cur)
    requires Searching(env, made, clock, m, was, before, visited, v, from)
    ensures Sound(env, made, clock, before[(cur, DirOf(m.rel)) := Entry(clock.dirruns, m.doneName, Pending)],
                  m.doneName, true)
  {
  }

  lemma FillSlotMiss(env: Env, made: map<nat, Matcher>, clock: Clock, m: Matcher, was: Caches, before: Caches,
                     mid: Caches, late: Caches, visited: set<Node>, v: Node, from: Node, cur: Node)
    requires env.Valid() && m.Combine? && !First(m.rel) && env.tree.Has(v) && env.tree.Has(from)
    requires m.doneName in made && made[m.doneName] == m
    requires env.tree.Next(DirOf(m.rel), from) == Some(cur)
    requires Searching(env, made, clock, m, was, before, visited, v, from)
    requires mid == before[(cur, DirOf(m.rel)) := Entry(clock.dirruns, m.doneName, Pending)]
    requires Sound(env, made, clock, late, m.doneName, true)
    requires NothingNew(clock, mid, late, m.doneName)
    requires WritesBefore(env.tree, mid, late, cur)
    requires !Holds(env, m.inner, cur)
    ensures Searching(env, made, clock, m, was,
                      late[(cur, DirOf(m.rel)) := Entry(clock.dirruns, m.doneName, Miss(clock.cachedruns))],
                      visited + {cur}, v, cur)
  {
  }

  lemma FillSlotHit(env: Env, made: map<nat, Matcher>, clock: Clock, m: Matcher, was: Caches, before: Caches,
                    mid: Caches, late: Caches, visited: set<Node>, v: Node, from: Node, cur: Node, bound: nat)
    requires env.Valid() && m.Combine? && !First(m.rel) && env.tree.Has(v) && env.tree.Has(from)
    requires Named(m, made, bound) && Sound(env, made, clock, was, bound, true)
    requires env.tree.Next(DirOf(m.rel), from) == Some(cur)
    requires Searching(env, made, clock, m, was, before, visited, v, from)
    requires mid == before[(cur, DirOf(m.rel)) := Entry(clock.dirruns, m.doneName, Pending)]
    requires Sound(env, made, clock, late, m.doneName, false)
    requires NothingNew(clock, mid, late, m.doneName)
    requires WritesBefore(env.tree, mid, late, cur)
    requires Stop(env.tree, m.rel, m.base, cur) && Holds(env, m.inner, cur)
    ensures Holds(env, m, v)
    ensures var now := late[(cur, DirOf(m.rel)) := Entry(clock.dirruns, m.doneName, Hit)];
            && Sound(env, made, clock, now, bound, false)
            && NothingNew(clock, was, now, bound)
            && WritesBefore(env.tree, was, now, v)
  {
  }
}
