/** When several elements may be tried under one value of `cachedruns`: exactly for which selector groups
    every answer is right whatever the document. */
module Robustness {
  import opened Dom
  import opened Selectors
  import opened Matchers
  import opened Evaluation
  import opened Compilation
  import opened Staircase
  import opened SharedRun

  // ---- Exactly when all answers are right ----

  /** No combinator directly after another, as in the grammar of selectors. */
  predicate Alternating(tokens: seq<Token>) {
    forall i :: 0 < i < |tokens| && tokens[i].Combinator? ==> tokens[i-1].Simple?
  }

  /** The search for the context is begun at all, and keeps marks. */
  predicate RootMarks(tokens: seq<Token>, doc: bool) {
    (Leading(tokens) || !doc) && !First(RootRelation(tokens))
  }

  /** Nothing can go wrong: no search keeps marks, or the group asks for a sibling of the document and selects nothing. */
  predicate Robust(tokens: seq<Token>, xml: bool, doc: bool) {
    || xml
    || (!RootMarks(tokens, doc) && forall i :: Start(tokens) <= i < |tokens| && tokens[i].Combinator? ==> First(tokens[i].rel))
    || (doc && DirOf(RootRelation(tokens)) == PreviousSibling)
  }

  /** Elements tried one after the other in a run that nothing has left marks in yet. */
  datatype Trial = Trial(env: Env, first: nat, clock: Clock, caches: Caches, elems: seq<Node>)
  {
    /** If the context is the document, it is a document node at the top of its tree. */
    ghost predicate Ok() {
      && AllIn(env, elems)
      && (forall key :: key in caches ==> caches[key].run < clock.dirruns)
      && (env.contextIsDocument ==>
            && env.context.One? && env.tree.Has(env.context.node)
            && env.tree.kind[env.context.node] == Document && env.tree.parent[env.context.node] == None)
    }

    ghost predicate Right(tokens: seq<Token>)
      requires Ok() && tokens != []
    {
      forall i :: 0 <= i < |elems| ==>
        (EvalEach(env, clock, Compiled(tokens, first), elems, caches).answers[i] <==> Selects(env, tokens, elems[i]))
    }
  }

  ghost predicate AlwaysRight(tokens: seq<Token>, xml: bool, doc: bool)
    requires tokens != []
  {
    forall r: Trial {:trigger r.Ok()} :: r.Ok() && r.env.xml == xml && r.env.contextIsDocument == doc ==> r.Right(tokens)
  }

  /** In every tree, with every filter set, every context and every list of elements all answers are right, if and only
      if the group is robust: XML, or no " " and "~" searches, or a sibling of the document. */
  lemma AlwaysRightIff(tokens: seq<Token>, xml: bool, doc: bool)
    requires tokens != [] && Alternating(tokens)
    ensures AlwaysRight(tokens, xml, doc) <==> Robust(tokens, xml, doc)
  {
    if Robust(tokens, xml, doc) {
      forall r: Trial | r.Ok() && r.env.xml == xml && r.env.contextIsDocument == doc ensures r.Right(tokens) {
        RobustIsRight(tokens, r);
      }
    } else {
      var k := LastMarking(tokens, doc);
      var e := WitnessEnv(tokens, k, doc);
      WitnessIs(tokens, k, doc);
      WitnessIsWrong(e, tokens, k, doc);
      assert TrialOf(e, tokens, k, doc).Ok();
    }
  }

  // ---- Robust groups ----

  lemma {:induction false} CompiledUnmarking(tokens: seq<Token>, i: nat, first: nat, env: Env)
    requires tokens != [] && Start(tokens) <= i <= |tokens|
    requires env.xml || (!RootMarks(tokens, env.contextIsDocument)
               && forall j :: Start(tokens) <= j < |tokens| && tokens[j].Combinator? ==> First(tokens[j].rel))
    ensures ListUnmarking(env, CompiledUpTo(tokens, i, first))
    decreases i
  {
    var now := CompiledUpTo(tokens, i, first);
    if i == Start(tokens) {
      assert Unmarking(env, IsContext) && Unmarking(env, InContexts);
    } else {
      var was := CompiledUpTo(tokens, i - 1, first);
      CompiledUnmarking(tokens, i - 1, first, env);
      match tokens[i-1] {
        case Combinator(_) => assert Unmarking(env, ElementMatcher(was));
        case Simple(f) => assert now == was + [Filter(f)] && Unmarking(env, Filter(f));
      }
    }
  }

  ghost predicate ListUnmarking(env: Env, matchers: seq<Matcher>) {
    forall k :: 0 <= k < |matchers| ==> Unmarking(env, matchers[k])
  }

  /** The document has no siblings. */
  lemma NoSiblingOfDocument(env: Env, tokens: seq<Token>, v: Node)
    requires Trial(env, 0, Clock(0, 0), map[], [v]).Ok() && env.contextIsDocument && tokens != []
    requires DirOf(RootRelation(tokens)) == PreviousSibling
    ensures !Selects(env, tokens, v)
  {
    forall p: Node, u: Node | env.tree.Has(p) && env.tree.Has(u) && Reaches(env.tree, PreviousSibling, p, u)
      ensures env.tree.parent[p].Some?
    {
      ReachedHasParent(env.tree, p, u);
    }
  }

  lemma {:induction false} ReachedHasParent(t: Tree, p: Node, v: Node)
    requires t.Valid() && t.Has(v) && t.Has(p) && Reaches(t, PreviousSibling, p, v)
    ensures t.parent[p].Some?
    decreases t.pos[v]
  {
    var u := t.Next(PreviousSibling, v).value;
    assert t.UpLink(v) && t.DownLinks(t.parent[v].value);
    if p != u { ReachedHasParent(t, p, u); }
  }

  lemma RobustIsRight(tokens: seq<Token>, r: Trial)
    requires tokens != [] && r.Ok() && Robust(tokens, r.env.xml, r.env.contextIsDocument)
    ensures r.Right(tokens)
  {
    var m := Compiled(tokens, r.first);
    CompiledMeans(tokens, r.first);
    forall i | 0 <= i < |r.elems| ensures Holds(r.env, m, r.elems[i]) <==> Selects(r.env, tokens, r.elems[i]) {
      UseMeans(m, tokens, r.env, r.elems[i]);
    }
    if r.env.contextIsDocument && DirOf(RootRelation(tokens)) == PreviousSibling {
      var made := CompiledNamed(tokens, |tokens|, r.first);
      ElementMatcherNamed(CompiledUpTo(tokens, |tokens|, r.first), made, NameOf(tokens, |tokens|, r.first));
      EachTruthful(r.env, made, r.clock, m, r.elems, r.caches, NameOf(tokens, |tokens|, r.first));
      forall i | 0 <= i < |r.elems| ensures !Selects(r.env, tokens, r.elems[i]) {
        NoSiblingOfDocument(r.env, tokens, r.elems[i]);
      }
    } else {
      CompiledUnmarking(tokens, |tokens|, r.first, r.env);
      EachUnmarking(r.env, r.clock, m, r.elems, r.caches);
    }
  }

  // ---- The others: a path through a tree on which the last marking search fails once, then succeeds ----

  /** The last search that keeps marks: the index of its token, or -1 for the search for the context. */
  function LastMarking(tokens: seq<Token>, doc: bool): (k: int)
    requires tokens != [] && !Robust(tokens, false, doc)
    ensures IsLastMarking(tokens, k, doc)
  {
    LastMarkingBefore(tokens, |tokens|, doc)
  }

  predicate IsLastMarking(tokens: seq<Token>, k: int, doc: bool) {
    && (k == -1 || Start(tokens) <= k < |tokens|)
    && (if k == -1 then RootMarks(tokens, doc) else tokens[k].Combinator? && !First(tokens[k].rel))
    && forall i :: Start(tokens) <= i < |tokens| && i > k && tokens[i].Combinator? ==> First(tokens[i].rel)
  }

  function LastMarkingBefore(tokens: seq<Token>, n: nat, doc: bool): (k: int)
    requires tokens != [] && Start(tokens) <= n <= |tokens|
    requires forall i :: n <= i < |tokens| && tokens[i].Combinator? ==> First(tokens[i].rel)
    requires !Robust(tokens, false, doc)
    ensures IsLastMarking(tokens, k, doc)
  {
    if n == Start(tokens) then -1
    else if tokens[n-1].Combinator? && !First(tokens[n-1].rel) then n - 1
    else LastMarkingBefore(tokens, n - 1, doc)
  }

  function Twice(dir: Dir, twice: bool): seq<Dir> {
    if twice then [dir, dir] else [dir]
  }

  /** One move for each search, two for the one that is to fail once. */
  function Moves(tokens: seq<Token>, k: int, i: nat): seq<Dir>
    requires Start(tokens) <= i <= |tokens|
  {
    if i == Start(tokens) then Twice(DirOf(RootRelation(tokens)), k == -1)
    else match tokens[i-1]
         case Combinator(rel) => Moves(tokens, k, i - 1) + Twice(DirOf(rel), k == i - 1)
         case Simple(_) => Moves(tokens, k, i - 1)
  }

  /** Where the path has arrived after the tokens before `i`. */
  function At(tokens: seq<Token>, k: int, doc: bool, i: nat): Node
    requires Start(tokens) <= i <= |tokens|
  {
    Base(doc) + |Moves(tokens, k, i)|
  }

  /** The node on which the search fails. */
  function Trap(tokens: seq<Token>, k: int, doc: bool): Node
    requires k == -1 || Start(tokens) <= k < |tokens|
  {
    if k == -1 then Base(doc) + 1 else At(tokens, k, doc, k) + 1
  }

  /** Every node passes every filter of the group, except the trap, which passes none. */
  function WitnessEnv(tokens: seq<Token>, k: int, doc: bool): Env
    requires tokens != [] && IsLastMarking(tokens, k, doc) && !Robust(tokens, false, doc)
  {
    MovesWalkable(tokens, k, |tokens|, doc);
    var end := At(tokens, k, doc, |tokens|);
    Env(Stair(doc, Moves(tokens, k, |tokens|)),
        set i, v: nat | 0 <= i < |tokens| && tokens[i].Simple? && 0 <= v <= end && v != Trap(tokens, k, doc) :: (tokens[i].filter, v),
        One(Base(doc)), doc, false)
  }

  /** The end of the path is tried twice. */
  function TrialOf(e: Env, tokens: seq<Token>, k: int, doc: bool): Trial
    requires Start(tokens) <= |tokens|
  {
    var p := At(tokens, k, doc, |tokens|);
    Trial(e, 0, Clock(1, 0), map[], [p, p])
  }

  lemma {:induction false} MovesWalkable(tokens: seq<Token>, k: int, i: nat, doc: bool)
    requires tokens != [] && Start(tokens) <= i <= |tokens| && !Robust(tokens, false, doc)
    ensures Walkable(doc, Moves(tokens, k, i)) && Moves(tokens, k, i) != []
    decreases i
  {
    if i > Start(tokens) { MovesWalkable(tokens, k, i - 1, doc); }
  }

  lemma {:induction false} MovesExtend(tokens: seq<Token>, k: int, i: nat, j: nat)
    requires Start(tokens) <= i <= j <= |tokens|
    ensures Moves(tokens, k, i) <= Moves(tokens, k, j)
    decreases j
  {
    if i < j { MovesExtend(tokens, k, i, j - 1); }
  }

  /** The situation all of the following is about. */
  predicate Posed(tokens: seq<Token>, k: int, doc: bool) {
    tokens != [] && IsLastMarking(tokens, k, doc) && !Robust(tokens, false, doc)
  }

  /** What the lemmas below use of the tree: each move of the whole path leads back. */
  ghost predicate IsPath(e: Env, doc: bool, moves: seq<Dir>) {
    && e.Valid() && |e.tree.kind| == Base(doc) + |moves| + 1
    && (forall v :: 0 < v <= Base(doc) + |moves| ==> e.tree.kind[v] == Element)
    && (doc ==> e.tree.kind[0] == Document && e.tree.parent[0] == None)
    && (forall j :: 0 <= j < |moves| ==> Leads(e.tree, moves[j], Base(doc) + j + 1, Base(doc) + j))
  }

  ghost predicate PassesElsewhere(e: Env, f: nat, trap: Node) {
    forall v: Node :: e.tree.Has(v) && v != trap ==> (f, v) in e.sat
  }

  /** ... and of the rest of the witness. */
  ghost predicate IsWitness(e: Env, tokens: seq<Token>, k: int, doc: bool)
    requires k == -1 || Start(tokens) <= k < |tokens|
  {
    && Start(tokens) <= |tokens| && IsPath(e, doc, Moves(tokens, k, |tokens|))
    && !e.xml && e.contextIsDocument == doc && e.context == One(Base(doc))
    && (forall i :: 0 <= i < |tokens| && tokens[i].Simple? ==> PassesElsewhere(e, tokens[i].filter, Trap(tokens, k, doc)))
    && (forall f :: (f, Trap(tokens, k, doc)) !in e.sat)
  }

  lemma WitnessIs(tokens: seq<Token>, k: int, doc: bool)
    requires Posed(tokens, k, doc)
    ensures IsWitness(WitnessEnv(tokens, k, doc), tokens, k, doc)
  {
    var moves, e := Moves(tokens, k, |tokens|), WitnessEnv(tokens, k, doc);
    MovesWalkable(tokens, k, |tokens|, doc);
    forall v | 0 < v <= Base(doc) + |moves| ensures e.tree.kind[v] == Element {
      StairElements(doc, moves, v);
    }
    forall j | 0 <= j < |moves| ensures Leads(e.tree, moves[j], Base(doc) + j + 1, Base(doc) + j) {
      StairLinks(doc, moves, j);
    }
  }

  lemma PathLinks(e: Env, tokens: seq<Token>, k: int, doc: bool, i: nat, j: nat)
    requires Posed(tokens, k, doc) && IsWitness(e, tokens, k, doc) && Start(tokens) <= i <= |tokens| && j < |Moves(tokens, k, i)|
    ensures Leads(e.tree, Moves(tokens, k, i)[j], Base(doc) + j + 1, Base(doc) + j)
    ensures e.tree.kind[Base(doc) + j + 1] == Element
  {
    MovesExtend(tokens, k, i, |tokens|);
    assert Moves(tokens, k, i)[j] == Moves(tokens, k, |tokens|)[j];
  }

  /** The path passes by the trap once, inside the search `k`. */
  lemma TrapIsAvoided(tokens: seq<Token>, k: int, doc: bool, i: nat)
    requires Posed(tokens, k, doc) && Start(tokens) <= i <= |tokens|
    ensures At(tokens, k, doc, i) != Trap(tokens, k, doc)
  {
    if i <= k {
      MovesExtend(tokens, k, i, k);
    } else if k == -1 {
      MovesExtend(tokens, k, Start(tokens), i);
    } else {
      MovesExtend(tokens, k, k + 1, i);
    }
  }

  ghost predicate NodeOk(e: Env, tokens: seq<Token>, k: int, doc: bool, i: nat)
    requires e.Valid() && Start(tokens) <= i <= |tokens|
  {
    var v := At(tokens, k, doc, i);
    && e.tree.Has(v) && e.tree.IsElement(v)
    && (i < |tokens| && tokens[i].Simple? ==> (tokens[i].filter, v) in e.sat)
  }

  /** One step leads from `v` back to `u`, or two if the trap is in between. */
  ghost predicate Back(t: Tree, dir: Dir, v: Node, u: Node, trapped: bool) {
    if trapped then Leads(t, dir, v, u + 1) && Leads(t, dir, u + 1, u) && t.IsElement(u + 1) else Leads(t, dir, v, u)
  }

  /** The search of token `i` leads back to where the path was before it. */
  ghost predicate StepOk(e: Env, tokens: seq<Token>, k: int, doc: bool, i: nat)
    requires e.Valid() && Start(tokens) <= i < |tokens|
  {
    tokens[i].Combinator? ==>
      Back(e.tree, DirOf(tokens[i].rel), At(tokens, k, doc, i + 1), At(tokens, k, doc, i), i == k)
  }

  ghost predicate RootOk(e: Env, tokens: seq<Token>, k: int, doc: bool)
    requires e.Valid()
  {
    && e.tree.Has(Base(doc)) && Stop(e.tree, RootRelation(tokens), true, Base(doc))
    && Start(tokens) <= |tokens|
    && Back(e.tree, DirOf(RootRelation(tokens)), At(tokens, k, doc, Start(tokens)), Base(doc), k == -1)
  }

  ghost predicate PathOk(e: Env, tokens: seq<Token>, k: int, doc: bool) {
    && e.Valid() && !e.xml && e.contextIsDocument == doc && e.context == One(Base(doc))
    && (k == -1 || Start(tokens) <= k < |tokens|)
    && RootOk(e, tokens, k, doc)
    && (forall i :: Start(tokens) <= i <= |tokens| ==> NodeOk(e, tokens, k, doc, i))
    && (forall i :: Start(tokens) <= i < |tokens| ==> StepOk(e, tokens, k, doc, i))
    && (forall f :: (f, Trap(tokens, k, doc)) !in e.sat)
  }

  lemma WitnessNode(e: Env, tokens: seq<Token>, k: int, doc: bool, i: nat)
    requires Posed(tokens, k, doc) && IsWitness(e, tokens, k, doc) && Start(tokens) <= i <= |tokens|
    ensures NodeOk(e, tokens, k, doc, i)
  {
    MovesWalkable(tokens, k, i, doc);
    MovesExtend(tokens, k, i, |tokens|);
    TrapIsAvoided(tokens, k, doc, i);
  }

  lemma MovesBack(e: Env, tokens: seq<Token>, k: int, doc: bool, i: nat, n: nat, dir: Dir, trapped: bool)
    requires Posed(tokens, k, doc) && IsWitness(e, tokens, k, doc)
    requires Start(tokens) <= i <= |tokens| && n <= |Moves(tokens, k, i)|
    requires Moves(tokens, k, i)[n..] == Twice(dir, trapped)
    ensures Back(e.tree, dir, Base(doc) + |Moves(tokens, k, i)|, Base(doc) + n, trapped)
  {
    assert Moves(tokens, k, i)[n] == Moves(tokens, k, i)[n..][0];
    PathLinks(e, tokens, k, doc, i, n);
    if trapped {
      assert Moves(tokens, k, i)[n + 1] == Moves(tokens, k, i)[n..][1];
      PathLinks(e, tokens, k, doc, i, n + 1);
    }
  }

  lemma MovesStep(tokens: seq<Token>, k: int, i: nat)
    requires Start(tokens) <= i < |tokens| && tokens[i].Combinator?
    ensures |Moves(tokens, k, i)| <= |Moves(tokens, k, i + 1)|
    ensures Moves(tokens, k, i + 1)[|Moves(tokens, k, i)|..] == Twice(DirOf(tokens[i].rel), k == i)
  {
  }

  lemma WitnessStep(e: Env, tokens: seq<Token>, k: int, doc: bool, i: nat)
    requires Posed(tokens, k, doc) && IsWitness(e, tokens, k, doc) && Start(tokens) <= i < |tokens|
    ensures StepOk(e, tokens, k, doc, i)
  {
    if tokens[i].Combinator? {
      MovesStep(tokens, k, i);
      MovesBack(e, tokens, k, doc, i + 1, |Moves(tokens, k, i)|, DirOf(tokens[i].rel), i == k);
    }
  }

  lemma WitnessRoot(e: Env, tokens: seq<Token>, k: int, doc: bool)
    requires Posed(tokens, k, doc) && IsWitness(e, tokens, k, doc)
    ensures RootOk(e, tokens, k, doc)
  {
    MovesWalkable(tokens, k, |tokens|, doc);
    MovesBack(e, tokens, k, doc, Start(tokens), 0, DirOf(RootRelation(tokens)), k == -1);
  }

  lemma WitnessPath(e: Env, tokens: seq<Token>, k: int, doc: bool)
    requires Posed(tokens, k, doc) && IsWitness(e, tokens, k, doc)
    ensures PathOk(e, tokens, k, doc)
  {
    WitnessRoot(e, tokens, k, doc);
    forall i | Start(tokens) <= i <= |tokens| ensures NodeOk(e, tokens, k, doc, i) {
      WitnessNode(e, tokens, k, doc, i);
    }
    forall i | Start(tokens) <= i < |tokens| ensures StepOk(e, tokens, k, doc, i) {
      WitnessStep(e, tokens, k, doc, i);
    }
  }

  // ---- Along the path everything holds, but the trap stops the second attempt ----

  /** A search succeeds if it leads back to a node that satisfies the inner matcher. */
  lemma BackHolds(env: Env, m: Matcher, v: Node, u: Node, trapped: bool)
    requires env.Valid() && m.Combine? && Back(env.tree, DirOf(m.rel), v, u, trapped) && (trapped ==> !First(m.rel))
    requires env.tree.Has(u) && Stop(env.tree, m.rel, m.base, u) && Holds(env, m.inner, u)
    ensures env.tree.Has(v) && Holds(env, m, v)
  {
    if trapped { assert Holds(env, m, u + 1); }
  }

  lemma RootHolds(e: Env, tokens: seq<Token>, k: int, doc: bool)
    requires PathOk(e, tokens, k, doc) && Posed(tokens, k, doc)
    ensures var v := At(tokens, k, doc, Start(tokens));
            e.tree.Has(v) && AllHold(e, CompiledUpTo(tokens, Start(tokens), 0), v)
  {
    var v, top := At(tokens, k, doc, Start(tokens)), CompiledUpTo(tokens, Start(tokens), 0)[0];
    assert NodeOk(e, tokens, k, doc, Start(tokens));
    BackHolds(e, RootSearch(tokens, IsContext, 0), v, Base(doc), k == -1);
    assert Holds(e, top, v);
    AllHoldOne(e, top, v);
  }

  lemma StepHolds(e: Env, tokens: seq<Token>, k: int, doc: bool, i: nat)
    requires PathOk(e, tokens, k, doc) && Posed(tokens, k, doc) && Start(tokens) <= i < |tokens|
    requires e.tree.Has(At(tokens, k, doc, i)) && AllHold(e, CompiledUpTo(tokens, i, 0), At(tokens, k, doc, i))
    ensures e.tree.Has(At(tokens, k, doc, i + 1)) && AllHold(e, CompiledUpTo(tokens, i + 1, 0), At(tokens, k, doc, i + 1))
  {
    var u, v, was := At(tokens, k, doc, i), At(tokens, k, doc, i + 1), CompiledUpTo(tokens, i, 0);
    assert NodeOk(e, tokens, k, doc, i) && NodeOk(e, tokens, k, doc, i + 1) && StepOk(e, tokens, k, doc, i);
    match tokens[i] {
      case Simple(f) =>
        FilterStep(e, was, f, v);
      case Combinator(_) =>
        var search := CompiledUpTo(tokens, i + 1, 0)[0];
        ElementMatcherHolds(e, was, u);
        BackHolds(e, search, v, u, i == k);
        AllHoldOne(e, search, v);
    }
  }

  /** At every point the path satisfies the tokens so far. */
  lemma {:induction false} PathHolds(e: Env, tokens: seq<Token>, k: int, doc: bool, i: nat)
    requires PathOk(e, tokens, k, doc) && Posed(tokens, k, doc) && Start(tokens) <= i <= |tokens|
    ensures e.tree.Has(At(tokens, k, doc, i)) && AllHold(e, CompiledUpTo(tokens, i, 0), At(tokens, k, doc, i))
    decreases i
  {
    if i == Start(tokens) {
      RootHolds(e, tokens, k, doc);
    } else {
      PathHolds(e, tokens, k, doc, i - 1);
      StepHolds(e, tokens, k, doc, i - 1);
    }
  }

  /** The search `k` as a closure. */
  function Marking(tokens: seq<Token>, k: int): Matcher
    requires tokens != [] && (k == -1 || (Start(tokens) <= k < |tokens| && tokens[k].Combinator?))
  {
    if k == -1 then RootSearch(tokens, IsContext, 0)
    else Combine(ElementMatcher(CompiledUpTo(tokens, k, 0)), tokens[k].rel, false, NameOf(tokens, k, 0))
  }

  /** The number of tokens up to and including the search `k`. */
  function UpTo(tokens: seq<Token>, k: int): nat
    requires k >= -1
  {
    if k == -1 then Start(tokens) else k + 1
  }

  lemma CallsMarking(e: Env, clock: Clock, tokens: seq<Token>, k: int, doc: bool, c: Caches)
    requires PathOk(e, tokens, k, doc) && Posed(tokens, k, doc)
    ensures var u := At(tokens, k, doc, UpTo(tokens, k));
            && e.tree.Has(u)
            && Eval(e, clock, ElementMatcher(CompiledUpTo(tokens, UpTo(tokens, k), 0)), u, c)
               == SearchFrom(e, clock, Marking(tokens, k), u, c)
  {
    assert NodeOk(e, tokens, k, doc, UpTo(tokens, k));
    var u := At(tokens, k, doc, UpTo(tokens, k));
    assert Eval(e, clock, Marking(tokens, k), u, c) == SearchFrom(e, clock, Marking(tokens, k), u, c);
  }

  /** A filter or a nearest-node search on the path hands the call on to the left. */
  lemma HandsOn(e: Env, clock: Clock, tokens: seq<Token>, k: int, doc: bool, i: nat, c: Caches)
    requires PathOk(e, tokens, k, doc) && Posed(tokens, k, doc) && UpTo(tokens, k) <= i < |tokens|
    ensures var u, v := At(tokens, k, doc, i), At(tokens, k, doc, i + 1);
            && e.tree.Has(u) && e.tree.Has(v)
            && Eval(e, clock, ElementMatcher(CompiledUpTo(tokens, i + 1, 0)), v, c)
               == Eval(e, clock, ElementMatcher(CompiledUpTo(tokens, i, 0)), u, c)
  {
    assert NodeOk(e, tokens, k, doc, i) && NodeOk(e, tokens, k, doc, i + 1) && StepOk(e, tokens, k, doc, i);
    match tokens[i] {
      case Simple(f) => FilterFirst(e, clock, CompiledUpTo(tokens, i, 0), f, At(tokens, k, doc, i + 1), c);
      case Combinator(_) =>
        var search := CompiledUpTo(tokens, i + 1, 0)[0];
        assert Eval(e, clock, search, At(tokens, k, doc, i + 1), c) == SearchFrom(e, clock, search, At(tokens, k, doc, i + 1), c);
    }
  }

  /** To the right of the search `k` no marks are kept: a call at the end of the path is a call of that search. */
  lemma {:induction false} RightPart(e: Env, clock: Clock, tokens: seq<Token>, k: int, doc: bool, i: nat, c: Caches)
    requires PathOk(e, tokens, k, doc) && Posed(tokens, k, doc) && UpTo(tokens, k) <= i <= |tokens|
    ensures var v, u := At(tokens, k, doc, i), At(tokens, k, doc, UpTo(tokens, k));
            && e.tree.Has(v) && e.tree.Has(u)
            && Eval(e, clock, ElementMatcher(CompiledUpTo(tokens, i, 0)), v, c) == SearchFrom(e, clock, Marking(tokens, k), u, c)
    decreases i
  {
    if i == UpTo(tokens, k) {
      CallsMarking(e, clock, tokens, k, doc, c);
    } else {
      RightPart(e, clock, tokens, k, doc, i - 1, c);
      HandsOn(e, clock, tokens, k, doc, i - 1, c);
    }
  }

  /** Whatever the marks, the search `k` finds nothing on the trap itself. */
  lemma TrapFails(e: Env, clock: Clock, tokens: seq<Token>, k: int, doc: bool, c: Caches)
    requires PathOk(e, tokens, k, doc) && Posed(tokens, k, doc) && Alternating(tokens)
    ensures var s := Trap(tokens, k, doc);
            && Leads(e.tree, DirOf(Marking(tokens, k).rel), At(tokens, k, doc, UpTo(tokens, k)), s)
            && e.tree.Has(s) && e.tree.IsElement(s)
            && !Eval(e, clock, Marking(tokens, k).inner, s, c).ok
  {
    var s := Trap(tokens, k, doc);
    if k >= 0 {
      assert StepOk(e, tokens, k, doc, k);
      var f, was := tokens[k-1].filter, CompiledUpTo(tokens, k - 1, 0);
      assert CompiledUpTo(tokens, k, 0) == was + [Filter(f)];
      FilterFirst(e, clock, was, f, s, c);
    }
  }

  /** A call at the end of the path fails the second time. */
  lemma SecondFails(e: Env, clock: Clock, tokens: seq<Token>, k: int, doc: bool)
    requires PathOk(e, tokens, k, doc) && Posed(tokens, k, doc) && Alternating(tokens)
    ensures var p := At(tokens, k, doc, |tokens|);
            e.tree.Has(p) && EvalEach(e, clock, Compiled(tokens, 0), [p, p], map[]).answers[1] == false
  {
    var m, p := Compiled(tokens, 0), At(tokens, k, doc, |tokens|);
    var search, u, s := Marking(tokens, k), At(tokens, k, doc, UpTo(tokens, k)), Trap(tokens, k, doc);
    RightPart(e, clock, tokens, k, doc, |tokens|, map[]);
    var after := Eval(e, clock, m, p, map[]).caches;
    RightPart(e, clock, tokens, k, doc, |tokens|, after);
    TrapFails(e, clock, tokens, k, doc, Mark(clock, search, s, map[], Pending));
    FailureStays(e, clock, search, u, s, map[]);
    FailureEndsSearch(e, clock, search, u, s, after);
    TwoAnswers(e, clock, m, p, p, map[]);
  }

  lemma EndIsSelected(e: Env, tokens: seq<Token>, k: int, doc: bool)
    requires PathOk(e, tokens, k, doc) && Posed(tokens, k, doc)
    ensures Selects(e, tokens, At(tokens, k, doc, |tokens|))
  {
    var p := At(tokens, k, doc, |tokens|);
    PathHolds(e, tokens, k, doc, |tokens|);
    ElementMatcherHolds(e, CompiledUpTo(tokens, |tokens|, 0), p);
    CompiledMeans(tokens, 0);
    UseMeans(Compiled(tokens, 0), tokens, e, p);
  }

  /** The end of the path is selected, and refused the second time. */
  lemma WitnessIsWrong(e: Env, tokens: seq<Token>, k: int, doc: bool)
    requires Posed(tokens, k, doc) && Alternating(tokens) && IsWitness(e, tokens, k, doc)
    ensures TrialOf(e, tokens, k, doc).Ok() && !TrialOf(e, tokens, k, doc).Right(tokens)
  {
    var r := TrialOf(e, tokens, k, doc);
    WitnessPath(e, tokens, k, doc);
    EndIsSelected(e, tokens, k, doc);
    SecondFails(e, r.clock, tokens, k, doc);
    assert Selects(r.env, tokens, r.elems[1]);
  }
}
