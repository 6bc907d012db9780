/** Selector groups and what they mean, without any matcher: section 8 of Selectors Level 3. */
module Selectors {
  import opened Dom

  /** " ", ">", "+" and "~". */
  datatype Relation = Descendant | Child | Adjacent | Sibling

  /** `Expr.relative[..].dir` */
  function DirOf(rel: Relation): Dir {
    if rel.Descendant? || rel.Child? then ParentNode else PreviousSibling
  }

  /** `Expr.relative[..].first` */
  predicate First(rel: Relation) {
    rel.Child? || rel.Adjacent?
  }

  /** A simple filter is known by a number; `Env.sat` says which nodes pass it. */
  datatype Token = Combinator(rel: Relation) | Simple(filter: nat)

  datatype Context = One(node: Node) | Many(nodes: seq<Node>)

  /** What stays fixed during one outermost run. */
  datatype Env = Env(tree: Tree, sat: set<(nat, Node)>, context: Context, contextIsDocument: bool, xml: bool)
  {
    ghost predicate Valid() {
      tree.Valid()
    }
  }

  /** Reachable from `v` by one or more steps in direction `dir`. */
  ghost predicate Reaches(t: Tree, dir: Dir, p: Node, v: Node)
    requires t.Valid() && t.Has(p) && t.Has(v)
    decreases t.Steps(dir, v)
  {
    match t.Next(dir, v)
    case None => false
    case Some(u) => p == u || Reaches(t, dir, p, u)
  }

  /** Nodes a combinator may stop at: elements, or any ancestor when the search is
      for the context itself. */
  predicate Stop(t: Tree, rel: Relation, anyNode: bool, p: Node)
    requires t.Has(p)
  {
    t.IsElement(p) || (anyNode && DirOf(rel) == ParentNode)
  }

  /** `p` stands in relation `rel` to `v`: some ancestor (preceding sibling) for " " ("~"), and
      for ">" ("+") one with no other candidate in between. */
  ghost predicate Related(t: Tree, rel: Relation, anyNode: bool, p: Node, v: Node)
    requires t.Valid() && t.Has(v)
  {
    && t.Has(p) && Stop(t, rel, anyNode, p)
    && Reaches(t, DirOf(rel), p, v)
    && (First(rel) ==>
          !exists q :: t.Has(q) && Stop(t, rel, anyNode, q) && Reaches(t, DirOf(rel), q, v)
                       && Reaches(t, DirOf(rel), p, q))
  }

  predicate Leading(tokens: seq<Token>) {
    tokens != [] && tokens[0].Combinator?
  }

  /** The relation the first compound must have to the context. */
  function RootRelation(tokens: seq<Token>): Relation {
    if Leading(tokens) then tokens[0].rel else Descendant
  }

  ghost predicate IsContextNode(env: Env, p: Node) {
    match env.context
    case One(n) => p == n
    case Many(ns) => p in ns
  }

  /** The leftmost node of the chain must be reachable from the context, unless the
      context is the document (or the document is XML) and no combinator leads. */
  ghost predicate Rooted(env: Env, tokens: seq<Token>, v: Node)
    requires env.Valid() && env.tree.Has(v)
  {
    || (!Leading(tokens) && (env.xml || env.contextIsDocument))
    || exists p :: Related(env.tree, RootRelation(tokens), true, p, v) && IsContextNode(env, p)
  }

  /** Index of the first token that is not the leading combinator. */
  function Start(tokens: seq<Token>): nat {
    if Leading(tokens) then 1 else 0
  }

  /** One selector step: a simple filter stays on the node, a combinator moves to a related one. */
  ghost predicate Link(env: Env, token: Token, u: Node, v: Node)
    requires env.Valid() && env.tree.Has(v)
  {
    match token
    case Simple(f) => u == v && (f, v) in env.sat
    case Combinator(rel) => Related(env.tree, rel, false, u, v)
  }

  /** `chain[i]` and `chain[i+1]` are the nodes before and after token `Start + i`. */
  ghost predicate IsChain(env: Env, tokens: seq<Token>, chain: seq<Node>)
    requires env.Valid()
  {
    && Start(tokens) <= |tokens|
    && |chain| == |tokens| - Start(tokens) + 1
    && (forall i :: 0 <= i < |chain| ==> env.tree.Has(chain[i]))
    && Rooted(env, tokens, chain[0])
    && (forall i :: 0 <= i < |chain| - 1 ==> Link(env, tokens[Start(tokens) + i], chain[i], chain[i+1]))
  }

  /** The meaning of a selector group: some chain of nodes satisfies it and ends at `v`. */
  ghost predicate Selects(env: Env, tokens: seq<Token>, v: Node)
    requires env.Valid()
  {
    exists chain :: IsChain(env, tokens, chain) && chain[|chain| - 1] == v
  }

  // ---- The same meaning, one token at a time ----

  ghost predicate SelectsUpTo(env: Env, tokens: seq<Token>, i: nat, v: Node)
    requires env.Valid() && env.tree.Has(v) && Start(tokens) <= i <= |tokens|
    decreases i
  {
    if i == Start(tokens) then Rooted(env, tokens, v)
    else exists u :: env.tree.Has(u) && Link(env, tokens[i-1], u, v) && SelectsUpTo(env, tokens, i-1, u)
  }

  ghost predicate IsPrefixChain(env: Env, tokens: seq<Token>, i: nat, chain: seq<Node>)
    requires env.Valid() && Start(tokens) <= i <= |tokens|
  {
    && |chain| == i - Start(tokens) + 1
    && (forall k :: 0 <= k < |chain| ==> env.tree.Has(chain[k]))
    && Rooted(env, tokens, chain[0])
    && (forall k :: 0 <= k < |chain| - 1 ==> Link(env, tokens[Start(tokens) + k], chain[k], chain[k+1]))
  }

  lemma {:induction false} ChainFromSteps(env: Env, tokens: seq<Token>, i: nat, v: Node) returns (chain: seq<Node>)
    requires env.Valid() && env.tree.Has(v) && Start(tokens) <= i <= |tokens|
    requires SelectsUpTo(env, tokens, i, v)
    ensures IsPrefixChain(env, tokens, i, chain) && chain[|chain| - 1] == v
    decreases i
  {
    if i == Start(tokens) {
      chain := [v];
    } else {
      var u :| env.tree.Has(u) && Link(env, tokens[i-1], u, v) && SelectsUpTo(env, tokens, i-1, u);
      var rest := ChainFromSteps(env, tokens, i-1, u);
      chain := rest + [v];
      ExtendChain(env, tokens, i, rest, v);
    }
  }

  lemma ExtendChain(env: Env, tokens: seq<Token>, i: nat, rest: seq<Node>, v: Node)
    requires env.Valid() && env.tree.Has(v) && Start(tokens) < i <= |tokens|
    requires IsPrefixChain(env, tokens, i-1, rest) && Link(env, tokens[i-1], rest[|rest| - 1], v)
    ensures IsPrefixChain(env, tokens, i, rest + [v])
  {
    var chain := rest + [v];
    forall k | 0 <= k < |chain| - 1
      ensures Link(env, tokens[Start(tokens) + k], chain[k], chain[k+1])
    {
      if k < |rest| - 1 {
        assert chain[k] == rest[k] && chain[k+1] == rest[k+1];
      }
    }
  }

  lemma {:induction false} StepsFromChain(env: Env, tokens: seq<Token>, i: nat, chain: seq<Node>)
    requires env.Valid() && Start(tokens) <= i <= |tokens|
    requires IsPrefixChain(env, tokens, i, chain)
    ensures SelectsUpTo(env, tokens, i, chain[|chain| - 1])
    decreases i
  {
    if i > Start(tokens) {
      var rest := chain[..|chain| - 1];
      assert IsPrefixChain(env, tokens, i-1, rest);
      StepsFromChain(env, tokens, i-1, rest);
      assert Link(env, tokens[i-1], chain[|chain| - 2], chain[|chain| - 1]);
    }
  }

  lemma SelectsByTokens(env: Env, tokens: seq<Token>, v: Node)
    requires env.Valid() && env.tree.Has(v)
    ensures SelectsUpTo(env, tokens, |tokens|, v) <==> Selects(env, tokens, v)
  {
    if SelectsUpTo(env, tokens, |tokens|, v) {
      var chain := ChainFromSteps(env, tokens, |tokens|, v);
      assert IsChain(env, tokens, chain);
    }
    if Selects(env, tokens, v) {
      var chain :| IsChain(env, tokens, chain) && chain[|chain| - 1] == v;
      assert IsPrefixChain(env, tokens, |tokens|, chain);
      StepsFromChain(env, tokens, |tokens|, chain);
    }
  }
}
