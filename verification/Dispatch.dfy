/** `jQuery.event.handlers`: which handlers an event runs, on which node, in which order. */
module Dispatch {
  import opened Dom
  import opened Events
  import opened Selectors
  import Combinators

  /** What the walk looks at: the tree, disabled nodes, which nodes each selector selects, and the event. */
  datatype Scene = Scene(tree: Tree, disabled: set<Node>, sat: set<(nat, Node)>, click: bool, button: bool)

  datatype Entry = Entry(elem: Node, handlers: seq<HandleObj>)

  /** Delegated handlers are looked for on elements, but not for clicks on disabled ones. */
  predicate Eligible(sc: Scene, v: Node)
    requires sc.tree.Has(v)
  {
    sc.tree.IsElement(v) && !(v in sc.disabled && sc.click)
  }

  /** The delegated handlers whose selector selects `v`, in list order. */
  function MatchingAt(sc: Scene, hs: seq<HandleObj>, v: Node): seq<HandleObj> {
    if hs == [] then [] else
    var h := hs[|hs|-1];
    MatchingAt(sc, hs[..|hs|-1], v) + if h.selector.Some? && (h.selector.value, v) in sc.sat then [h] else []
  }

  lemma {:induction false} MatchingMeans(sc: Scene, hs: seq<HandleObj>, v: Node, h: HandleObj)
    ensures h in MatchingAt(sc, hs, v) <==> h in hs && h.selector.Some? && (h.selector.value, v) in sc.sat
  {
    if hs != [] {
      MatchingMeans(sc, hs[..|hs|-1], v, h);
      assert h in hs <==> h in hs[..|hs|-1] || h == hs[|hs|-1];
    }
  }

  /** The nodes from `v` up to, but not including, `this`. */
  function Climb(sc: Scene, v: Node, this_: Node): (r: seq<Node>)
    requires sc.tree.Valid() && sc.tree.Has(v)
    ensures forall i :: 0 <= i < |r| ==> sc.tree.Has(r[i]) && r[i] != this_ && sc.tree.depth[r[i]] + i == sc.tree.depth[v]
    decreases sc.tree.Steps(ParentNode, v)
  {
    if v == this_ then []
    else match sc.tree.Next(ParentNode, v)
         case None => [v]
         case Some(u) => [v] + Climb(sc, u, this_)
  }

  /** The entry for one node, if anything matches there. */
  function EntryFor(sc: Scene, delegates: seq<HandleObj>, v: Node): seq<Entry>
    requires sc.tree.Has(v)
  {
    var here := MatchingAt(sc, delegates, v);
    if Eligible(sc, v) && here != [] then [Entry(v, here)] else []
  }

  /** The entries for the nodes of a climb. */
  function EntriesFor(sc: Scene, delegates: seq<HandleObj>, path: seq<Node>): seq<Entry>
    requires forall i :: 0 <= i < |path| ==> sc.tree.Has(path[i])
  {
    if path == [] then [] else
    EntryFor(sc, delegates, path[0]) + EntriesFor(sc, delegates, path[1..])
  }

  function DelegatedEntries(sc: Scene, hs: Handlers, target: Node, this_: Node): seq<Entry>
    requires sc.tree.Valid() && sc.tree.Has(target) && 0 <= hs.delegateCount <= |hs.list|
  {
    if sc.button && sc.click then []
    else EntriesFor(sc, hs.list[..hs.delegateCount], Climb(sc, target, this_))
  }

  function DirectEntries(hs: Handlers, this_: Node): seq<Entry>
    requires 0 <= hs.delegateCount <= |hs.list|
  {
    if hs.delegateCount < |hs.list| then [Entry(this_, hs.list[hs.delegateCount..])] else []
  }

  method HandlerQueue(sc: Scene, hs: Handlers, target: Node, this_: Node) returns (queue: seq<Entry>)
    requires sc.tree.Valid() && sc.tree.Has(target) && Partitioned(hs)
    ensures queue == DelegatedEntries(sc, hs, target, this_) + DirectEntries(hs, this_)
  {
    queue := [];
    if hs.delegateCount > 0 && !(sc.button && sc.click) {
      queue := DelegateQueue(sc, hs, target, this_);
    } else {
      NoDelegates(sc, Climb(sc, target, this_));
    }
    if hs.delegateCount < |hs.list| {
      queue := queue + [Entry(this_, hs.list[hs.delegateCount..])];
    }
  }

  /** The walk from the target up. */
  method DelegateQueue(sc: Scene, hs: Handlers, target: Node, this_: Node) returns (queue: seq<Entry>)
    requires sc.tree.Valid() && sc.tree.Has(target) && Partitioned(hs)
    ensures queue == EntriesFor(sc, hs.list[..hs.delegateCount], Climb(sc, target, this_))
  {
    queue := [];
    ghost var delegates, all := hs.list[..hs.delegateCount], Climb(sc, target, this_);
    var cur := Some(target);
    ghost var left := all;
    while cur.Some? && cur.value != this_
      invariant cur.Some? ==> sc.tree.Has(cur.value) && left == Climb(sc, cur.value, this_)
      invariant cur.None? ==> left == []
      invariant forall i :: 0 <= i < |left| ==> sc.tree.Has(left[i])
      invariant queue + EntriesFor(sc, delegates, left) == EntriesFor(sc, delegates, all)
      decreases cur.Some?, if cur.Some? then sc.tree.Steps(ParentNode, cur.value) else 0
    {
      var v := cur.value;
      var next := sc.tree.Next(ParentNode, v);
      ghost var above := if next.Some? then Climb(sc, next.value, this_) else [];
      assert left == [v] + above;
      var here := EntryAt(sc, hs, v);
      StepEntries(sc, delegates, queue, v, above);
      queue := queue + here;
      cur, left := next, above;
    }
    assert left == [];
  }

  lemma StepEntries(sc: Scene, delegates: seq<HandleObj>, queue: seq<Entry>, v: Node, above: seq<Node>)
    requires sc.tree.Has(v) && forall i :: 0 <= i < |above| ==> sc.tree.Has(above[i])
    ensures queue + EntriesFor(sc, delegates, [v] + above)
            == queue + EntryFor(sc, delegates, v) + EntriesFor(sc, delegates, above)
  {
    assert ([v] + above)[1..] == above;
  }

  method EntryAt(sc: Scene, hs: Handlers, v: Node) returns (r: seq<Entry>)
    requires sc.tree.Has(v) && Partitioned(hs)
    ensures r == EntryFor(sc, hs.list[..hs.delegateCount], v)
  {
    r := [];
    if Eligible(sc, v) {
      var matches := MatchesAt(sc, hs, v);
      if matches != [] { r := [Entry(v, matches)]; }
    }
  }

  /** The inner loop asks about each selector once per node. */
  method MatchesAt(sc: Scene, hs: Handlers, v: Node) returns (matches: seq<HandleObj>)
    requires Partitioned(hs)
    ensures matches == MatchingAt(sc, hs.list[..hs.delegateCount], v)
  {
    matches := [];
    var known: map<nat, bool> := map[];
    var i := 0;
    while i < hs.delegateCount
      invariant 0 <= i <= hs.delegateCount
      invariant forall sel :: sel in known ==> (known[sel] <==> (sel, v) in sc.sat)
      invariant matches == MatchingAt(sc, hs.list[..i], v)
    {
      assert hs.list[..i+1][..i] == hs.list[..i];
      var sel := hs.list[i].selector.value;
      if sel !in known {
        known := known[sel := (sel, v) in sc.sat];
      }
      if known[sel] {
        matches := matches + [hs.list[i]];
      }
      i := i + 1;
    }
  }

  lemma {:induction false} NoDelegates(sc: Scene, path: seq<Node>)
    requires forall i :: 0 <= i < |path| ==> sc.tree.Has(path[i])
    ensures EntriesFor(sc, [], path) == []
  {
    if path != [] { NoDelegates(sc, path[1..]); }
  }

  /** Handler `h` is queued for node `v`. */
  ghost predicate Runs(q: seq<Entry>, v: Node, h: HandleObj) {
    exists i :: 0 <= i < |q| && q[i].elem == v && h in q[i].handlers
  }

  /** Depths fall along the queue. */
  ghost predicate DeepestFirst(t: Tree, q: seq<Entry>)
    requires t.Valid()
  {
    && (forall i :: 0 <= i < |q| ==> t.Has(q[i].elem))
    && forall i, j :: 0 <= i < j < |q| ==> t.depth[q[i].elem] > t.depth[q[j].elem]
  }

  ghost predicate Falling(t: Tree, path: seq<Node>)
    requires t.Valid()
  {
    && (forall i :: 0 <= i < |path| ==> t.Has(path[i]))
    && forall i, j :: 0 <= i < j < |path| ==> t.depth[path[i]] > t.depth[path[j]]
  }

  lemma {:induction false} EntriesFall(sc: Scene, delegates: seq<HandleObj>, path: seq<Node>)
    requires sc.tree.Valid() && Falling(sc.tree, path)
    ensures DeepestFirst(sc.tree, EntriesFor(sc, delegates, path))
    ensures path != [] ==> forall i :: 0 <= i < |EntriesFor(sc, delegates, path)| ==>
              sc.tree.depth[EntriesFor(sc, delegates, path)[i].elem] <= sc.tree.depth[path[0]]
  {
    if path != [] {
      var rest := EntriesFor(sc, delegates, path[1..]);
      EntriesFall(sc, delegates, path[1..]);
      if |path| > 1 {
        assert path[1..][0] == path[1];
      } else {
        assert rest == [];
      }
    }
  }

  lemma {:induction false} EntriesMean(sc: Scene, delegates: seq<HandleObj>, path: seq<Node>, v: Node, h: HandleObj)
    requires forall i :: 0 <= i < |path| ==> sc.tree.Has(path[i])
    ensures Runs(EntriesFor(sc, delegates, path), v, h) <==>
            v in path && Eligible(sc, v) && h in delegates && h.selector.Some? && (h.selector.value, v) in sc.sat
  {
    if path != [] {
      EntriesMean(sc, delegates, path[1..], v, h);
      MatchingMeans(sc, delegates, path[0], h);
      var here, rest := MatchingAt(sc, delegates, path[0]), EntriesFor(sc, delegates, path[1..]);
      var first := EntryFor(sc, delegates, path[0]);
      RunsSplit(first, rest, v, h);
      assert v in path <==> v == path[0] || v in path[1..];
      assert Runs(first, v, h) <==> Eligible(sc, path[0]) && v == path[0] && h in here by {
        if Eligible(sc, path[0]) && v == path[0] && h in here { assert first[0].elem == v; }
      }
    }
  }

  lemma RunsSplit(a: seq<Entry>, b: seq<Entry>, v: Node, h: HandleObj)
    ensures Runs(a + b, v, h) <==> Runs(a, v, h) || Runs(b, v, h)
  {
    if Runs(a, v, h) {
      var i :| 0 <= i < |a| && a[i].elem == v && h in a[i].handlers;
      assert (a + b)[i] == a[i];
    }
    if Runs(b, v, h) {
      var i :| 0 <= i < |b| && b[i].elem == v && h in b[i].handlers;
      assert (a + b)[|a| + i] == b[i];
    }
  }

  // ---- Which nodes the walk visits ----

  ghost predicate AtOrAbove(t: Tree, u: Node, v: Node)
    requires t.Shaped()
  {
    u == v || Combinators.Ancestor(t, u, v)
  }

  /** `v` is the target or above it, and strictly below the bound element if that is the target or above it. */
  ghost predicate OnTheWay(t: Tree, v: Node, target: Node, this_: Node)
    requires t.Shaped()
  {
    AtOrAbove(t, v, target) && (AtOrAbove(t, this_, target) ==> Combinators.Ancestor(t, this_, v))
  }

  lemma AncestorStep(t: Tree, u: Node, v: Node)
    requires t.Valid() && t.Has(u) && t.Has(v)
    ensures Combinators.Ancestor(t, u, v) <==> t.parent[v].Some? && t.Has(t.parent[v].value) && AtOrAbove(t, u, t.parent[v].value)
  {
    assert t.UpLink(v);
    Combinators.ReachesParents(t, u, v);
    if t.parent[v].Some? { Combinators.ReachesParents(t, u, t.parent[v].value); }
  }

  lemma NotAboveItself(t: Tree, u: Node, v: Node)
    requires t.Valid() && t.Has(u) && t.Has(v) && AtOrAbove(t, v, u)
    ensures !Combinators.Ancestor(t, u, v)
  {
    Combinators.ReachesParents(t, u, v);
    Combinators.ReachesParents(t, v, u);
    if Reaches(t, ParentNode, u, v) { Combinators.ReachesShallower(t, u, v); }
    if Reaches(t, ParentNode, v, u) { Combinators.ReachesShallower(t, v, u); }
  }

  /** The walk visits exactly the nodes on the way. */
  lemma {:induction false} ClimbMeans(sc: Scene, target: Node, this_: Node, v: Node)
    requires sc.tree.Valid() && sc.tree.Has(target) && sc.tree.Has(this_) && sc.tree.Has(v)
    ensures v in Climb(sc, target, this_) <==> OnTheWay(sc.tree, v, target, this_)
    decreases sc.tree.Steps(ParentNode, target)
  {
    var t := sc.tree;
    AncestorStep(t, v, target);
    AncestorStep(t, this_, target);
    assert t.UpLink(target);
    if target == this_ {
      if AtOrAbove(t, v, target) { NotAboveItself(t, this_, v); }
    } else {
      match t.Next(ParentNode, target)
      case None =>
      case Some(u) =>
        ClimbMeans(sc, u, this_, v);
        if v == target && AtOrAbove(t, v, u) { NotAboveItself(t, u, v); }
    }
  }

  /** The handlers queued at a node keep the order of the list. */
  lemma {:induction false} MatchingInOrder(sc: Scene, a: seq<HandleObj>, b: seq<HandleObj>, v: Node)
    ensures MatchingAt(sc, a + b, v) == MatchingAt(sc, a, v) + MatchingAt(sc, b, v)
    decreases |b|
  {
    if b == [] {
      assert a + b == a;
    } else {
      MatchingInOrder(sc, a, b[..|b|-1], v);
      assert (a + b)[..|a+b|-1] == a + b[..|b|-1];
    }
  }

  /** The direct handlers run last, on the bound element, in list order. */
  lemma DirectMeans(hs: Handlers, this_: Node)
    requires Partitioned(hs)
    ensures var q := DirectEntries(hs, this_);
            && |q| <= 1 && (forall i :: 0 <= i < |q| ==> q[i].elem == this_ && q[i].handlers != [])
            && (if q == [] then [] else q[0].handlers) == Select(hs.list, Direct)
  {
    var d := hs.delegateCount;
    assert hs.list == hs.list[..d] + hs.list[d..];
    SelectSplit(hs.list[..d], hs.list[d..], Direct);
    SelectNothingNew(hs.list[d..], Direct);
    SelectNone(hs.list[..d]);
  }

  lemma {:induction false} SelectNone(hs: seq<HandleObj>)
    requires forall i :: 0 <= i < |hs| ==> hs[i].selector.Some?
    ensures Select(hs, Direct) == []
  {
    if hs != [] { SelectNone(hs[..|hs|-1]); }
  }

  /** Delegated handlers run deepest node first, and a handler runs on a node exactly when the node lies on the
      way from the target up to the bound element, is an element and not a disabled one that is clicked, and is selected
      by the handler's selector. */
  lemma QueueMeans(sc: Scene, hs: Handlers, target: Node, this_: Node, v: Node, h: HandleObj)
    requires sc.tree.Valid() && sc.tree.Has(target) && sc.tree.Has(this_) && sc.tree.Has(v) && Partitioned(hs)
    ensures DeepestFirst(sc.tree, DelegatedEntries(sc, hs, target, this_))
    ensures Runs(DelegatedEntries(sc, hs, target, this_), v, h) <==>
            && !(sc.button && sc.click) && OnTheWay(sc.tree, v, target, this_)
            && sc.tree.kind[v] == Element && !(v in sc.disabled && sc.click)
            && h in hs.list && h.selector.Some? && (h.selector.value, v) in sc.sat
  {
    var delegates := hs.list[..hs.delegateCount];
    ClimbMeans(sc, target, this_, v);
    assert h in hs.list && h.selector.Some? <==> h in delegates;
    if !(sc.button && sc.click) {
      EntriesFall(sc, delegates, Climb(sc, target, this_));
      EntriesMean(sc, delegates, Climb(sc, target, this_), v, h);
    }
  }
}
