/** `:nth-child` and its relatives: positions among siblings, the caches that speed them up,
    and the test "some k >= 0 has position a*k + b" (section 6.6.5.2 of Selectors Level 3). */
module NthChild {
  import opened Dom

  /** How siblings are walked and which are counted: by node type, or by node name for -of-type. */
  datatype Walker = Walker(tree: Tree, names: seq<string>, ofType: bool, forward: bool)
  {
    ghost predicate Valid() {
      tree.Valid() && |names| == |tree.kind|
    }

    /** Does sibling `k` count for the position of `v`? */
    predicate Counts(k: Node, v: Node)
      requires Valid() && tree.Has(k) && tree.Has(v)
    {
      if ofType then names[k] == names[v] else tree.IsElement(k)
    }

    /** The children of `p` in walking order. */
    function Walk(p: Node): (w: seq<Node>)
      requires Valid() && tree.Has(p)
      ensures |w| == |tree.kids[p]|
    {
      var ks := tree.kids[p];
      if forward then ks else seq(|ks|, i requires 0 <= i < |ks| => ks[|ks| - 1 - i])
    }

    /** Where `v` stands in its parent's walk. */
    function Place(v: Node): (i: nat)
      requires Valid() && tree.Has(v) && tree.Parent(v).Some?
      ensures i < |Walk(tree.Parent(v).value)| && Walk(tree.Parent(v).value)[i] == v
    {
      if forward then tree.pos[v] else |tree.kids[tree.Parent(v).value]| - 1 - tree.pos[v]
    }

    /** `parent.firstChild` or `parent.lastChild` */
    function StartOf(p: Node): (r: Option<Node>)
      requires Valid() && tree.Has(p)
      ensures r == if Walk(p) == [] then None else Some(Walk(p)[0])
    {
      var ks := tree.kids[p];
      if ks == [] then None else Some(if forward then ks[0] else ks[|ks| - 1])
    }

    /** `node[ dir ]` */
    function After(v: Node): (r: Option<Node>)
      requires Valid() && tree.Has(v) && tree.Parent(v).Some?
      ensures var w := Walk(tree.Parent(v).value);
              r == if Place(v) + 1 == |w| then None else Some(w[Place(v) + 1])
    {
      var ks, i := tree.kids[tree.Parent(v).value], tree.pos[v];
      if forward then (if i + 1 < |ks| then Some(ks[i+1]) else None)
      else (if i > 0 then Some(ks[i-1]) else None)
    }

    lemma WalkLinks(p: Node, i: nat)
      requires Valid() && tree.Has(p) && i < |Walk(p)|
      ensures tree.Has(Walk(p)[i]) && tree.Parent(Walk(p)[i]) == Some(p) && Place(Walk(p)[i]) == i
    {
      assert tree.DownLinks(p);
    }

    /** How many of the first `n` children in walking order count. */
    ghost function CountFirst(p: Node, n: nat, v: Node): nat
      requires Valid() && tree.Has(p) && tree.Has(v) && n <= |Walk(p)|
    {
      if n == 0 then 0 else
      WalkLinks(p, n - 1);
      CountFirst(p, n - 1, v) + if Counts(Walk(p)[n-1], v) then 1 else 0
    }

    /** The 1-based position of `v` among its siblings. */
    ghost function Position(v: Node): nat
      requires Valid() && tree.Has(v) && tree.Parent(v).Some?
    {
      CountFirst(tree.Parent(v).value, Place(v) + 1, v)
    }

    /** The siblings that count and are at or before `v` in walking order. */
    ghost function UpToHere(v: Node): set<Node>
      requires Valid() && tree.Has(v) && tree.Parent(v).Some?
    {
      set u: Node | u < |tree.kind| && tree.parent[u] == tree.parent[v]
        && (if forward then tree.pos[u] <= tree.pos[v] else tree.pos[u] >= tree.pos[v])
        && (if ofType then names[u] == names[v] else tree.kind[u] == Element)
    }

    ghost function CountedFirst(p: Node, n: nat, v: Node): set<Node>
      requires Valid() && tree.Has(p) && tree.Has(v) && n <= |Walk(p)|
    {
      set i | 0 <= i < n && tree.Has(Walk(p)[i]) && Counts(Walk(p)[i], v) :: Walk(p)[i]
    }

    lemma CountedStep(p: Node, n: nat, v: Node)
      requires Valid() && tree.Has(p) && tree.Has(v) && 0 < n <= |Walk(p)|
      ensures var last, front := Walk(p)[n-1], CountedFirst(p, n - 1, v);
              && tree.Has(last) && last !in front
              && CountedFirst(p, n, v) == if Counts(last, v) then front + {last} else front
    {
      WalkLinks(p, n - 1);
      var last := Walk(p)[n-1];
      forall i | 0 <= i < n - 1 ensures Walk(p)[i] != last { WalkLinks(p, i); }
    }

    lemma {:induction false} CountIsSize(p: Node, n: nat, v: Node)
      requires Valid() && tree.Has(p) && tree.Has(v) && n <= |Walk(p)|
      ensures CountFirst(p, n, v) == |CountedFirst(p, n, v)|
    {
      if n > 0 {
        CountIsSize(p, n - 1, v);
        CountedStep(p, n, v);
      }
    }

    /** The position of `v` is the number of siblings, itself included, that count and are not behind it. */
    lemma PositionIsSize(v: Node)
      requires Valid() && tree.Has(v) && tree.Parent(v).Some?
      ensures Position(v) == |UpToHere(v)|
    {
      var p := tree.Parent(v).value;
      CountIsSize(p, Place(v) + 1, v);
      assert tree.DownLinks(p) && tree.UpLink(v);
      forall u: Node | tree.Has(u) && tree.parent[u] == Some(p)
        ensures u in UpToHere(v) <==> u in CountedFirst(p, Place(v) + 1, v)
      {
        assert tree.UpLink(u);
        assert Walk(p)[Place(u)] == u;
        if u in CountedFirst(p, Place(v) + 1, v) {
          var i :| 0 <= i < Place(v) + 1 && Walk(p)[i] == u;
          WalkLinks(p, i);
        }
      }
      forall u | u in CountedFirst(p, Place(v) + 1, v) ensures u in UpToHere(v) {
        var i :| 0 <= i < Place(v) + 1 && Walk(p)[i] == u;
        WalkLinks(p, i);
      }
      assert UpToHere(v) == CountedFirst(p, Place(v) + 1, v);
    }

    lemma {:induction false} CountIgnoresWho(p: Node, n: nat, v: Node, u: Node)
      requires Valid() && !ofType && tree.Has(p) && tree.Has(v) && tree.Has(u) && n <= |Walk(p)|
      ensures CountFirst(p, n, v) == CountFirst(p, n, u)
    {
      if n > 0 {
        WalkLinks(p, n - 1);
        CountIgnoresWho(p, n - 1, v, u);
      }
    }
  }

  /** `[ dirruns, nodeIndex, diff ]` on a parent, `[ dirruns, diff ]` on an element. */
  datatype IndexEntry = IndexEntry(run: nat, nodeIndex: nat, diff: nat)
  datatype ElementEntry = ElementEntry(run: nat, diff: nat)

  class PositionCache {
    var dirruns: nat
    var onParent: map<Node, IndexEntry>
    var onElement: map<Node, ElementEntry>

    ghost predicate Aged()
      reads this
    {
      && (forall p :: p in onParent ==> onParent[p].run <= dirruns)
      && (forall v :: v in onElement ==> onElement[v].run <= dirruns)
    }

    /** A new outermost run, possibly over a changed document: what is cached is stale but harmless. */
    method BeginRun(w: Walker)
      requires w.Valid() && Aged()
      modifies this`dirruns
      ensures Valid(w) && dirruns == old(dirruns) + 1
    {
      dirruns := dirruns + 1;
    }

    /** Entries of the current run name an element child and its position; what
        earlier runs left behind may be anything. */
    ghost predicate Valid(w: Walker)
      requires w.Valid()
      reads this
    {
      var fwd, back := w.(ofType := false, forward := true), w.(ofType := false, forward := false);
      && Aged()
      && (forall p :: p in onParent && onParent[p].run == dirruns ==> IndexOk(fwd, p, onParent[p]))
      && (forall v :: v in onElement && onElement[v].run == dirruns ==> ElementOk(back, v, onElement[v]))
    }

    static ghost predicate IndexOk(w: Walker, p: Node, e: IndexEntry)
      requires w.Valid()
    {
      && w.tree.Has(p) && e.nodeIndex < |w.Walk(p)|
      && w.tree.Has(w.Walk(p)[e.nodeIndex])
      && e.diff == w.CountFirst(p, e.nodeIndex + 1, p)
    }

    static ghost predicate ElementOk(w: Walker, v: Node, e: ElementEntry)
      requires w.Valid()
    {
      w.tree.Has(v) && w.tree.Parent(v).Some? && e.diff == w.Position(v)
    }

    /** Leaves an index and its position on a parent. */
    method RememberIndex(w: Walker, p: Node, nodeIndex: nat, diff: nat)
      requires w.Valid() && Valid(w) && !w.ofType && w.forward
      requires IndexOk(w, p, IndexEntry(dirruns, nodeIndex, diff))
      modifies this`onParent
      ensures Valid(w) && onParent == old(onParent)[p := IndexEntry(dirruns, nodeIndex, diff)]
    {
      onParent := onParent[p := IndexEntry(dirruns, nodeIndex, diff)];
    }

    /** What the parent remembers, if it is of this run; zero stands for `false`. */
    method CachedIndex(w: Walker, p: Node, ghost elem: Node) returns (nodeIndex: nat, diff: nat)
      requires w.Valid() && Valid(w) && !w.ofType && w.forward && w.tree.Has(p) && w.tree.Has(elem)
      ensures nodeIndex != 0 ==> nodeIndex < |w.Walk(p)| && diff == w.CountFirst(p, nodeIndex + 1, elem)
    {
      nodeIndex, diff := 0, 0;
      if p in onParent && onParent[p].run == dirruns {
        nodeIndex, diff := onParent[p].nodeIndex, onParent[p].diff;
        w.CountIgnoresWho(p, nodeIndex + 1, elem, p);
      }
    }

    /** `:nth-child` outside XML: seek from the index cached on the parent, wrapping around once. */
    method SeekFromIndex(w: Walker, elem: Node) returns (diff: nat)
      requires w.Valid() && !w.ofType && w.forward && Valid(w)
      requires w.tree.Has(elem) && w.tree.Parent(elem).Some? && w.tree.IsElement(elem)
      modifies this`onParent
      ensures Valid(w) && diff == w.Position(elem)
      ensures onParent == old(onParent)[w.tree.Parent(elem).value := IndexEntry(dirruns, w.Place(elem), diff)]
    {
      var parent := w.tree.Parent(elem).value;
      var start := w.StartOf(parent);
      var nodeIndex: nat;
      nodeIndex, diff := CachedIndex(w, parent, elem);
      var node := if nodeIndex != 0 then Some(w.tree.kids[parent][nodeIndex]) else None;
      while true
        invariant node.Some? ==> nodeIndex < |w.Walk(parent)| && node.value == w.Walk(parent)[nodeIndex]
        invariant node.Some? ==> diff == w.CountFirst(parent, nodeIndex + 1, elem)
        invariant node.None? ==> start.Some?
        invariant start.Some? ==> start == w.StartOf(parent)
        invariant start.None? ==> nodeIndex < w.Place(elem)
        invariant onParent == old(onParent)
        decreases start.Some?, if node.Some? then |w.Walk(parent)| - nodeIndex else 0
      {
        nodeIndex := nodeIndex + 1;
        if node.Some? {
          w.WalkLinks(parent, nodeIndex - 1);
          node := w.After(node.value);
        }
        if node.None? {
          diff, nodeIndex, node, start := 0, 0, start, None;
        }
        w.WalkLinks(parent, nodeIndex);
        if w.tree.IsElement(node.value) {
          diff := diff + 1;
          if node.value == elem {
            w.CountIgnoresWho(parent, nodeIndex + 1, elem, parent);
            RememberIndex(w, parent, nodeIndex, diff);
            return;
          }
        }
      }
    }

    /** Leaves its position on an element. */
    method Remember(w: Walker, v: Node, diff: nat)
      requires w.Valid() && Valid(w) && !w.ofType && !w.forward
      requires ElementOk(w, v, ElementEntry(dirruns, diff))
      modifies this`onElement
      ensures Valid(w) && onElement == old(onElement)[v := ElementEntry(dirruns, diff)]
    {
      onElement := onElement[v := ElementEntry(dirruns, diff)];
    }

    /** All other forms count from the first (last) child; outside XML and without -of-type the
        position of every element passed is left on it. */
    method SeekFromStart(w: Walker, elem: Node, xml: bool) returns (diff: nat)
      requires w.Valid() && Valid(w) && !(w.forward && !xml && !w.ofType)
      requires w.tree.Has(elem) && w.tree.Parent(elem).Some? && w.tree.IsElement(elem)
      modifies this`onElement
      ensures Valid(w) && diff == w.Position(elem)
    {
      var useCache := !xml && !w.ofType;
      if useCache && elem in onElement && onElement[elem].run == dirruns {
        return onElement[elem].diff;
      }
      var parent := w.tree.Parent(elem).value;
      var node := w.StartOf(parent);
      ghost var i := 0;
      diff := 0;
      while node.Some?
        invariant 0 <= i <= w.Place(elem)
        invariant node == Some(w.Walk(parent)[i])
        invariant diff == w.CountFirst(parent, i, elem)
        invariant Valid(w)
        decreases |w.Walk(parent)| - i
      {
        w.WalkLinks(parent, i);
        if w.Counts(node.value, elem) {
          diff := diff + 1;
          if useCache {
            w.CountIgnoresWho(parent, i + 1, elem, node.value);
            Remember(w, node.value, diff);
          }
          if node.value == elem { return; }
        }
        node := w.After(node.value);
        i := i + 1;
      }
    }

    /** `Expr.filter.CHILD` for the nth-* types. */
    method Accepts(w: Walker, elem: Node, xml: bool, first: int, last: int) returns (r: bool)
      requires w.Valid() && Valid(w) && w.tree.Has(elem) && w.tree.IsElement(elem)
      modifies this`onParent, this`onElement
      ensures Valid(w)
      ensures r <==> w.tree.Parent(elem).Some? && Progression(w.Position(elem), first, last)
    {
      if first == 1 && last == 0 {
        r := w.tree.Parent(elem).Some?;
        if r {
          assert w.Position(elem) == first * w.Position(elem) + last;
        }
        return;
      }
      if w.tree.Parent(elem).None? { return false; }
      var diff: int;
      if w.forward && !xml && !w.ofType {
        diff := SeekFromIndex(w, elem);
      } else {
        diff := SeekFromStart(w, elem, xml);
      }
      TestMeansProgression(diff, first, last);
      diff := diff - last;
      r := diff == first || (RemainderIsZero(diff, first) && QuotientNotNegative(diff, first));
    }
  }

  // ---- The arithmetic ----

  /** The positions the selector means: a*k + b for some k >= 0. */
  ghost predicate Progression(position: int, a: int, b: int) {
    exists k: nat :: position == a * k + b
  }

  /** JavaScript's `%` takes the sign of the dividend; `x % 0` is NaN. */
  function JsRemainder(x: int, y: int): Option<int> {
    var m := if y < 0 then -y else y;
    if m == 0 then None else Some(if x >= 0 then x % m else -((-x) % m))
  }

  predicate RemainderIsZero(x: int, y: int) {
    JsRemainder(x, y) == Some(0)
  }

  /** `x / y >= 0`, asked only when y is not zero. */
  predicate QuotientNotNegative(x: int, y: int)
    requires RemainderIsZero(x, y)
  {
    (x as real) / (y as real) >= 0.0
  }

  /** The final test of a position. */
  predicate PassesTest(position: int, first: int, last: int) {
    var diff := position - last;
    diff == first || (RemainderIsZero(diff, first) && QuotientNotNegative(diff, first))
  }

  lemma DividesBySize(x: int, m: int)
    requires m > 0 && x >= 0
    ensures x % m == 0 ==> x == m * (x / m)
  {
  }

  lemma MultipleIsLarge(m: nat, t: int)
    requires t >= 1
    ensures m * t >= m
  {
    assert m * t == m + m * (t - 1);
  }

  lemma SmallMultipleIsZero(m: nat, t: int)
    requires 0 <= m * t < m
    ensures t == 0
  {
    if t >= 1 { MultipleIsLarge(m, t); }
    if t <= -1 { MultipleIsLarge(m, -t); }
  }

  lemma MultipleHasNoRemainder(m: nat, k: nat)
    requires m > 0
    ensures m * k >= 0 && (m * k) % m == 0
  {
    var x := m * k;
    var q, r := x / m, x % m;
    assert x == m * q + r;
    assert m * (k - q) == m * k - m * q;
    SmallMultipleIsZero(m, k - q);
  }

  lemma QuotientSign(x: int, y: int)
    requires y != 0
    ensures (x as real) / (y as real) >= 0.0 <==> x == 0 || (x > 0 <==> y > 0)
  {
    var q := (x as real) / (y as real);
    assert q * (y as real) == x as real;
    if q > 0.0 && y > 0 { assert q * (y as real) > 0.0; }
    if q > 0.0 && y < 0 { assert q * (y as real) < 0.0; }
    if q < 0.0 && y > 0 { assert q * (y as real) < 0.0; }
    if q < 0.0 && y < 0 { assert q * (y as real) > 0.0; }
  }

  /** The test accepts exactly the positions a*k + b, whatever the signs of a and b. */
  lemma TestMeansProgression(position: int, first: int, last: int)
    ensures PassesTest(position, first, last) <==> Progression(position, first, last)
  {
    var diff := position - last;
    if diff == first {
      assert position == first * 1 + last;
    } else if first == 0 {
      assert forall k: nat :: first * k == 0;
    } else {
      QuotientSign(diff, first);
      var m, d := if first < 0 then -first else first, if diff < 0 then -diff else diff;
      if PassesTest(position, first, last) {
        DividesBySize(d, m);
        var k := d / m;
        assert d == m * k && k >= 0;
        assert diff == first * k;
        assert position == first * k + last;
      }
      if k: nat :| position == first * k + last {
        assert diff == first * k;
        assert d == m * k;
        MultipleHasNoRemainder(m, k);
        assert k > 0 ==> (first > 0 ==> first * k > 0) && (first < 0 ==> first * k < 0);
      }
    }
  }
}
