/** Document order: preorder of the tree, and the comparator that finds it from parent and
    sibling links. */
module DocumentOrder {
  import opened Dom

  /** The ancestors of `v` from the root down, and `v` itself. */
  ghost function Path(t: Tree, v: Node): (p: seq<Node>)
    requires t.Valid() && t.Has(v)
    ensures |p| == t.depth[v] + 1 && p[t.depth[v]] == v
    ensures forall i :: 0 <= i < |p| ==> t.Has(p[i])
    decreases t.depth[v]
  {
    assert t.UpLink(v);
    match t.parent[v]
    case None => [v]
    case Some(u) => Path(t, u) + [v]
  }

  ghost predicate InDocument(t: Tree, doc: Node, v: Node)
    requires t.Valid()
  {
    t.Has(v) && Path(t, v)[0] == doc
  }

  /** The child indices that lead from the root to `v`. */
  ghost function Address(t: Tree, v: Node): (a: seq<nat>)
    requires t.Valid() && t.Has(v)
    ensures |a| == t.depth[v]
    decreases t.depth[v]
  {
    assert t.UpLink(v);
    match t.parent[v]
    case None => []
    case Some(u) => Address(t, u) + [t.pos[v]]
  }

  // ---- Preorder ----

  ghost function Highest(s: seq<nat>): (m: nat)
    ensures forall i :: 0 <= i < |s| ==> s[i] <= m
  {
    if s == [] then 0 else
    var rest := Highest(s[1..]);
    assert forall i :: 1 <= i < |s| ==> s[i] == s[1..][i-1];
    if s[0] > rest then s[0] else rest
  }

  /** The subtree at `v`, each node before its children and the children from left to right. */
  ghost function Preorder(t: Tree, v: Node): (s: seq<Node>)
    requires t.Valid() && t.Has(v)
    decreases Highest(t.depth) - t.depth[v], |t.kids[v]| + 1
  {
    [v] + PreorderFrom(t, v, 0)
  }

  ghost function PreorderFrom(t: Tree, v: Node, i: nat): (s: seq<Node>)
    requires t.Valid() && t.Has(v) && i <= |t.kids[v]|
    decreases Highest(t.depth) - t.depth[v], |t.kids[v]| - i
  {
    if i == |t.kids[v]| then [] else
    assert t.DownLinks(v) && t.UpLink(t.kids[v][i]);
    Preorder(t, t.kids[v][i]) + PreorderFrom(t, v, i + 1)
  }

  // ---- Lexicographic order of addresses ----

  ghost predicate Lex(a: seq<nat>, b: seq<nat>) {
    if b == [] then false
    else if a == [] then true
    else a[0] < b[0] || (a[0] == b[0] && Lex(a[1..], b[1..]))
  }

  lemma {:induction false} LexIrreflexive(a: seq<nat>)
    ensures !Lex(a, a)
    decreases |a|
  {
    if a != [] { LexIrreflexive(a[1..]); }
  }

  lemma {:induction false} LexTransitive(a: seq<nat>, b: seq<nat>, c: seq<nat>)
    requires Lex(a, b) && Lex(b, c)
    ensures Lex(a, c)
    decreases |a|
  {
    if a != [] && a[0] == b[0] == c[0] { LexTransitive(a[1..], b[1..], c[1..]); }
  }

  lemma {:induction false} LexTotal(a: seq<nat>, b: seq<nat>)
    requires a != b
    ensures Lex(a, b) || Lex(b, a)
    decreases |a|
  {
    if a != [] && b != [] && a[0] == b[0] {
      assert a == [a[0]] + a[1..] && b == [b[0]] + b[1..];
      LexTotal(a[1..], b[1..]);
    }
  }

  /** The first difference decides; a proper prefix comes first. */
  lemma {:induction false} LexAt(a: seq<nat>, b: seq<nat>, i: nat)
    requires i <= |a| && i <= |b| && a[..i] == b[..i]
    requires i == |a| || i == |b| || a[i] != b[i]
    ensures Lex(a, b) <==> i < |b| && (i == |a| || a[i] < b[i])
    decreases i
  {
    if i > 0 {
      assert a[0] == a[..i][0] == b[..i][0] == b[0];
      assert a[1..][..i-1] == a[..i][1..] == b[..i][1..] == b[1..][..i-1];
      LexAt(a[1..], b[1..], i - 1);
    }
  }

  // ---- Preorder lists the subtree in address order ----

  ghost predicate Below(t: Tree, v: Node, u: Node)
    requires t.Valid() && t.Has(v)
  {
    t.Has(u) && t.depth[v] <= t.depth[u] && Path(t, u)[t.depth[v]] == v
  }

  ghost predicate Ascending(t: Tree, s: seq<Node>)
    requires t.Valid()
  {
    && (forall i :: 0 <= i < |s| ==> t.Has(s[i]))
    && forall i, j :: 0 <= i < j < |s| ==> Lex(Address(t, s[i]), Address(t, s[j]))
  }

  /** A path is made of parents, and records the same indices as the address. */
  lemma {:induction false} PathStep(t: Tree, v: Node, i: nat)
    requires t.Valid() && t.Has(v) && i < t.depth[v]
    ensures t.Has(Path(t, v)[i+1]) && t.parent[Path(t, v)[i+1]] == Some(Path(t, v)[i])
    ensures t.pos[Path(t, v)[i+1]] == Address(t, v)[i]
    ensures t.depth[Path(t, v)[i]] == i
    decreases t.depth[v]
  {
    assert t.UpLink(v);
    var u := t.parent[v].value;
    if i < t.depth[u] { PathStep(t, u, i); }
  }

  /** Nodes on a common path prefix share their address prefix, and conversely. */
  lemma {:induction false} PathFixesAddress(t: Tree, a: Node, b: Node, i: nat)
    requires t.Valid() && t.Has(a) && t.Has(b) && i <= t.depth[a] && i <= t.depth[b]
    requires Path(t, a)[0] == Path(t, b)[0]
    ensures Path(t, a)[i] == Path(t, b)[i] <==> Address(t, a)[..i] == Address(t, b)[..i]
    decreases i
  {
    if i > 0 {
      PathFixesAddress(t, a, b, i - 1);
      PathStep(t, a, i - 1);
      PathStep(t, b, i - 1);
      assert Address(t, a)[..i] == Address(t, a)[..i-1] + [Address(t, a)[i-1]];
      assert Address(t, b)[..i] == Address(t, b)[..i-1] + [Address(t, b)[i-1]];
      var x, y := Path(t, a)[i], Path(t, b)[i];
      assert t.UpLink(x) && t.UpLink(y);
      assert Address(t, a)[i-1] == t.pos[x] && Address(t, b)[i-1] == t.pos[y];
    }
  }

  lemma {:induction false} PreorderIsSubtree(t: Tree, v: Node, u: Node)
    requires t.Valid() && t.Has(v)
    ensures u in Preorder(t, v) <==> Below(t, v, u)
    decreases Highest(t.depth) - t.depth[v], |t.kids[v]| + 1
  {
    PreorderFromIsSubtree(t, v, 0, u);
    if k: nat :| k < |t.kids[v]| && t.Has(t.kids[v][k]) && Below(t, t.kids[v][k], u) {
      BelowChild(t, v, k, u);
    } else if u in Preorder(t, v) {
      assert u == v;
    } else if Below(t, v, u) {
      assert t.depth[v] < t.depth[u];
      PathStep(t, u, t.depth[v]);
      var c := Path(t, u)[t.depth[v] + 1];
      assert t.UpLink(c);
      assert Below(t, t.kids[v][t.pos[c]], u);
    }
  }

  lemma BelowChild(t: Tree, v: Node, k: nat, u: Node)
    requires t.Valid() && t.Has(v) && k < |t.kids[v]| && t.Has(t.kids[v][k]) && Below(t, t.kids[v][k], u)
    ensures Below(t, v, u)
  {
    assert t.DownLinks(v) && t.UpLink(t.kids[v][k]);
    PathStep(t, u, t.depth[v]);
  }

  lemma {:induction false} PreorderFromIsSubtree(t: Tree, v: Node, i: nat, u: Node)
    requires t.Valid() && t.Has(v) && i <= |t.kids[v]|
    ensures u in PreorderFrom(t, v, i) <==> exists k :: i <= k < |t.kids[v]| && t.Has(t.kids[v][k]) && Below(t, t.kids[v][k], u)
    decreases Highest(t.depth) - t.depth[v], |t.kids[v]| - i
  {
    if i < |t.kids[v]| {
      assert t.DownLinks(v) && t.UpLink(t.kids[v][i]);
      PreorderIsSubtree(t, t.kids[v][i], u);
      PreorderFromIsSubtree(t, v, i + 1, u);
    }
  }

  /** Two nodes below different children of `v`: the earlier child's comes first. */
  lemma ChildrenInOrder(t: Tree, v: Node, i: nat, k: nat, a: Node, b: Node)
    requires t.Valid() && t.Has(v) && i < k < |t.kids[v]|
    requires t.Has(t.kids[v][i]) && Below(t, t.kids[v][i], a)
    requires t.Has(t.kids[v][k]) && Below(t, t.kids[v][k], b)
    ensures Lex(Address(t, a), Address(t, b))
  {
    var d := t.depth[v];
    BelowChild(t, v, i, a);
    BelowChild(t, v, k, b);
    assert t.DownLinks(v) && t.UpLink(t.kids[v][i]) && t.UpLink(t.kids[v][k]);
    PathStep(t, a, d);
    PathStep(t, b, d);
    SamePathStart(t, a, b, d);
    LexAt(Address(t, a), Address(t, b), d);
  }

  lemma {:induction false} SamePathStart(t: Tree, a: Node, b: Node, i: nat)
    requires t.Valid() && t.Has(a) && t.Has(b) && i <= t.depth[a] && i <= t.depth[b]
    requires Path(t, a)[i] == Path(t, b)[i]
    ensures Path(t, a)[0] == Path(t, b)[0]
    ensures Address(t, a)[..i] == Address(t, b)[..i]
    decreases i
  {
    if i > 0 {
      PathStep(t, a, i - 1);
      PathStep(t, b, i - 1);
      SamePathStart(t, a, b, i - 1);
      assert Address(t, a)[..i] == Address(t, a)[..i-1] + [Address(t, a)[i-1]];
      assert Address(t, b)[..i] == Address(t, b)[..i-1] + [Address(t, b)[i-1]];
    }
  }

  lemma {:induction false} PreorderAscends(t: Tree, v: Node)
    requires t.Valid() && t.Has(v)
    ensures Ascending(t, Preorder(t, v))
    decreases Highest(t.depth) - t.depth[v], |t.kids[v]| + 1
  {
    PreorderFromAscends(t, v, 0);
    var s, rest := Preorder(t, v), PreorderFrom(t, v, 0);
    forall j | 0 <= j < |rest| ensures t.Has(rest[j]) && Lex(Address(t, v), Address(t, rest[j])) {
      PreorderFromIsSubtree(t, v, 0, rest[j]);
      var k: nat :| k < |t.kids[v]| && t.Has(t.kids[v][k]) && Below(t, t.kids[v][k], rest[j]);
      BelowChild(t, v, k, rest[j]);
      assert t.DownLinks(v) && t.UpLink(t.kids[v][k]);
      SamePathStart(t, v, rest[j], t.depth[v]);
      LexAt(Address(t, v), Address(t, rest[j]), t.depth[v]);
    }
  }

  lemma {:induction false} PreorderFromAscends(t: Tree, v: Node, i: nat)
    requires t.Valid() && t.Has(v) && i <= |t.kids[v]|
    ensures Ascending(t, PreorderFrom(t, v, i))
    decreases Highest(t.depth) - t.depth[v], |t.kids[v]| - i
  {
    if i < |t.kids[v]| {
      assert t.DownLinks(v) && t.UpLink(t.kids[v][i]);
      var c := t.kids[v][i];
      PreorderAscends(t, c);
      PreorderFromAscends(t, v, i + 1);
      var left, right := Preorder(t, c), PreorderFrom(t, v, i + 1);
      forall x, y | 0 <= x < |left| && 0 <= y < |right|
        ensures Lex(Address(t, left[x]), Address(t, right[y]))
      {
        PreorderIsSubtree(t, c, left[x]);
        PreorderFromIsSubtree(t, v, i + 1, right[y]);
        var k: nat :| i + 1 <= k < |t.kids[v]| && t.Has(t.kids[v][k]) && Below(t, t.kids[v][k], right[y]);
        ChildrenInOrder(t, v, i, k, left[x], right[y]);
      }
      AscendingAppend(t, left, right);
    }
  }

  lemma AscendingAppend(t: Tree, left: seq<Node>, right: seq<Node>)
    requires t.Valid() && Ascending(t, left) && Ascending(t, right)
    requires forall x, y :: 0 <= x < |left| && 0 <= y < |right| ==> Lex(Address(t, left[x]), Address(t, right[y]))
    ensures Ascending(t, left + right)
  {
    var s := left + right;
    forall i, j | 0 <= i < j < |s| ensures t.Has(s[i]) && t.Has(s[j]) && Lex(Address(t, s[i]), Address(t, s[j])) {
      if i < |left| <= j {
        assert s[i] == left[i] && s[j] == right[j - |left|];
      } else if i >= |left| {
        assert s[i] == right[i - |left|] && s[j] == right[j - |left|];
      }
    }
  }

  // ---- Document order ----

  /** `a` comes before `b` in the preorder listing of the document. */
  ghost predicate Precedes(t: Tree, doc: Node, a: Node, b: Node)
    requires t.Valid() && t.Has(doc)
  {
    var s := Preorder(t, doc);
    exists i, j :: 0 <= i < j < |s| && s[i] == a && s[j] == b
  }

  /** The listing holds exactly the nodes of the document, and its order is that of the addresses. */
  lemma PrecedesIsLex(t: Tree, doc: Node, a: Node, b: Node)
    requires t.Valid() && t.Has(doc) && t.parent[doc] == None
    requires InDocument(t, doc, a) && InDocument(t, doc, b)
    ensures Precedes(t, doc, a, b) <==> Lex(Address(t, a), Address(t, b))
  {
    assert t.UpLink(doc);
    PreorderIsSubtree(t, doc, a);
    PreorderIsSubtree(t, doc, b);
    PreorderAscends(t, doc);
    var s := Preorder(t, doc);
    var i :| 0 <= i < |s| && s[i] == a;
    var j :| 0 <= j < |s| && s[j] == b;
    if Lex(Address(t, a), Address(t, b)) {
      LexIrreflexive(Address(t, a));
      if j < i {
        LexTransitive(Address(t, a), Address(t, b), Address(t, a));
      }
    }
  }

  /** Preorder is a strict total order on the nodes of the document. */
  lemma PreorderIsTotal(t: Tree, doc: Node, a: Node, b: Node, c: Node)
    requires t.Valid() && t.Has(doc) && t.parent[doc] == None
    requires InDocument(t, doc, a) && InDocument(t, doc, b) && InDocument(t, doc, c)
    ensures !Precedes(t, doc, a, a)
    ensures Precedes(t, doc, a, b) && Precedes(t, doc, b, c) ==> Precedes(t, doc, a, c)
    ensures a != b ==> (Precedes(t, doc, a, b) <==> !Precedes(t, doc, b, a))
  {
    PrecedesIsLex(t, doc, a, a);
    PrecedesIsLex(t, doc, a, b);
    PrecedesIsLex(t, doc, b, a);
    PrecedesIsLex(t, doc, b, c);
    PrecedesIsLex(t, doc, a, c);
    var x, y, z := Address(t, a), Address(t, b), Address(t, c);
    LexIrreflexive(x);
    if Lex(x, y) && Lex(y, z) { LexTransitive(x, y, z); }
    if Lex(x, y) && Lex(y, x) { LexTransitive(x, y, x); }
    if a != b {
      SameAddressSameNode(t, a, b);
      LexTotal(x, y);
    }
  }

  lemma SameAddressSameNode(t: Tree, a: Node, b: Node)
    requires t.Valid() && t.Has(a) && t.Has(b) && Path(t, a)[0] == Path(t, b)[0]
    requires a != b
    ensures Address(t, a) != Address(t, b)
  {
    if Address(t, a) == Address(t, b) {
      PathFixesAddress(t, a, b, t.depth[a]);
    }
  }

  /** Ancestors come before their descendants. */
  lemma AncestorsFirst(t: Tree, doc: Node, a: Node, b: Node)
    requires t.Valid() && t.Has(doc) && t.parent[doc] == None && InDocument(t, doc, a)
    requires Below(t, a, b) && a != b
    ensures Precedes(t, doc, a, b)
  {
    SamePathStart(t, a, b, t.depth[a]);
    PrecedesIsLex(t, doc, a, b);
    LexAt(Address(t, a), Address(t, b), t.depth[a]);
  }
}
