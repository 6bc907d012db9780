/** `sortOrder` without `compareDocumentPosition`, and `uniqueSort`. */
module Sorting {
  import opened Dom
  import opened DocumentOrder

  /** What a comparator should return: the sign of the document order. */
  ghost function Order(t: Tree, doc: Node, a: Node, b: Node): int
    requires t.Valid() && t.Has(doc)
  {
    if a == b then 0 else if Precedes(t, doc, a, b) then -1 else 1
  }

  /** In document order with equal neighbours allowed, as a sort leaves it. */
  ghost predicate Sorted(t: Tree, doc: Node, s: seq<Node>)
    requires t.Valid() && t.Has(doc)
  {
    forall i, j :: 0 <= i < j < |s| ==> Order(t, doc, s[i], s[j]) <= 0
  }

  ghost predicate StrictlySorted(t: Tree, doc: Node, s: seq<Node>)
    requires t.Valid() && t.Has(doc)
  {
    forall i, j :: 0 <= i < j < |s| ==> Precedes(t, doc, s[i], s[j])
  }

  predicate IsRepeat(s: seq<Node>, k: nat)
    requires k < |s|
  {
    k > 0 && s[k] == s[k-1]
  }

  /** The elements from index `from` on that do not repeat their neighbour. */
  ghost function Keep(s: seq<Node>, from: nat): (r: seq<Node>)
    requires from <= |s|
    decreases |s| - from
  {
    if from == |s| then []
    else (if IsRepeat(s, from) then [] else [s[from]]) + Keep(s, from + 1)
  }

  class Sorter {
    const t: Tree
    const doc: Node
    var hasDuplicate: bool
    var results: seq<Node>

    constructor (t: Tree, doc: Node)
      ensures this.t == t && this.doc == doc
    {
      this.t, this.doc := t, doc;
      hasDuplicate, results := false, [];
    }

    ghost predicate Valid() {
      t.Valid() && t.Has(doc) && t.parent[doc] == None
    }

    ghost predicate Inside(v: Node)
      requires Valid()
    {
      InDocument(t, doc, v)
    }

    /** Checks document order of two siblings; `None` stands for an undefined argument. */
    method SiblingCheck(a: Option<Node>, b: Option<Node>) returns (r: int)
      requires Valid() && (a.Some? ==> t.Has(a.value)) && (b.Some? ==> t.Has(b.value))
      requires a.Some? && b.Some? ==> a != b && t.Parent(a.value) == t.Parent(b.value) != None
      requires a.Some? || b.Some?
      ensures a.None? ==> r == -1
      ensures a.Some? && b.None? ==> r == 1
      ensures a.Some? && b.Some? ==> r == if t.pos[a.value] < t.pos[b.value] then -1 else 1
    {
      if a.Some? && b.Some? {
        var p := t.Parent(a.value).value;
        ghost var other := t.Parent(b.value);
        var i := t.pos[a.value];
        assert t.DownLinks(p);
        while i + 1 < |t.kids[p]|
          invariant t.pos[a.value] <= i < |t.kids[p]|
          invariant forall k :: t.pos[a.value] < k <= i ==> t.kids[p][k] != b.value
        {
          i := i + 1;
          if t.kids[p][i] == b.value { return -1; }
        }
      }
      r := if a.Some? then 1 else -1;
    }

    /** Lists the ancestors of `a` by unshifting parents. */
    method Ancestors(a: Node) returns (ap: seq<Node>)
      requires Valid() && t.Has(a)
      ensures ap == Path(t, a)
    {
      ap := [a];
      var cur := a;
      while t.Parent(cur).Some?
        invariant t.Has(cur) && ap != [] && ap[0] == cur
        invariant Path(t, a) == Path(t, cur) + ap[1..]
        decreases t.depth[cur]
      {
        assert t.UpLink(cur);
        var up := t.Parent(cur).value;
        assert Path(t, cur) == Path(t, up) + [cur];
        cur := up;
        ap := [cur] + ap;
        assert ap[1..] == [ap[1]] + ap[2..];
      }
      assert t.UpLink(cur);
    }

    /** The fallback `sortOrder`. */
    method Compare(a: Node, b: Node) returns (r: int)
      requires Valid() && Inside(a) && Inside(b)
      modifies this`hasDuplicate
      ensures r == Order(t, doc, a, b)
      ensures hasDuplicate == (old(hasDuplicate) || a == b)
    {
      var aup, bup := t.Parent(a), t.Parent(b);
      if a == b {
        hasDuplicate := true;
        return 0;
      }
      DocumentIsRoot(t, doc, a);
      DocumentIsRoot(t, doc, b);
      if aup.None? || bup.None? {
        if a == doc {
          AncestorsFirst(t, doc, a, b);
          return -1;
        }
        assert b == doc;  // the remaining branches are for detached nodes
        AncestorsFirst(t, doc, b, a);
        PreorderIsTotal(t, doc, a, b, a);
        return 1;
      }
      if aup == bup {
        r := SiblingCheck(Some(a), Some(b));
        assert t.UpLink(a) && t.UpLink(b);
        DecidedAt(t, doc, a, b, t.depth[a]);
        return;
      }
      var ap := Ancestors(a);
      var bp := Ancestors(b);
      var i := 0;
      while i < |ap| && i < |bp| && ap[i] == bp[i]
        invariant 0 <= i <= |ap| && i <= |bp|
        invariant forall k :: 0 <= k < i ==> ap[k] == bp[k]
      {
        i := i + 1;
      }
      assert !(i == |ap| && i == |bp|) by {
        assert |ap| == |bp| ==> ap[|ap|-1] != bp[|ap|-1];
      }
      if i < |ap| && i < |bp| {
        PathStep(t, a, i - 1);
        PathStep(t, b, i - 1);
      }
      r := SiblingCheck(if i < |ap| then Some(ap[i]) else None, if i < |bp| then Some(bp[i]) else None);
      DecidedAt(t, doc, a, b, i);
    }

    /** The indices of elements that repeat their left neighbour. */
    method RepeatIndices() returns (duplicates: seq<nat>)
      ensures forall k :: 0 <= k < |results| ==> (IsRepeat(results, k) <==> k in duplicates)
      ensures forall x :: 0 <= x < |duplicates| ==> duplicates[x] < |results|
      ensures forall x, y :: 0 <= x < y < |duplicates| ==> duplicates[x] < duplicates[y]
    {
      duplicates := [];
      var i := 0;
      while i < |results|
        invariant 0 <= i <= |results|
        invariant forall x :: 0 <= x < |duplicates| ==> duplicates[x] <= i && duplicates[x] < |results|
        invariant forall x, y :: 0 <= x < y < |duplicates| ==> duplicates[x] < duplicates[y]
        invariant forall k :: 0 <= k <= i && k < |results| ==> (IsRepeat(results, k) <==> k in duplicates)
      {
        var elem := results[i];
        i := i + 1;
        if i < |results| && elem == results[i] {
          duplicates := duplicates + [i];
        }
      }
    }

    /** Splices the listed elements out, last first, so that the earlier indices stay right. */
    method SpliceOut(duplicates: seq<nat>)
      requires forall k :: 0 <= k < |results| ==> (IsRepeat(results, k) <==> k in duplicates)
      requires forall x :: 0 <= x < |duplicates| ==> duplicates[x] < |results|
      requires forall x, y :: 0 <= x < y < |duplicates| ==> duplicates[x] < duplicates[y]
      modifies this`results
      ensures results == Keep(old(results), 0)
    {
      ghost var order := results;
      var j := |duplicates|;
      ghost var cut := |order|;
      while j > 0
        invariant 0 <= j <= |duplicates| && 0 <= cut <= |order|
        invariant results == order[..cut] + Keep(order, cut)
        invariant forall k :: 0 <= k < cut && IsRepeat(order, k) ==> k in duplicates[..j]
        invariant forall x :: 0 <= x < j ==> duplicates[x] < cut
      {
        j := j - 1;
        var d := duplicates[j];
        assert duplicates[..j+1] == duplicates[..j] + [d];
        KeepRun(order, d + 1, cut);
        assert results[..d] == order[..d];
        assert results[d+1..] == order[d+1..cut] + Keep(order, cut);
        results := results[..d] + results[d+1..];
        cut := d;
      }
      KeepRun(order, 0, cut);
      assert order[0..cut] == order[..cut];
    }

    /** The built-in sort asks the comparator about the pairs `asked` and makes `order` of `results`. It learns how
        elements compare only by asking, so neighbours of its outcome are in order by an answer it got. */
    method UniqueSort(detectDuplicates: bool, asked: seq<(Node, Node)>, order: seq<Node>)
      requires Valid() && forall i :: 0 <= i < |order| ==> Inside(order[i])
      requires forall i :: 0 <= i < |asked| ==> Inside(asked[i].0) && Inside(asked[i].1)
      requires multiset(order) == multiset(results)
      requires forall k :: 0 < k < |order| ==> Answered(t, doc, asked, order[k-1], order[k])
      modifies this
      ensures StrictlySorted(t, doc, results)
      ensures forall v :: v in results <==> v in old(results)
    {
      hasDuplicate := !detectDuplicates;
      assert forall v :: v in results <==> v in multiset(order);
      AskAll(asked);
      results := order;
      SortedByNeighbours(t, doc, asked, order);
      if hasDuplicate {
        var duplicates := RepeatIndices();
        SpliceOut(duplicates);
      } else {
        NoneRepeats(t, doc, asked, order);
        KeepAll(order, 0);
      }
      KeepIsStrict(t, doc, order, 0);
      KeepSameSet(order, 0);
    }

    /** The calls of the comparator. */
    method AskAll(asked: seq<(Node, Node)>)
      requires Valid() && forall i :: 0 <= i < |asked| ==> Inside(asked[i].0) && Inside(asked[i].1)
      modifies this`hasDuplicate
      ensures hasDuplicate <==> old(hasDuplicate) || exists i :: 0 <= i < |asked| && asked[i].0 == asked[i].1
    {
      var i := 0;
      while i < |asked|
        invariant 0 <= i <= |asked|
        invariant hasDuplicate <==> old(hasDuplicate) || exists k :: 0 <= k < i && asked[k].0 == asked[k].1
      {
        var answer := Compare(asked[i].0, asked[i].1);
        i := i + 1;
      }
    }
  }

  /** Some answer of the comparator puts `a` before `b` or says they are equal. */
  ghost predicate Answered(t: Tree, doc: Node, asked: seq<(Node, Node)>, a: Node, b: Node)
    requires t.Valid() && t.Has(doc)
  {
    || ((a, b) in asked && Order(t, doc, a, b) <= 0)
    || ((b, a) in asked && Order(t, doc, b, a) >= 0)
  }

  /** The comparator is a total order, so a list whose neighbours are in order is sorted. */
  lemma SortedByNeighbours(t: Tree, doc: Node, asked: seq<(Node, Node)>, s: seq<Node>)
    requires t.Valid() && t.Has(doc) && t.parent[doc] == None && forall i :: 0 <= i < |s| ==> InDocument(t, doc, s[i])
    requires forall k :: 0 < k < |s| ==> Answered(t, doc, asked, s[k-1], s[k])
    ensures Sorted(t, doc, s)
  {
    forall i, j | 0 <= i < j < |s| ensures Order(t, doc, s[i], s[j]) <= 0 {
      InOrderUpTo(t, doc, asked, s, i, j);
    }
  }

  lemma {:induction false} InOrderUpTo(t: Tree, doc: Node, asked: seq<(Node, Node)>, s: seq<Node>, i: nat, j: nat)
    requires t.Valid() && t.Has(doc) && t.parent[doc] == None && forall k :: 0 <= k < |s| ==> InDocument(t, doc, s[k])
    requires forall k :: 0 < k < |s| ==> Answered(t, doc, asked, s[k-1], s[k])
    requires i < j < |s|
    ensures Order(t, doc, s[i], s[j]) <= 0
    decreases j
  {
    assert Answered(t, doc, asked, s[j-1], s[j]);
    PreorderIsTotal(t, doc, s[j-1], s[j], s[j]);
    if i < j - 1 {
      InOrderUpTo(t, doc, asked, s, i, j - 1);
      PreorderIsTotal(t, doc, s[i], s[j-1], s[j]);
    }
  }

  lemma NoneRepeats(t: Tree, doc: Node, asked: seq<(Node, Node)>, s: seq<Node>)
    requires t.Valid() && t.Has(doc)
    requires forall k :: 0 < k < |s| ==> Answered(t, doc, asked, s[k-1], s[k])
    requires !exists i :: 0 <= i < |asked| && asked[i].0 == asked[i].1
    ensures forall k :: 0 <= k < |s| ==> !IsRepeat(s, k)
  {
    forall k | 0 < k < |s| ensures s[k] != s[k-1] {
      assert Answered(t, doc, asked, s[k-1], s[k]);
    }
  }

  lemma DocumentIsRoot(t: Tree, doc: Node, v: Node)
    requires t.Valid() && t.Has(doc) && t.parent[doc] == None && InDocument(t, doc, v)
    ensures t.Parent(v) == None <==> v == doc
    ensures t.depth[doc] == 0 && Below(t, doc, v) && InDocument(t, doc, doc)
  {
    assert t.UpLink(v) && t.UpLink(doc);
  }

  /** The first index at which two paths differ decides the order. */
  lemma DecidedAt(t: Tree, doc: Node, a: Node, b: Node, i: nat)
    requires t.Valid() && t.Has(doc) && t.parent[doc] == None
    requires InDocument(t, doc, a) && InDocument(t, doc, b) && a != b
    requires var ap, bp := Path(t, a), Path(t, b);
             && 0 < i <= |ap| && i <= |bp| && ap[i-1] == bp[i-1]
             && (i == |ap| || i == |bp| || ap[i] != bp[i])
    ensures var ap, bp := Path(t, a), Path(t, b);
            Order(t, doc, a, b) ==
              if i == |ap| then -1 else if i == |bp| then 1
              else if t.pos[ap[i]] < t.pos[bp[i]] then -1 else 1
  {
    SamePathStart(t, a, b, i - 1);
    if i < |Path(t, a)| { PathStep(t, a, i - 1); }
    if i < |Path(t, b)| { PathStep(t, b, i - 1); }
    if i < |Path(t, a)| && i < |Path(t, b)| {
      assert t.UpLink(Path(t, a)[i]) && t.UpLink(Path(t, b)[i]);
    }
    LexAt(Address(t, a), Address(t, b), i - 1);
    PrecedesIsLex(t, doc, a, b);
  }

  lemma {:induction false} KeepAll(s: seq<Node>, from: nat)
    requires from <= |s| && forall k :: from <= k < |s| ==> !IsRepeat(s, k)
    ensures Keep(s, from) == s[from..]
    decreases |s| - from
  {
    if from < |s| { KeepAll(s, from + 1); }
  }

  lemma {:induction false} KeepRun(s: seq<Node>, lo: nat, hi: nat)
    requires lo <= hi <= |s| && forall k :: lo <= k < hi ==> !IsRepeat(s, k)
    ensures Keep(s, lo) == s[lo..hi] + Keep(s, hi)
    decreases hi - lo
  {
    if lo < hi { KeepRun(s, lo + 1, hi); }
  }

  lemma {:induction false} KeepSameSet(s: seq<Node>, from: nat)
    requires from <= |s|
    ensures forall v :: v in Keep(s, from) ==> v in s[from..]
    ensures forall v :: v in s[from..] ==> v in Keep(s, from) || (from > 0 && v == s[from-1])
    decreases |s| - from
  {
    if from < |s| {
      KeepSameSet(s, from + 1);
      assert s[from..] == [s[from]] + s[from+1..];
    }
  }

  /** One more element in front of a strictly sorted list. */
  lemma StrictlySortedCons(t: Tree, doc: Node, v: Node, s: seq<Node>)
    requires t.Valid() && t.Has(doc) && StrictlySorted(t, doc, s)
    requires forall i :: 0 <= i < |s| ==> Precedes(t, doc, v, s[i])
    ensures StrictlySorted(t, doc, [v] + s)
  {
    var now := [v] + s;
    forall i, j | 0 <= i < j < |now| ensures Precedes(t, doc, now[i], now[j]) {
      assert now[j] == s[j-1];
      if i > 0 { assert now[i] == s[i-1]; }
    }
  }

  lemma {:induction false} KeepIsStrict(t: Tree, doc: Node, s: seq<Node>, from: nat)
    requires t.Valid() && t.Has(doc) && t.parent[doc] == None && from <= |s|
    requires Sorted(t, doc, s) && forall i :: 0 <= i < |s| ==> InDocument(t, doc, s[i])
    ensures StrictlySorted(t, doc, Keep(s, from))
    ensures from > 0 ==> forall i :: 0 <= i < |Keep(s, from)| ==> Precedes(t, doc, s[from-1], Keep(s, from)[i])
    ensures forall i :: 0 <= i < |Keep(s, from)| ==> InDocument(t, doc, Keep(s, from)[i])
    decreases |s| - from
  {
    if from < |s| {
      KeepIsStrict(t, doc, s, from + 1);
      var rest := Keep(s, from + 1);
      if !IsRepeat(s, from) {
        StrictlySortedCons(t, doc, s[from], rest);
        if from > 0 {
          assert Order(t, doc, s[from-1], s[from]) <= 0;
          forall i | 0 <= i < |rest| ensures Precedes(t, doc, s[from-1], rest[i]) {
            PreorderIsTotal(t, doc, s[from-1], s[from], rest[i]);
          }
        }
      }
    }
  }
}
