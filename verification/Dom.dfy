/** The document tree the selector engine walks: nodes are numbers, and the links
    `parentNode`, `childNodes` and `previousSibling` are lookups in tables. */
module Dom {

  datatype Option<+T> = None | Some(value: T)

  type Node = nat

  /** `nodeType`, as far as the engine distinguishes it: 1 is an element, 9 a document. */
  datatype Kind = Element | Document | Other

  /** The two properties a combinator walks along. */
  datatype Dir = ParentNode | PreviousSibling

  /** `depth` (distance from the root) and `pos` (index in the parent's `childNodes`)
      are determined by the links; `Valid` ties them together, which rules out cycles. */
  datatype Tree = Tree(kind: seq<Kind>, parent: seq<Option<Node>>, kids: seq<seq<Node>>,
                       depth: seq<nat>, pos: seq<nat>)
  {
    predicate Has(v: Node) {
      v < |kind|
    }

    ghost predicate Shaped() {
      |kind| == |parent| == |kids| == |depth| == |pos|
    }

    ghost predicate UpLink(v: Node)
      requires Shaped() && Has(v)
    {
      match parent[v]
      case None => depth[v] == 0 && pos[v] == 0
      case Some(p) => Has(p) && depth[v] == depth[p] + 1 && pos[v] < |kids[p]| && kids[p][pos[v]] == v
    }

    ghost predicate DownLinks(p: Node)
      requires Shaped() && Has(p)
    {
      && (kids[p] == [] || kind[p] == Element || parent[p] == None)
      && forall i :: 0 <= i < |kids[p]| ==>
           Has(kids[p][i]) && parent[kids[p][i]] == Some(p) && pos[kids[p][i]] == i
    }

    /** Links agree in both directions; only elements and parentless nodes
        (documents, fragments) have children. */
    ghost predicate Valid() {
      && Shaped()
      && (forall v: Node {:trigger UpLink(v)} :: Has(v) ==> UpLink(v))
      && (forall p: Node {:trigger DownLinks(p)} :: Has(p) ==> DownLinks(p))
    }

    predicate IsElement(v: Node)
      requires Has(v)
    {
      kind[v] == Element
    }

    /** `elem.parentNode` */
    function Parent(v: Node): (r: Option<Node>)
      requires Valid() && Has(v)
      ensures r.Some? ==> Has(r.value) && pos[v] < |kids[r.value]| && kids[r.value][pos[v]] == v
    {
      assert UpLink(v);
      parent[v]
    }

    /** `elem[dir]` */
    function Next(dir: Dir, v: Node): (r: Option<Node>)
      requires Valid() && Has(v)
      ensures r.Some? <==> Steps(dir, v) > 0
      ensures r.Some? ==> Has(r.value) && Steps(dir, r.value) == Steps(dir, v) - 1 && Before(r.value, v)
    {
      assert UpLink(v);
      match dir
      case ParentNode => parent[v]
      case PreviousSibling =>
        if pos[v] == 0 then None else
        assert DownLinks(parent[v].value);
        var left := kids[parent[v].value][pos[v] - 1];
        assert UpLink(left);
        Some(left)
    }

    /** How often one can still step in direction `dir`. */
    function Steps(dir: Dir, v: Node): nat
      requires Valid() && Has(v)
    {
      match dir
      case ParentNode => depth[v]
      case PreviousSibling => pos[v]
    }

    /** Every step, in either direction, goes to an earlier node. */
    predicate Before(u: Node, v: Node)
      requires Valid() && Has(u) && Has(v)
    {
      depth[u] < depth[v] || (depth[u] == depth[v] && pos[u] < pos[v])
    }
  }
}
