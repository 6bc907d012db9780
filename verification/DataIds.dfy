/** The ids that tie elements to `jQuery.cache`: allocation, the free list, and `cleanData`, which
    may be entered again through the removal of its own element's events. */
module DataIds {
  import opened Dom

  /** What `jQuery.cache[ id ]` holds: the types in its `events` object, other private properties, and the
      properties of the public `data` object. */
  datatype Data = Data(events: Option<set<nat>>, priv: set<nat>, pub: Option<set<nat>>)
  {
    /** `isEmptyDataObject` */
    predicate IsEmpty() {
      events.None? && priv == {} && (pub.None? || pub.value == {})
    }

    function Types(): set<nat> {
      if events.Some? then events.value else {}
    }
  }

  function Written(d: Data, name: nat, pvt: bool): Data {
    if pvt then d.(priv := d.priv + {name})
    else d.(pub := Some((if d.pub.Some? then d.pub.value else {}) + {name}))
  }

  /** What `removeData` is told to remove. */
  datatype Removal = EventsOnly | Private(names: set<nat>) | Public(names: set<nat>) | AllPrivate | AllPublic

  /** The data left by a removal, or None if the element is to be cleaned: nothing is left, or everything was
      to go. */
  function Reduced(d: Data, what: Removal): Option<Data> {
    var rest := match what
      case EventsOnly => d.(events := None)
      case Private(names) => d.(priv := d.priv - names)
      case Public(names) =>
        if d.pub.Some? && d.pub.value - names != {} then d.(pub := Some(d.pub.value - names)) else d.(pub := None)
      case AllPublic => d.(pub := None)
      case AllPrivate => NO_DATA;
    if rest.IsEmpty() then None else Some(rest)
  }

  const NO_DATA := Data(None, {}, None)

  /** The names of the public data. */
  function PublicNames(d: Data): set<nat> {
    if d.pub.Some? then d.pub.value else {}
  }

  /** Writing adds the name to its side and changes nothing else. */
  lemma WrittenMeans(d: Data, name: nat, pvt: bool)
    ensures var now := Written(d, name, pvt);
            && now.events == d.events
            && (forall n :: n in now.priv <==> n in d.priv || (pvt && n == name))
            && (forall n :: n in PublicNames(now) <==> n in PublicNames(d) || (!pvt && n == name))
  {
  }

  /** Does the removal take the private (public) property `n`? */
  predicate Takes(what: Removal, n: nat, pvt: bool) {
    if pvt then what.AllPrivate? || (what.Private? && n in what.names)
    else what.AllPublic? || what.AllPrivate? || (what.Public? && n in what.names)
  }

  /** Exactly the named properties go. The element is cleaned if and only if everything was to go or nothing is left. */
  lemma ReducedMeans(d: Data, what: Removal)
    ensures Reduced(d, what).Some? ==>
              var now := Reduced(d, what).value;
              && now.events == (if what.EventsOnly? then None else d.events)
              && (forall n :: n in now.priv <==> n in d.priv && !Takes(what, n, true))
              && (forall n :: n in PublicNames(now) <==> n in PublicNames(d) && !Takes(what, n, false))
    ensures Reduced(d, what).None? <==>
              || what.AllPrivate?
              || (&& (d.events.None? || what.EventsOnly?)
                  && (forall n :: n in d.priv ==> Takes(what, n, true))
                  && (forall n :: n in PublicNames(d) ==> Takes(what, n, false)))
  {
    var rest := match what
      case EventsOnly => d.(events := None)
      case Private(names) => d.(priv := d.priv - names)
      case Public(names) =>
        if d.pub.Some? && d.pub.value - names != {} then d.(pub := Some(d.pub.value - names)) else d.(pub := None)
      case AllPublic => d.(pub := None)
      case AllPrivate => NO_DATA;
    assert forall n :: n in rest.priv <==> n in d.priv && !Takes(what, n, true);
    assert forall n :: n in PublicNames(rest) <==> n in PublicNames(d) && !Takes(what, n, false);
    assert rest.priv == {} <==> forall n :: n in d.priv ==> Takes(what, n, true);
    assert PublicNames(rest) == {} <==> forall n :: n in PublicNames(d) ==> Takes(what, n, false);
  }

  /** `jQuery.guid`, `core_deletedIds`, `elem[ expando ]`, `jQuery.cache`, and, as observations, the element behind
      each id and all ids ever given to an element. */
  datatype Store = Store(guid: nat, deletedIds: seq<nat>, idOf: map<Node, nat>, cache: map<nat, Data>, owner: map<nat, Node>,
                         given: set<nat>)
  {
    /** No two live elements share an id, live and freed ids are disjoint, no id is freed twice, and all are below
        `guid`; an element has an id exactly as long as the cache holds data under it. Ids are neither lost nor
        invented: those ever given out are the live and the freed ones. */
    ghost predicate Consistent() {
      && guid >= 1
      && cache.Keys == owner.Keys
      && (forall e :: e in idOf ==> 1 <= idOf[e] < guid && idOf[e] in owner && owner[idOf[e]] == e)
      && (forall id :: id in owner ==> owner[id] in idOf && idOf[owner[id]] == id)
      && (forall k :: 0 <= k < |deletedIds| ==> 1 <= deletedIds[k] < guid && deletedIds[k] !in cache)
      && (forall j, k :: 0 <= j < k < |deletedIds| ==> deletedIds[j] != deletedIds[k])
      && Accounted()
    }

    ghost predicate Accounted() {
      forall id :: id in given <==> id in cache || id in deletedIds
    }

    /** The id the next element gets: the one freed last, else a new one. */
    function NextId(): nat {
      if deletedIds != [] then deletedIds[|deletedIds|-1] else guid
    }

    ghost function Allocated(e: Node): Store {
      if e in idOf then this else
      var id := NextId();
      Store(if deletedIds != [] then guid else guid + 1, if deletedIds != [] then deletedIds[..|deletedIds|-1] else [],
            idOf[e := id], cache[id := NO_DATA], owner[id := e], given + {id})
    }

    ghost function WithData(e: Node, d: Data): Store
      requires e in idOf
    {
      this.(cache := cache[idOf[e] := d])
    }

    ghost function DataOf(e: Node): Data {
      if e in idOf && idOf[e] in cache then cache[idOf[e]] else NO_DATA
    }

    /** The element gives up its data and its id. */
    ghost function Cleaned(e: Node): Store {
      if e !in idOf then this else
      Store(guid, deletedIds + [idOf[e]], idOf - {e}, cache - {idOf[e]}, owner - {idOf[e]}, given)
    }

    ghost function Removed(e: Node, what: Removal): Store {
      if e !in idOf || idOf[e] !in cache then this else
      match Reduced(cache[idOf[e]], what)
      case None => Cleaned(e)
      case Some(d) => WithData(e, d)
    }

    ghost function EventRemoved(e: Node, t: nat, emptied: bool): Store {
      if e !in idOf || idOf[e] !in cache || t !in cache[idOf[e]].Types() || !emptied then this else
      var d := cache[idOf[e]];
      if d.events.value != {t} then WithData(e, d.(events := Some(d.events.value - {t})))
      else Removed(e, EventsOnly)
    }

    ghost function AllCleaned(elems: seq<Node>, accepts: set<Node>): Store
      decreases |elems|
    {
      if elems == [] then this else
      var rest := AllCleaned(elems[..|elems|-1], accepts);
      if elems[|elems|-1] in accepts then rest.Cleaned(elems[|elems|-1]) else rest
    }

    lemma AllocatedKeeps(e: Node)
      requires Consistent()
      ensures Allocated(e).Consistent() && e in Allocated(e).idOf
    {
      if e !in idOf {
        assert Allocated(e).Accounted() by { AllocatedAccounts(e); }
        if deletedIds != [] { assert deletedIds[|deletedIds|-1] !in cache; }
      }
    }

    lemma AllocatedAccounts(e: Node)
      requires Accounted() && e !in idOf
      ensures Allocated(e).Accounted()
    {
      if deletedIds != [] {
        var n := |deletedIds| - 1;
        assert deletedIds == deletedIds[..n] + [deletedIds[n]];
      }
    }

    lemma WithDataKeeps(e: Node, d: Data)
      requires Consistent() && e in idOf
      ensures WithData(e, d).Consistent()
    {
    }

    lemma CleanedKeeps(e: Node)
      requires Consistent()
      ensures Cleaned(e).Consistent() && e !in Cleaned(e).idOf
    {
    }

    lemma CleanedForgets(e: Node, d: Data)
      requires e in idOf
      ensures WithData(e, d).Cleaned(e) == Cleaned(e)
    {
      assert cache[idOf[e] := d] - {idOf[e]} == cache - {idOf[e]};
    }

    /** A removal leaves what `Reduced` says, or cleans the element; other elements keep their data. */
    lemma RemovedMeans(e: Node, what: Removal, other: Node)
      requires Consistent() && e in idOf
      ensures var left, now := Reduced(DataOf(e), what), Removed(e, what);
              && (left.None? ==> e !in now.idOf && idOf[e] in now.deletedIds)
              && (left.Some? ==> e in now.idOf && now.DataOf(e) == left.value)
              && (other != e ==> now.DataOf(other) == DataOf(other) && (other in now.idOf <==> other in idOf))
    {
      if Reduced(DataOf(e), what).None? {
        assert (deletedIds + [idOf[e]])[|deletedIds|] == idOf[e];
      }
    }

    /** When the last handler of a type is gone the type goes; with the last type the `events` object goes, and with the
        last data the element is cleaned. */
    lemma EventRemovedMeans(e: Node, t: nat)
      requires Consistent() && e in idOf && t in DataOf(e).Types()
      ensures var d, now := DataOf(e), EventRemoved(e, t, true);
              && EventRemoved(e, t, false) == this
              && (d.Types() != {t} ==> e in now.idOf && now.DataOf(e) == d.(events := Some(d.Types() - {t})))
              && (d.Types() == {t} && !d.(events := None).IsEmpty() ==> e in now.idOf && now.DataOf(e) == d.(events := None))
              && (d.Types() == {t} && d.(events := None).IsEmpty() ==> e !in now.idOf)
    {
    }

    /** The id an element gives up is the next one to be given out, before any new one. */
    lemma IdIsRecycled(e: Node, other: Node)
      requires Consistent() && e in idOf && other !in idOf
      ensures var now := Cleaned(e).Allocated(other);
              other in now.idOf && now.idOf[other] == idOf[e] && now.guid == guid && now.deletedIds == deletedIds
    {
    }

    /** With nothing on the free list the id is new. */
    lemma IdIsNew(e: Node)
      requires Consistent() && e !in idOf && deletedIds == []
      ensures var now := Allocated(e);
              now.idOf == idOf[e := guid] && guid !in given && now.guid == guid + 1 && now.given == given + {guid}
    {
    }

    /** Whether the last event type is taken out of the `events` object first makes no difference. */
    lemma EventsEmptied(e: Node, t: nat)
      requires Consistent() && e in idOf && t in cache[idOf[e]].Types()
      requires cache[idOf[e]].events.value - {t} == {}
      ensures var d := cache[idOf[e]];
              && d.events.value == {t}
              && WithData(e, d.(events := Some(d.events.value - {t}))).Removed(e, EventsOnly) == Removed(e, EventsOnly)
    {
      var d := cache[idOf[e]];
      assert d.events.value == {t};
      var e1 := d.(events := Some({}));
      assert d.events.value - {t} == {} && Reduced(e1, EventsOnly) == Reduced(d, EventsOnly);
      CleanedForgets(e, e1);
    }

    lemma {:induction false} AllCleanedKeeps(elems: seq<Node>, accepts: set<Node>)
      requires Consistent()
      ensures AllCleaned(elems, accepts).Consistent()
      decreases |elems|
    {
      if elems != [] {
        AllCleanedKeeps(elems[..|elems|-1], accepts);
        AllCleaned(elems[..|elems|-1], accepts).CleanedKeeps(elems[|elems|-1]);
      }
    }

    /** Exactly the accepted elements lose their ids, and what was free stays free. */
    lemma {:induction false} AllCleanedFrees(elems: seq<Node>, accepts: set<Node>)
      ensures AllCleaned(elems, accepts).idOf.Keys == idOf.Keys - set e | e in elems && e in accepts
      ensures deletedIds <= AllCleaned(elems, accepts).deletedIds && AllCleaned(elems, accepts).given == given
      decreases |elems|
    {
      if elems != [] {
        var front, last := elems[..|elems|-1], elems[|elems|-1];
        AllCleanedFrees(front, accepts);
        assert forall e :: e in elems <==> e in front || e == last;
      }
    }
  }

  /** `b` is `a` with the data of `e` changed, or with `e` cleaned once, or `a` itself. */
  ghost predicate Trimmed(a: Store, b: Store, e: Node) {
    || b == a || b == a.Cleaned(e)
    || (e in a.idOf && a.idOf[e] in b.cache && b == a.WithData(e, b.cache[a.idOf[e]]))
  }

  lemma TrimmedTwice(a: Store, b: Store, c: Store, e: Node)
    requires a.Consistent() && Trimmed(a, b, e) && Trimmed(b, c, e)
    ensures Trimmed(a, c, e)
  {
  }

  lemma EventRemovedTrims(a: Store, e: Node, t: nat, emptied: bool)
    requires a.Consistent()
    ensures Trimmed(a, a.EventRemoved(e, t, emptied), e)
    ensures Work(a.EventRemoved(e, t, emptied), e) <= Work(a, e)
  {
  }

  /** An element that still has data is cleaned now; one that has none has been cleaned already. */
  lemma CleanedAtLast(a: Store, b: Store, e: Node)
    requires a.Consistent() && e in a.idOf && Trimmed(a, b, e)
    ensures var id := a.idOf[e];
            if id in b.cache
            then Store(b.guid, b.deletedIds + [id], b.idOf - {e}, b.cache - {id}, b.owner - {id}, b.given) == a.Cleaned(e)
            else b == a.Cleaned(e)
  {
    var id := a.idOf[e];
    if id in b.cache && b != a {
      assert b.cache - {id} == a.cache - {id};
    }
  }

  /** How much event removal an element may still need. */
  ghost function Work(s: Store, e: Node): nat {
    if e in s.idOf && s.idOf[e] in s.cache && s.cache[s.idOf[e]].events.Some?
    then 1 + |s.cache[s.idOf[e]].events.value| else 0
  }

  class DataStore {
    /** event types with special hooks; those hooks do not touch the store */
    const special: set<nat>
    var guid: nat
    var deletedIds: seq<nat>
    var idOf: map<Node, nat>
    var cache: map<nat, Data>
    ghost var owner: map<nat, Node>
    ghost var given: set<nat>

    ghost function S(): Store
      reads this
    {
      Store(guid, deletedIds, idOf, cache, owner, given)
    }

    ghost predicate Valid()
      reads this
    {
      S().Consistent()
    }

    constructor (special: set<nat>)
      ensures Valid() && idOf == map[] && deletedIds == [] && given == {} && this.special == special
    {
      this.special := special;
      guid, deletedIds, idOf, cache, owner, given := 1, [], map[], map[], map[], {};
    }

    /** Handlers take numbers from the same counter. */
    method NewGuid() returns (g: nat)
      requires Valid()
      modifies this`guid
      ensures Valid() && g == old(guid) && guid == old(guid) + 1
    {
      g := guid;
      guid := guid + 1;
    }

    /** The part of `internalData` that gives an element its id. */
    method EnsureId(e: Node) returns (id: nat)
      requires Valid()
      modifies this
      ensures S() == old(S()).Allocated(e) && e in idOf && id == idOf[e]
      ensures Valid()
    {
      S().AllocatedKeeps(e);
      if e in idOf { return idOf[e]; }
      if deletedIds != [] {
        id := deletedIds[|deletedIds|-1];
        deletedIds := deletedIds[..|deletedIds|-1];
      } else {
        id := guid;
        guid := guid + 1;
      }
      idOf := idOf[e := id];
      cache := cache[id := NO_DATA];
      owner := owner[id := e];
      given := given + {id};
      assert S() == old(S()).Allocated(e);
    }

    /** Changes the data object of an element that has one. */
    method Replace(e: Node, d: Data)
      requires Valid() && e in idOf
      modifies this`cache
      ensures S() == old(S()).WithData(e, d)
      ensures Valid()
    {
      S().WithDataKeeps(e, d);
      cache := cache[idOf[e] := d];
    }

    /** `internalData` with a value */
    method SetData(e: Node, name: nat, pvt: bool)
      requires Valid()
      modifies this
      ensures S() == old(S()).Allocated(e).WithData(e, Written(old(S()).DataOf(e), name, pvt))
      ensures Valid()
    {
      var id := EnsureId(e);
      Replace(e, Written(cache[id], name, pvt));
    }

    /** The part of `event.add` that touches the data of the element */
    method AddEvent(e: Node, t: nat)
      requires Valid()
      modifies this
      ensures Valid()
      ensures var d := old(S()).DataOf(e);
              S() == old(S()).Allocated(e).WithData(e, d.(events := Some(d.Types() + {t})))
    {
      var id := EnsureId(e);
      Replace(e, cache[id].(events := Some(cache[id].Types() + {t})));
    }

    /** `event.remove( elem, type )`; `emptied` says whether no handler of the type is left. */
    method RemoveEvent(e: Node, t: nat, emptied: bool)
      requires Valid()
      modifies this
      ensures S() == old(S()).EventRemoved(e, t, emptied)
      ensures Valid()
      decreases Work(S(), e), 2
    {
      if e in idOf && t in cache[idOf[e]].Types() && emptied {
        var d := cache[idOf[e]];
        Replace(e, d.(events := Some(d.events.value - {t})));
        if d.events.value - {t} == {} {
          old(S()).EventsEmptied(e, t);
          RemoveData(e, EventsOnly, {});
        }
      }
    }

    /** `removeData`; `emptied` are the event types that event removal leaves without handlers. */
    method RemoveData(e: Node, what: Removal, emptied: set<nat>)
      requires Valid()
      modifies this
      ensures S() == old(S()).Removed(e, what)
      ensures Valid()
      decreases Work(S(), e), 4
    {
      if e !in idOf { return; }
      var d := cache[idOf[e]];
      var goOn := true;
      match what {
        case EventsOnly =>
          d := d.(events := None);
          goOn := d.IsEmpty();
        case Private(names) =>
          d := d.(priv := d.priv - names);
          goOn := d.IsEmpty();
        case Public(names) =>
          if d.pub.Some? && d.pub.value - names != {} {
            d := d.(pub := Some(d.pub.value - names));
            goOn := false;
          } else {
            d := d.(pub := None);
            goOn := d.IsEmpty();
          }
        case AllPublic =>
          d := d.(pub := None);
          goOn := d.IsEmpty();
        case AllPrivate =>
      }
      S().CleanedForgets(e, d);
      Replace(e, d);
      if goOn {
        CleanOne(e, emptied);
      }
    }

    /** What `cleanData` does for one element. */
    method CleanOne(e: Node, emptied: set<nat>)
      requires Valid()
      modifies this
      ensures S() == old(S()).Cleaned(e)
      ensures Valid()
      decreases Work(S(), e), 3
    {
      if e !in idOf { return; }
      ghost var before := S();
      var id := idOf[e];
      var types := cache[id].Types();
      while types != {}
        invariant Valid() && Trimmed(before, S(), e) && Work(S(), e) <= Work(before, e)
        decreases types
      {
        var t :| t in types;
        types := types - {t};
        if t in special {
          ghost var mid := S();
          RemoveEvent(e, t, t in emptied);
          EventRemovedTrims(mid, e, t, t in emptied);
          TrimmedTwice(before, mid, S(), e);
        }
      }
      before.CleanedKeeps(e);
      CleanedAtLast(before, S(), e);
      // Removing the last event may have cleaned the element already.
      if id in cache {
        cache := cache - {id};
        owner := owner - {id};
        idOf := idOf - {e};
        deletedIds := deletedIds + [id];
      }
      assert S() == before.Cleaned(e);
    }

    /** `cleanData` */
    method CleanData(elems: seq<Node>, accepts: set<Node>, emptied: set<nat>)
      requires Valid()
      modifies this
      ensures S() == old(S()).AllCleaned(elems, accepts)
      ensures Valid()
    {
      var i := 0;
      while i < |elems|
        invariant 0 <= i <= |elems| && Valid() && S() == old(S()).AllCleaned(elems[..i], accepts)
      {
        assert elems[..i+1][..i] == elems[..i];
        if elems[i] in accepts {
          CleanOne(elems[i], emptied);
        }
        i := i + 1;
      }
      assert elems[..i] == elems;
    }
  }
}
