/** The event handler table of one element: `jQuery.event.add` and `remove`. */
module Events {
  import opened Dom

  /** Event types, selectors and namespaces are known by numbers. */
  datatype HandleObj = HandleObj(origType: nat, guid: nat, namespace: nat, selector: Option<nat>)

  /** `events[ type ]`: an array with a `delegateCount` property */
  datatype Handlers = Handlers(list: seq<HandleObj>, delegateCount: int)

  /** The selector argument of `remove`: "**" or a given selector. */
  datatype SelectorFilter = AnySelector | TheSelector(selector: nat)

  /** The arguments of `remove`. Without `origType` (that is, with `mappedTypes`) the type a handler was
      registered as does not matter; `namespaces` are the namespace strings the expression accepts. */
  datatype Filter = Filter(origType: Option<nat>, guid: Option<nat>, namespaces: Option<set<nat>>,
                           selector: Option<SelectorFilter>)

  predicate Matches(h: HandleObj, f: Filter) {
    && (f.origType.Some? ==> f.origType.value == h.origType)
    && (f.guid.Some? ==> f.guid.value == h.guid)
    && (f.namespaces.Some? ==> h.namespace in f.namespaces.value)
    && match f.selector
       case None => true
       case Some(AnySelector) => h.selector.Some?
       case Some(TheSelector(s)) => h.selector == Some(s)
  }

  /** Delegated handlers are in front, and counted. */
  ghost predicate Partitioned(hs: Handlers) {
    && 0 <= hs.delegateCount <= |hs.list|
    && forall i :: 0 <= i < |hs.list| ==> (hs.list[i].selector.Some? <==> i < hs.delegateCount)
  }

  datatype Test = Delegated | Direct | NotMatching(f: Filter)

  predicate Passes(t: Test, h: HandleObj) {
    match t
    case Delegated => h.selector.Some?
    case Direct => h.selector.None?
    case NotMatching(f) => !Matches(h, f)
  }

  /** The handlers that pass, in order. */
  function Select(hs: seq<HandleObj>, t: Test): seq<HandleObj> {
    if hs == [] then [] else
    Select(hs[..|hs|-1], t) + if Passes(t, hs[|hs|-1]) then [hs[|hs|-1]] else []
  }

  lemma {:induction false} SelectWithin(hs: seq<HandleObj>, t: Test)
    ensures forall i :: 0 <= i < |Select(hs, t)| ==> Select(hs, t)[i] in hs && Passes(t, Select(hs, t)[i])
  {
    if hs != [] { SelectWithin(hs[..|hs|-1], t); }
  }

  lemma {:induction false} SelectSplit(a: seq<HandleObj>, b: seq<HandleObj>, t: Test)
    ensures Select(a + b, t) == Select(a, t) + Select(b, t)
    decreases |b|
  {
    if b == [] {
      assert a + b == a;
    } else {
      SelectSplit(a, b[..|b|-1], t);
      assert (a + b)[..|a+b|-1] == a + b[..|b|-1];
    }
  }

  lemma SelectOne(h: HandleObj, t: Test)
    ensures Select([h], t) == if Passes(t, h) then [h] else []
  {
    assert [h][..0] == [];
  }

  lemma SelectAppend(hs: seq<HandleObj>, h: HandleObj, present: bool, t: Test)
    ensures Select(hs + (if present then [h] else []), t) == Select(hs, t) + if present && Passes(t, h) then [h] else []
  {
    SelectSplit(hs, if present then [h] else [], t);
    SelectOne(h, t);
  }

  lemma {:induction false} SelectsCommute(hs: seq<HandleObj>, t: Test, u: Test)
    ensures Select(Select(hs, t), u) == Select(Select(hs, u), t)
  {
    if hs != [] {
      var front, last := hs[..|hs|-1], hs[|hs|-1];
      SelectsCommute(front, t, u);
      SelectAppend(Select(front, t), last, Passes(t, last), u);
      SelectAppend(Select(front, u), last, Passes(u, last), t);
    }
  }

  lemma {:induction false} SelectNothingNew(hs: seq<HandleObj>, t: Test)
    requires forall i :: 0 <= i < |hs| ==> Passes(t, hs[i])
    ensures Select(hs, t) == hs
  {
    if hs != [] { SelectNothingNew(hs[..|hs|-1], t); }
  }

  lemma {:induction false} KindsAddUp(hs: seq<HandleObj>)
    ensures |Select(hs, Delegated)| + |Select(hs, Direct)| == |hs|
  {
    if hs != [] { KindsAddUp(hs[..|hs|-1]); }
  }

  /** What the table keeps for handlers registered in the order `hs`. */
  ghost function Arranged(hs: seq<HandleObj>): Handlers {
    Handlers(Select(hs, Delegated) + Select(hs, Direct), |Select(hs, Delegated)|)
  }

  lemma ArrangedIsPartitioned(hs: seq<HandleObj>)
    ensures Partitioned(Arranged(hs)) && |Arranged(hs).list| == |hs|
  {
    KindsAddUp(hs);
    var d, n, list := Select(hs, Delegated), Select(hs, Direct), Arranged(hs).list;
    SelectWithin(hs, Delegated);
    SelectWithin(hs, Direct);
    forall i | 0 <= i < |list| ensures list[i].selector.Some? <==> i < |d| {
      if i < |d| { assert list[i] == d[i]; } else { assert list[i] == n[i - |d|]; }
    }
  }

  /** Delegates in front, direct handlers at the end. */
  function Inserted(hs: Handlers, h: HandleObj): Handlers
    requires 0 <= hs.delegateCount <= |hs.list|
  {
    if h.selector.Some? then
      Handlers(hs.list[..hs.delegateCount] + [h] + hs.list[hs.delegateCount..], hs.delegateCount + 1)
    else hs.(list := hs.list + [h])
  }

  lemma ArrangeOneMore(hs: seq<HandleObj>, h: HandleObj)
    ensures Arranged(hs + [h]) == Inserted(Arranged(hs), h)
  {
    SelectAppend(hs, h, true, Delegated);
    SelectAppend(hs, h, true, Direct);
    var d, n := Select(hs, Delegated), Select(hs, Direct);
    assert (d + n)[..|d|] == d && (d + n)[|d|..] == n;
    if h.selector.Some? { assert n + [] == n; } else { assert d + [] == d && d + (n + [h]) == d + n + [h]; }
  }

  lemma CountIsLength(r: Handlers, d: seq<HandleObj>, n: seq<HandleObj>)
    requires Partitioned(r) && r.list == d + n
    requires forall i :: 0 <= i < |d| ==> d[i].selector.Some?
    requires forall i :: 0 <= i < |n| ==> n[i].selector.None?
    ensures r.delegateCount == |d|
  {
    if d != [] { assert r.list[|d| - 1] == d[|d| - 1]; }
    if n != [] { assert r.list[|d|] == n[0]; }
  }

  /** Removing from the arranged list is arranging what is left. */
  lemma ArrangeLeft(hs: seq<HandleObj>, f: Filter, r: Handlers)
    requires Partitioned(r) && r.list == Select(Arranged(hs).list, NotMatching(f))
    ensures r == Arranged(Select(hs, NotMatching(f)))
  {
    var left := Select(hs, NotMatching(f));
    SelectSplit(Select(hs, Delegated), Select(hs, Direct), NotMatching(f));
    SelectsCommute(hs, Delegated, NotMatching(f));
    SelectsCommute(hs, Direct, NotMatching(f));
    SelectWithin(left, Delegated);
    SelectWithin(left, Direct);
    CountIsLength(r, Select(left, Delegated), Select(left, Direct));
  }

  /** Where bindings to a special type are kept: `delegateType`, `bindType`, or the type itself. */
  datatype Special = Special(delegateType: Option<nat>, bindType: Option<nat>)

  function Remap(special: map<nat, Special>, t: nat, delegates: bool): nat {
    if t !in special then t else
    match (if delegates then special[t].delegateType else special[t].bindType)
    case None => t
    case Some(u) => u
  }

  ghost predicate Belong(special: map<nat, Special>, hs: seq<HandleObj>, t: nat) {
    forall i :: 0 <= i < |hs| ==> Remap(special, hs[i].origType, hs[i].selector.Some?) == t
  }

  /** What a table of registrations holds for a type. */
  ghost function Of(registered: map<nat, seq<HandleObj>>, t: nat): seq<HandleObj> {
    if t in registered then registered[t] else []
  }

  /** The registrations after handlers were added one by one. */
  ghost function AddedTo(special: map<nat, Special>, registered: map<nat, seq<HandleObj>>, h: HandleObj): map<nat, seq<HandleObj>> {
    var t := Remap(special, h.origType, h.selector.Some?);
    registered[t := Of(registered, t) + [h]]
  }

  ghost function Registrations(special: map<nat, Special>, hs: seq<HandleObj>): map<nat, seq<HandleObj>> {
    if hs == [] then map[] else AddedTo(special, Registrations(special, hs[..|hs|-1]), hs[|hs|-1])
  }

  /** The registrations after removal from one list; an emptied list is dropped. */
  ghost function RemovedAt(registered: map<nat, seq<HandleObj>>, key: nat, f: Filter): map<nat, seq<HandleObj>> {
    var left := Select(Of(registered, key), NotMatching(f));
    if key !in registered then registered
    else if left == [] then registered - {key} else registered[key := left]
  }

  /** ... and after removal for every key that is still there when its turn comes. */
  ghost function RemovedEach(special: map<nat, Special>, registered: map<nat, seq<HandleObj>>, types: seq<nat>, f: Filter):
      map<nat, seq<HandleObj>>
  {
    if types == [] then registered else
    var was, t := RemovedEach(special, registered, types[..|types|-1], f), types[|types|-1];
    if t in was then RemovedAt(was, Remap(special, t, f.selector.Some?), f) else was
  }

  lemma RemovedAtIs(registered: map<nat, seq<HandleObj>>, key: nat, f: Filter)
    ensures forall u :: Of(RemovedAt(registered, key, f), u)
              == if u == key then Select(Of(registered, u), NotMatching(f)) else Of(registered, u)
    ensures forall u :: u in RemovedAt(registered, key, f) ==> u in registered
  {
  }

  /** What every table satisfies: each handler is in the list for its type, and no list is empty. */
  ghost predicate Kept(special: map<nat, Special>, registered: map<nat, seq<HandleObj>>) {
    forall t :: t in registered ==> registered[t] != [] && Belong(special, registered[t], t)
  }

  lemma AddedKeeps(special: map<nat, Special>, registered: map<nat, seq<HandleObj>>, h: HandleObj)
    requires Kept(special, registered)
    ensures Kept(special, AddedTo(special, registered, h))
  {
  }

  lemma RemovedAtKeeps(special: map<nat, Special>, registered: map<nat, seq<HandleObj>>, key: nat, f: Filter)
    requires Kept(special, registered)
    ensures Kept(special, RemovedAt(registered, key, f))
  {
    if key in registered { LeftBelong(special, registered[key], key, f); }
  }

  lemma {:induction false} RegistrationsKeep(special: map<nat, Special>, hs: seq<HandleObj>)
    ensures Kept(special, Registrations(special, hs))
  {
    if hs != [] {
      RegistrationsKeep(special, hs[..|hs|-1]);
      AddedKeeps(special, Registrations(special, hs[..|hs|-1]), hs[|hs|-1]);
    }
  }

  /** The list of type `t` has been gone through. */
  ghost predicate Purged(before: map<nat, seq<HandleObj>>, now: map<nat, seq<HandleObj>>, t: nat, f: Filter) {
    Of(now, t) == Select(Of(before, t), NotMatching(f))
  }

  /** During the removal of all matching handlers the lists of the types in `gone` have been gone through; any other
      list has too, or is as before. */
  ghost predicate Underway(before: map<nat, seq<HandleObj>>, now: map<nat, seq<HandleObj>>, gone: set<nat>, f: Filter) {
    && (forall t :: Purged(before, now, t, f) || (t !in gone && Of(now, t) == Of(before, t)))
    && (forall t :: t in now ==> t in before)
  }

  lemma UnderwayStep(before: map<nat, seq<HandleObj>>, was: map<nat, seq<HandleObj>>, now: map<nat, seq<HandleObj>>,
                     gone: set<nat>, t: nat, key: nat, f: Filter)
    requires Underway(before, was, gone, f) && (forall u :: u in now ==> u in was)
    requires forall u :: Of(now, u) == if u == key then Select(Of(was, u), NotMatching(f)) else Of(was, u)
    requires key == t || Select(Of(was, t), NotMatching(f)) == Of(was, t)
    ensures Underway(before, now, gone + {t}, f)
  {
    forall u ensures Purged(before, now, u, f) || (u !in gone + {t} && Of(now, u) == Of(before, u)) {
      SelectTwice(Of(before, u), NotMatching(f));
      assert Purged(before, was, u, f) || Of(was, u) == Of(before, u);
    }
  }

  lemma UnderwayEnds(before: map<nat, seq<HandleObj>>, now: map<nat, seq<HandleObj>>, gone: set<nat>, f: Filter)
    requires Underway(before, now, gone, f) && forall t :: t in before ==> t in gone
    ensures forall t :: Purged(before, now, t, f)
  {
    forall t ensures Purged(before, now, t, f) {
      if t !in before { assert Of(before, t) == []; }
    }
  }

  lemma LeftBelong(special: map<nat, Special>, hs: seq<HandleObj>, t: nat, f: Filter)
    requires Belong(special, hs, t)
    ensures Belong(special, Select(hs, NotMatching(f)), t)
  {
    SelectWithin(hs, NotMatching(f));
  }

  lemma SelectTwice(hs: seq<HandleObj>, t: Test)
    ensures Select(Select(hs, t), t) == Select(hs, t)
  {
    SelectWithin(hs, t);
    SelectNothingNew(Select(hs, t), t);
  }

  // ---- Removal undoes addition ----

  /** The filter of a removal that names a handler's own type, function, namespace and selector. */
  function FilterFor(h: HandleObj): Filter {
    Filter(Some(h.origType), Some(h.guid), Some({h.namespace}), if h.selector.Some? then Some(TheSelector(h.selector.value)) else None)
  }

  /** It matches the handlers that agree with it in all of these; without a selector, whatever theirs is. */
  lemma FilterForMatches(h: HandleObj, g: HandleObj)
    ensures Matches(g, FilterFor(h)) <==>
            && g.origType == h.origType && g.guid == h.guid && g.namespace == h.namespace
            && (h.selector.None? || g.selector == h.selector)
  {
  }

  /** What is left out of a filter does not matter; "**" matches the delegated handlers. */
  lemma OpenFilters(h: HandleObj, t: nat, g: nat, ns: set<nat>)
    ensures Matches(h, Filter(None, None, None, None))
    ensures Matches(h, Filter(Some(t), None, None, None)) <==> h.origType == t
    ensures Matches(h, Filter(None, Some(g), None, None)) <==> h.guid == g
    ensures Matches(h, Filter(None, None, Some(ns), None)) <==> h.namespace in ns
    ensures Matches(h, Filter(None, None, None, Some(AnySelector))) <==> h.selector != None
  {
  }

  /** A type with only a delegateType redirects exactly delegated bindings, one with only a bindType exactly direct ones;
      others redirect nothing. */
  lemma RedirectsOneKind(t: nat, u: nat, d: bool)
    ensures Remap(map[t := Special(Some(u), None)], t, d) == if d then u else t
    ensures Remap(map[t := Special(None, Some(u))], t, d) == if d then t else u
    ensures Remap(map[], t, d) == t
  {
  }

  /** `off` undoes `on`: a handler just added, unless others in its list match its filter too, is removed and nothing
      else, wherever its type is redirected to. */
  lemma RemovalUndoesAddition(special: map<nat, Special>, registered: map<nat, seq<HandleObj>>, h: HandleObj)
    requires Kept(special, registered)
    requires var was := Of(registered, Remap(special, h.origType, h.selector.Some?));
             forall i :: 0 <= i < |was| ==> Passes(NotMatching(FilterFor(h)), was[i])
    ensures var key := Remap(special, h.origType, FilterFor(h).selector.Some?);
            RemovedAt(AddedTo(special, registered, h), key, FilterFor(h)) == registered
  {
    var key := Remap(special, h.origType, h.selector.Some?);
    var was := Of(registered, key);
    assert Select(was + [h], NotMatching(FilterFor(h))) == was by {
      SelectNothingNew(was, NotMatching(FilterFor(h)));
      SelectAppend(was, h, true, NotMatching(FilterFor(h)));
      assert was + [] == was;
    }
    UpdateUndone(registered, key, was + [h]);
    RemovedIs(AddedTo(special, registered, h), key, FilterFor(h), was);
  }

  lemma RemovedIs(registered: map<nat, seq<HandleObj>>, key: nat, f: Filter, left: seq<HandleObj>)
    requires key in registered && Select(registered[key], NotMatching(f)) == left
    ensures RemovedAt(registered, key, f) == if left == [] then registered - {key} else registered[key := left]
  {
  }

  lemma UpdateUndone(registered: map<nat, seq<HandleObj>>, key: nat, hs: seq<HandleObj>)
    ensures key !in registered ==> registered[key := hs] - {key} == registered
    ensures key in registered ==> registered[key := hs][key := registered[key]] == registered
  {
  }

  /** A type that bindings are kept under is not itself redirected. */
  ghost predicate Settled(special: map<nat, Special>) {
    && (forall t, d :: Remap(special, Remap(special, t, d), false) == Remap(special, t, d))
    && (forall t :: Remap(special, Remap(special, t, true), true) == Remap(special, t, true))
  }

  /** If a key is redirected, none of its handlers match. */
  lemma Unredirected(special: map<nat, Special>, registered: map<nat, seq<HandleObj>>, t: nat, f: Filter)
    requires Settled(special) && Kept(special, registered) && t in registered
    ensures Remap(special, t, f.selector.Some?) == t || Select(registered[t], NotMatching(f)) == registered[t]
  {
    var some := registered[t][0];
    assert t == Remap(special, some.origType, some.selector.Some?);
    if Remap(special, t, f.selector.Some?) != t {
      SelectNothingNew(registered[t], NotMatching(f));
    }
  }

  ghost function Gone(types: seq<nat>): set<nat> {
    set k | 0 <= k < |types| :: types[k]
  }

  lemma {:induction false} RemovedEachPurges(special: map<nat, Special>, registered: map<nat, seq<HandleObj>>, types: seq<nat>, f: Filter)
    requires Settled(special) && Kept(special, registered)
    ensures var now := RemovedEach(special, registered, types, f);
            Underway(registered, now, Gone(types), f) && Kept(special, now)
    decreases |types|
  {
    if types != [] {
      var front, t := types[..|types|-1], types[|types|-1];
      var was, key := RemovedEach(special, registered, front, f), Remap(special, t, f.selector.Some?);
      RemovedEachPurges(special, registered, front, f);
      assert Gone(types) == Gone(front) + {t};
      if t in was {
        Unredirected(special, was, t, f);
        RemovedAtIs(was, key, f);
        RemovedAtKeeps(special, was, key, f);
        UnderwayStep(registered, was, RemovedAt(was, key, f), Gone(front), t, key, f);
      } else {
        assert Of(was, t) == [];
      }
    }
  }

  /** Removal without a type, over all keys in any order, removes every matching handler from this table. */
  ghost predicate PurgedWhole(special: map<nat, Special>, registered: map<nat, seq<HandleObj>>, types: seq<nat>, f: Filter) {
    forall t :: Purged(registered, RemovedEach(special, registered, types, f), t, f)
  }

  lemma SettledPurges(special: map<nat, Special>, registered: map<nat, seq<HandleObj>>, types: seq<nat>, f: Filter)
    requires Settled(special) && Kept(special, registered) && forall t :: t in registered ==> t in types
    ensures PurgedWhole(special, registered, types, f)
  {
    RemovedEachPurges(special, registered, types, f);
    UnderwayEnds(registered, RemovedEach(special, registered, types, f), Gone(types), f);
  }

  /** A removal without a type: the handlers added before, the keys in the order they are visited, and the filter. */
  datatype Sweep = Sweep(added: seq<HandleObj>, types: seq<nat>, f: Filter)
  {
    ghost predicate Ok(special: map<nat, Special>) {
      f.origType.None? && forall t :: t in Registrations(special, added) ==> t in types
    }

    ghost predicate Complete(special: map<nat, Special>) {
      PurgedWhole(special, Registrations(special, added), types, f)
    }
  }

  /** Removal without a type removes every matching handler from every table if and only if redirections are settled. */
  lemma SweepsCompleteIff(special: map<nat, Special>)
    ensures (forall s: Sweep {:trigger s.Ok(special)} :: s.Ok(special) ==> s.Complete(special)) <==> Settled(special)
  {
    if Settled(special) {
      forall s: Sweep | s.Ok(special) ensures s.Complete(special) {
        RegistrationsKeep(special, s.added);
        SettledPurges(special, Registrations(special, s.added), s.types, s.f);
      }
    } else {
      var s := MissingSweep(special);
    }
  }

  /** If a type that bindings are kept under is redirected again, removal looks in the wrong place. */
  lemma MissingSweep(special: map<nat, Special>) returns (s: Sweep)
    requires !Settled(special)
    ensures s.Ok(special) && !s.Complete(special)
  {
    if t, d :| Remap(special, Remap(special, t, d), false) != Remap(special, t, d) {
      var h := HandleObj(t, 0, 0, if d then Some(0) else None);
      s := MissedAlone(special, h, Filter(None, None, None, None));
    } else {
      var t :| Remap(special, Remap(special, t, true), true) != Remap(special, t, true);
      s := MissedAlone(special, HandleObj(t, 0, 0, Some(0)), Filter(None, None, None, Some(AnySelector)));
    }
  }

  lemma MissedAlone(special: map<nat, Special>, h: HandleObj, f: Filter) returns (s: Sweep)
    requires f.origType.None? && Matches(h, f)
    requires var b := Remap(special, h.origType, h.selector.Some?); Remap(special, b, f.selector.Some?) != b
    ensures s.Ok(special) && !s.Complete(special)
  {
    var b := Remap(special, h.origType, h.selector.Some?);
    s := Sweep([h], [b], f);
    assert [h][..0] == [] && [b][..0] == [];
    assert Registrations(special, [h]) == map[b := [] + [h]];
    var table := Registrations(special, [h]);
    assert RemovedEach(special, table, [], f) == table;
    assert RemovedEach(special, table, [b], f) == table;
    SelectOne(h, NotMatching(f));
    assert Of(table, b) == [h] && !Purged(table, RemovedEach(special, table, [b], f), b, f);
  }

  /** The table holds exactly the registrations, delegated handlers in front. */
  ghost predicate Mirrors(events: map<nat, Handlers>, registered: map<nat, seq<HandleObj>>) {
    && events.Keys == registered.Keys
    && forall t :: t in events ==> events[t] == Arranged(registered[t])
  }

  lemma MirrorsUpdate(events: map<nat, Handlers>, registered: map<nat, seq<HandleObj>>, t: nat, hs: seq<HandleObj>)
    requires Mirrors(events, registered)
    ensures Mirrors(events[t := Arranged(hs)], registered[t := hs])
  {
  }

  lemma AddedMirrors(special: map<nat, Special>, events: map<nat, Handlers>, registered: map<nat, seq<HandleObj>>, h: HandleObj)
    requires Kept(special, registered) && Mirrors(events, registered)
    ensures var t := Remap(special, h.origType, h.selector.Some?);
            var hs := if t in events then events[t] else Handlers([], 0);
            && 0 <= hs.delegateCount <= |hs.list|
            && Kept(special, AddedTo(special, registered, h))
            && Mirrors(events[t := Inserted(hs, h)], AddedTo(special, registered, h))
  {
    var t := Remap(special, h.origType, h.selector.Some?);
    var was := Of(registered, t);
    ArrangedIsPartitioned(was);
    ArrangeOneMore(was, h);
    AddedKeeps(special, registered, h);
    MirrorsUpdate(events, registered, t, was + [h]);
  }

  class EventTable {
    const special: map<nat, Special>
    var events: map<nat, Handlers>
    /** per type, what was added and has not been removed, in the order of the `add` calls */
    ghost var registered: map<nat, seq<HandleObj>>

    ghost predicate Valid()
      reads this
    {
      Kept(special, registered) && Mirrors(events, registered)
    }

    constructor (special: map<nat, Special>)
      ensures Valid() && events == map[] && registered == map[] && this.special == special
    {
      this.special := special;
      events, registered := map[], map[];
    }

    /** In every reachable table, delegated handlers come first and are counted, and no list is empty. */
    lemma Invariants(t: nat)
      requires Valid() && t in events
      ensures Partitioned(events[t]) && events[t].list != []
    {
      ArrangedIsPartitioned(registered[t]);
    }

    /** `add` for one type */
    method Add(h: HandleObj)
      requires Valid()
      modifies this
      ensures Valid() && registered == AddedTo(special, old(registered), h)
    {
      var t := Remap(special, h.origType, h.selector.Some?);
      AddedMirrors(special, events, registered, h);
      var hs := if t in events then events[t] else Handlers([], 0);
      events := events[t := Inserted(hs, h)];
      registered := AddedTo(special, registered, h);
    }

    /** `remove` for one type: walks the list from its end and splices out what matches. */
    method Remove(t: nat, f: Filter)
      requires Valid()
      modifies this
      ensures Valid() && registered == RemovedAt(old(registered), Remap(special, t, f.selector.Some?), f)
    {
      var key := Remap(special, t, f.selector.Some?);
      RemovedAtKeeps(special, registered, key, f);
      if key in events {
        Invariants(key);
        var hs := Splice(events[key], f);
        ghost var left := Select(registered[key], NotMatching(f));
        ArrangeLeft(registered[key], f, hs);
        ArrangedIsPartitioned(left);
        if hs.list == [] {
          events, registered := events - {key}, registered - {key};
        } else {
          MirrorsUpdate(events, registered, key, left);
          events, registered := events[key := hs], registered[key := left];
        }
      }
    }

    static method Splice(hs: Handlers, f: Filter) returns (r: Handlers)
      requires Partitioned(hs)
      ensures Partitioned(r) && r.list == Select(hs.list, NotMatching(f))
    {
      r := hs;
      var j := |hs.list|;
      assert hs.list[j..] == [] && hs.list[..j] == hs.list;
      while j > 0
        invariant 0 <= j <= |hs.list| && Partitioned(r)
        invariant r.list == hs.list[..j] + Select(hs.list[j..], NotMatching(f))
      {
        j := j - 1;
        var h := r.list[j];
        assert hs.list[j..] == [h] + hs.list[j+1..];
        SelectSplit([h], hs.list[j+1..], NotMatching(f));
        SelectOne(h, NotMatching(f));
        if Matches(h, f) {
          WithoutOne(r, j);
          r := Handlers(r.list[..j] + r.list[j+1..], if h.selector.Some? then r.delegateCount - 1 else r.delegateCount);
        }
      }
      assert hs.list[0..] == hs.list;
    }

    /** `remove` without a type: for every key of the table that is still there, in the order `types`. */
    method RemoveAll(types: seq<nat>, f: Filter)
      requires Valid() && f.origType.None? && (forall t :: t in events ==> t in types)
      modifies this
      ensures Valid() && registered == RemovedEach(special, old(registered), types, f)
      ensures Settled(special) ==> forall t :: Purged(old(registered), registered, t, f)
    {
      var i := 0;
      while i < |types|
        invariant 0 <= i <= |types| && Valid()
        invariant registered == RemovedEach(special, old(registered), types[..i], f)
      {
        assert types[..i+1][..i] == types[..i];
        if types[i] in events {
          Remove(types[i], f);
        }
        i := i + 1;
      }
      assert types[..i] == types;
      if Settled(special) {
        SettledPurges(special, old(registered), types, f);
      }
    }
  }

  lemma WithoutOne(hs: Handlers, j: nat)
    requires Partitioned(hs) && j < |hs.list|
    ensures Partitioned(Handlers(hs.list[..j] + hs.list[j+1..],
              if hs.list[j].selector.Some? then hs.delegateCount - 1 else hs.delegateCount))
  {
  }
}
