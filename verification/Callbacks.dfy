/** `jQuery.Callbacks`: the state of one list and what each operation makes of it. The loop in
    `fire` calls arbitrary code, so it is cut at each call: `BeginFire`, then for each turn
    `Delivered` and `Returned`, and `EndFire`. */
module Callbacks {
  import opened Dom

  type Data = nat

  /** The outcome of a Deferred; `Callbacks` itself does not use it. */
  datatype Settlement = Pending | Resolved | Rejected

  /** A callback is user code or one of the functions a Deferred puts on its own lists. */
  datatype Fn = User(id: nat) | SetState(to: Settlement) | DisableList(l: nat) | LockList(l: nat)

  /** A list entry. `delivered` observes how often the entry was called with the data of the
      latest fire; the code does not look at it. */
  datatype Entry = Entry(fn: Fn, delivered: nat)

  datatype Options = Options(once: bool, memory: bool, unique: bool, stopOnFalse: bool)

  predicate HasFn(list: seq<Entry>, fn: Fn) {
    exists k :: 0 <= k < |list| && list[k].fn == fn
  }

  function Extended(list: seq<Entry>, fns: seq<Fn>, unique: bool): seq<Entry>
    decreases |fns|
  {
    if fns == [] then list else
    Extended(if unique && HasFn(list, fns[0]) then list else list + [Entry(fns[0], 0)], fns[1..], unique)
  }

  function Without(list: seq<Entry>, i: nat): seq<Entry>
    requires i < |list|
  {
    list[..i] + list[i+1..]
  }

  function Fresh(list: seq<Entry>): seq<Entry> {
    seq(|list|, i requires 0 <= i < |list| => Entry(list[i].fn, 0))
  }

  datatype ListState = ListState(options: Options, list: Option<seq<Entry>>, stack: Option<seq<Data>>,
                                 memory: Option<Data>, fired: bool, firing: bool,
                                 firingIndex: int, firingLength: int, firingStart: nat)
  {
    static function Created(options: Options): ListState {
      ListState(options, Some([]), if options.once then None else Some([]), None, false, false, 0, 0, 0)
    }

    function Disabled(): ListState {
      this.(list := None, stack := None, memory := None)
    }

    function Locked(): ListState {
      if memory.None? then Disabled() else this.(stack := None)
    }

    /** The start of `fire`; the loop begins at `firingStart`. */
    function BeginFire(data: Data): ListState
      requires list.Some?
    {
      this.(memory := if options.memory then Some(data) else None, fired := true, firing := true,
            firingIndex := firingStart, firingStart := 0, firingLength := |list.value|)
    }

    /** A fire with new data: nothing has been called with it yet. */
    function Fire(data: Data): ListState
      requires list.Some?
    {
      this.(list := Some(Fresh(list.value))).BeginFire(data)
    }

    predicate AddStartsFire() {
      list.Some? && !firing && memory.Some?
    }

    /** `add`: during a fire the batch grows; with memory a new fire covers the additions. */
    function Added(fns: seq<Fn>): ListState {
      if list.None? then this else
      var more := this.(list := Some(Extended(list.value, fns, options.unique)));
      if firing then more.(firingLength := |more.list.value|)
      else if memory.Some? then more.(firingStart := |list.value|).BeginFire(memory.value)
      else more
    }

    function SplicedAt(i: nat): ListState
      requires list.Some? && i < |list.value|
    {
      this.(list := Some(Without(list.value, i)),
            firingLength := if firing && i <= firingLength then firingLength - 1 else firingLength,
            firingIndex := if firing && i <= firingIndex then firingIndex - 1 else firingIndex)
    }

    /** `remove` of one function: every occurrence from index `i` on is spliced out. */
    function RemovedFrom(fn: Fn, i: nat): ListState
      requires list.Some? && i <= |list.value|
      decreases |list.value| - i
    {
      if i == |list.value| then this
      else if list.value[i].fn == fn then SplicedAt(i).RemovedFrom(fn, i)
      else RemovedFrom(fn, i + 1)
    }

    function Removed(fns: seq<Fn>): ListState
      decreases |fns|
    {
      if list.None? || fns == [] then this else RemovedFrom(fns[0], 0).Removed(fns[1..])
    }

    predicate FireWithStartsFire() {
      list.Some? && (!fired || stack.Some?) && !firing
    }

    /** `fireWith`: a fire that comes while the list is firing waits on the stack. */
    function FiredWith(data: Data): ListState {
      if list.None? || (fired && stack.None?) then this
      else if firing then (if stack.Some? then this.(stack := Some(stack.value + [data])) else this)
      else Fire(data)
    }

    /** The loop has another callback to call. */
    predicate HasTurn() {
      list.Some? && 0 <= firingIndex < firingLength && firingIndex < |list.value|
    }

    /** The callback whose turn it is gets called. */
    function Delivered(): ListState
      requires HasTurn()
    {
      var e := list.value[firingIndex];
      this.(list := Some(list.value[firingIndex := e.(delivered := e.delivered + 1)]))
    }

    /** `firingIndex++` */
    function Returned(): ListState {
      this.(firingIndex := firingIndex + 1)
    }

    predicate EndStartsFire() {
      list.Some? && stack.Some? && stack.value != []
    }

    /** After the loop; `broken` says that a callback returned false and `stopOnFalse` is set. */
    function EndFire(broken: bool): ListState {
      var done := this.(firing := false, memory := if broken then None else memory);
      if list.None? then done
      else if stack.Some? then
        if stack.value != [] then done.(stack := Some(stack.value[1..])).Fire(stack.value[0]) else done
      else if done.memory.Some? then done.(list := Some([]))
      else done.Disabled()
    }

    /** How many entries have had their turn: those up to and including the running one. */
    function Turn(inCallback: bool): int {
      firingIndex + if inCallback then 1 else 0
    }

    /** What every operation keeps. No fire waits unless one runs. While firing, exactly the entries before the next turn have
        been called, once each, and the batch is the whole list; a list with memory that is not firing
        has called every entry once. */
    ghost predicate PassOk(inCallback: bool) {
      && firingStart == 0 && (list.None? ==> stack.None?) && (!firing && stack.Some? ==> stack.value == [])
      && (memory.Some? ==> options.memory && fired) && (firing ==> fired)
      && (list.Some? && firing && options.memory ==> memory.Some?)
      && (list.Some? && firing ==>
            && firingLength == |list.value|
            && 0 <= Turn(inCallback) <= |list.value|
            && (forall k :: 0 <= k < |list.value| ==>
                  list.value[k].delivered == if k < Turn(inCallback) then 1 else 0))
      && (list.Some? && !firing && memory.Some? ==>
            forall k :: 0 <= k < |list.value| ==> list.value[k].delivered == 1)
    }
  }

  // ---- Every operation keeps PassOk ----

  lemma {:induction false} ExtendedKeeps(list: seq<Entry>, fns: seq<Fn>, unique: bool)
    ensures var more := Extended(list, fns, unique);
            && list <= more
            && forall k :: |list| <= k < |more| ==> more[k].delivered == 0
    decreases |fns|
  {
    if fns != [] {
      ExtendedKeeps(if unique && HasFn(list, fns[0]) then list else list + [Entry(fns[0], 0)], fns[1..], unique);
    }
  }

  lemma AddedKeeps(ls: ListState, fns: seq<Fn>, inCallback: bool)
    requires ls.PassOk(inCallback) && (ls.firing ==> inCallback)
    ensures ls.Added(fns).PassOk(inCallback && ls.firing)
    ensures ls.list.Some? ==> ls.Added(fns).list.Some? && ls.list.value <= ls.Added(fns).list.value
  {
    if ls.list.Some? { ExtendedKeeps(ls.list.value, fns, ls.options.unique); }
  }

  lemma SplicedKeeps(ls: ListState, i: nat, inCallback: bool)
    requires ls.PassOk(inCallback) && (ls.firing ==> inCallback) && ls.list.Some? && i < |ls.list.value|
    ensures ls.SplicedAt(i).PassOk(inCallback)
  {
  }

  lemma {:induction false} RemovedFromKeeps(ls: ListState, fn: Fn, i: nat, inCallback: bool)
    requires ls.PassOk(inCallback) && (ls.firing ==> inCallback) && ls.list.Some? && i <= |ls.list.value|
    ensures ls.RemovedFrom(fn, i).PassOk(inCallback) && ls.RemovedFrom(fn, i).firing == ls.firing
    decreases |ls.list.value| - i
  {
    if i < |ls.list.value| {
      if ls.list.value[i].fn == fn {
        SplicedKeeps(ls, i, inCallback);
        RemovedFromKeeps(ls.SplicedAt(i), fn, i, inCallback);
      } else {
        RemovedFromKeeps(ls, fn, i + 1, inCallback);
      }
    }
  }

  lemma {:induction false} RemovedKeeps(ls: ListState, fns: seq<Fn>, inCallback: bool)
    requires ls.PassOk(inCallback) && (ls.firing ==> inCallback)
    ensures ls.Removed(fns).PassOk(inCallback) && ls.Removed(fns).firing == ls.firing
    decreases |fns|
  {
    if ls.list.Some? && fns != [] {
      RemovedFromKeeps(ls, fns[0], 0, inCallback);
      RemovedKeeps(ls.RemovedFrom(fns[0], 0), fns[1..], inCallback);
    }
  }

  lemma {:induction false} RemovedFromStays(ls: ListState, fn: Fn, i: nat)
    requires ls.list.Some? && i <= |ls.list.value|
    ensures ls.RemovedFrom(fn, i).stack == ls.stack
    decreases |ls.list.value| - i
  {
    if i < |ls.list.value| {
      if ls.list.value[i].fn == fn { RemovedFromStays(ls.SplicedAt(i), fn, i); } else { RemovedFromStays(ls, fn, i + 1); }
    }
  }

  lemma {:induction false} RemovedStays(ls: ListState, fns: seq<Fn>)
    ensures ls.Removed(fns).list.Some? == ls.list.Some? && ls.Removed(fns).stack == ls.stack
    decreases |fns|
  {
    if ls.list.Some? && fns != [] {
      RemovedFromLeavesOthers(ls, fns[0], 0);
      RemovedFromStays(ls, fns[0], 0);
      RemovedStays(ls.RemovedFrom(fns[0], 0), fns[1..]);
    }
  }

  /** The entries of other functions, in order. */
  function Others(list: seq<Entry>, fn: Fn): seq<Entry> {
    if list == [] then []
    else if list[0].fn == fn then Others(list[1..], fn)
    else [list[0]] + Others(list[1..], fn)
  }

  /** `remove` leaves exactly those. */
  lemma {:induction false} RemovedFromLeavesOthers(ls: ListState, fn: Fn, i: nat)
    requires ls.list.Some? && i <= |ls.list.value|
    ensures ls.RemovedFrom(fn, i).list == Some(ls.list.value[..i] + Others(ls.list.value[i..], fn))
    decreases |ls.list.value| - i
  {
    var list := ls.list.value;
    if i < |list| {
      assert list[i..][1..] == list[i+1..];
      if list[i].fn == fn {
        RemovedFromLeavesOthers(ls.SplicedAt(i), fn, i);
        assert Without(list, i)[..i] == list[..i] && Without(list, i)[i..] == list[i+1..];
      } else {
        RemovedFromLeavesOthers(ls, fn, i + 1);
        var rest := Others(list[i+1..], fn);
        assert list[..i+1] + rest == list[..i] + ([list[i]] + rest);
      }
    } else {
      assert list[..i] + Others(list[i..], fn) == list;
    }
  }

  // ---- What removal does, in terms of the list alone ----

  /** The entries whose function is not among `fns`, as they are and in order. */
  function NotAmong(list: seq<Entry>, fns: seq<Fn>): seq<Entry> {
    if list == [] then []
    else if list[0].fn in fns then NotAmong(list[1..], fns)
    else [list[0]] + NotAmong(list[1..], fns)
  }

  /** How many entries have a function among `fns`. */
  function CountAmong(list: seq<Entry>, fns: seq<Fn>): nat {
    if list == [] then 0 else (if list[0].fn in fns then 1 else 0) + CountAmong(list[1..], fns)
  }

  /** The entries at index `n` or before. */
  function UpTo(list: seq<Entry>, n: int): seq<Entry> {
    if n < 0 then [] else if n < |list| then list[..n+1] else list
  }

  lemma {:induction false} NotAmongOne(list: seq<Entry>, fn: Fn)
    ensures NotAmong(list, [fn]) == Others(list, fn)
  {
    if list != [] { NotAmongOne(list[1..], fn); }
  }

  lemma {:induction false} NotAmongMore(list: seq<Entry>, fn: Fn, fns: seq<Fn>)
    ensures NotAmong(Others(list, fn), fns) == NotAmong(list, [fn] + fns)
    ensures CountAmong(Others(list, fn), fns) + CountAmong(list, [fn]) == CountAmong(list, [fn] + fns)
  {
    if list != [] {
      NotAmongMore(list[1..], fn, fns);
      if list[0].fn != fn {
        assert Others(list, fn)[1..] == Others(list[1..], fn);
      }
    }
  }

  lemma {:induction false} NotAmongNone(list: seq<Entry>)
    ensures NotAmong(list, []) == list && CountAmong(list, []) == 0
  {
    if list != [] { NotAmongNone(list[1..]); }
  }

  lemma RemovedFromStart(ls: ListState, fn: Fn)
    requires ls.list.Some?
    ensures ls.RemovedFrom(fn, 0).list == Some(Others(ls.list.value, fn))
  {
    var list := ls.list.value;
    RemovedFromLeavesOthers(ls, fn, 0);
    assert list[0..] == list && list[..0] == [] && [] + Others(list, fn) == Others(list, fn);
  }

  /** `remove` leaves exactly the entries of functions it was not given. */
  lemma {:induction false} RemovedLeaves(ls: ListState, fns: seq<Fn>)
    requires ls.list.Some?
    ensures ls.Removed(fns).list == Some(NotAmong(ls.list.value, fns))
    decreases |fns|
  {
    if fns == [] {
      NotAmongNone(ls.list.value);
    } else {
      RemovedFromStart(ls, fns[0]);
      RemovedLeaves(ls.RemovedFrom(fns[0], 0), fns[1..]);
      NotAmongMore(ls.list.value, fns[0], fns[1..]);
      assert fns == [fns[0]] + fns[1..];
    }
  }

  /** How many entries of `fn` there are from index `i` up to index `n`. */
  function CountBetween(list: seq<Entry>, fn: Fn, i: nat, n: int): nat
    requires i <= |list|
    decreases |list| - i
  {
    if i == |list| then 0 else (if list[i].fn == fn && i <= n then 1 else 0) + CountBetween(list, fn, i + 1, n)
  }

  lemma {:induction false} CountShifts(list: seq<Entry>, fn: Fn, i: nat, j: nat, n: int)
    requires i <= j < |list|
    ensures CountBetween(Without(list, i), fn, j, if i <= n then n - 1 else n) == CountBetween(list, fn, j + 1, n)
    decreases |list| - j
  {
    if j + 1 < |list| {
      assert Without(list, i)[j] == list[j+1];
      CountShifts(list, fn, i, j + 1, n);
    }
  }

  lemma {:induction false} RemovedFromMoves(ls: ListState, fn: Fn, i: nat)
    requires ls.list.Some? && ls.firing && i <= |ls.list.value|
    ensures var now := ls.RemovedFrom(fn, i);
            && now.firing
            && now.firingIndex == ls.firingIndex - CountBetween(ls.list.value, fn, i, ls.firingIndex)
            && now.firingLength == ls.firingLength - CountBetween(ls.list.value, fn, i, ls.firingLength)
    decreases |ls.list.value| - i
  {
    if i < |ls.list.value| {
      if ls.list.value[i].fn == fn {
        CountShifts(ls.list.value, fn, i, i, ls.firingIndex);
        CountShifts(ls.list.value, fn, i, i, ls.firingLength);
        RemovedFromMoves(ls.SplicedAt(i), fn, i);
      } else {
        RemovedFromMoves(ls, fn, i + 1);
      }
    }
  }

  lemma {:induction false} CountUpTo(list: seq<Entry>, fn: Fn, i: nat, n: int)
    requires i <= |list|
    ensures CountBetween(list, fn, i, n) == CountAmong(UpTo(list[i..], n - i), [fn])
    decreases |list| - i
  {
    if i < |list| {
      CountUpTo(list, fn, i + 1, n);
      assert list[i..][1..] == list[i+1..];
      if n >= i {
        assert UpTo(list[i..], n - i)[1..] == UpTo(list[i+1..], n - i - 1);
      }
    }
  }

  lemma {:induction false} UpToOthers(list: seq<Entry>, fn: Fn, n: int)
    ensures UpTo(Others(list, fn), n - CountAmong(UpTo(list, n), [fn])) == Others(UpTo(list, n), fn)
  {
    if list != [] && n >= 0 {
      UpToOthers(list[1..], fn, n - 1);
      assert UpTo(list, n) == [list[0]] + UpTo(list[1..], n - 1);
      var c := CountAmong(UpTo(list[1..], n - 1), [fn]);
      assert CountAmong(UpTo(list, n), [fn]) == c + if list[0].fn == fn then 1 else 0;
      if list[0].fn != fn {
        CountAtMost(UpTo(list[1..], n - 1), [fn]);
        assert UpTo([list[0]] + Others(list[1..], fn), n - c) == [list[0]] + UpTo(Others(list[1..], fn), n - 1 - c);
        assert Others([list[0]] + UpTo(list[1..], n - 1), fn) == [list[0]] + Others(UpTo(list[1..], n - 1), fn);
      }
    }
  }

  lemma {:induction false} CountAtMost(list: seq<Entry>, fns: seq<Fn>)
    ensures CountAmong(list, fns) <= |list|
  {
    if list != [] { CountAtMost(list[1..], fns); }
  }

  /** While firing, the turn and the end of the batch move back by the number of entries removed at or before them. */
  lemma {:induction false} RemovedMoves(ls: ListState, fns: seq<Fn>)
    requires ls.list.Some? && ls.firing
    ensures var now := ls.Removed(fns);
            && now.firingIndex == ls.firingIndex - CountAmong(UpTo(ls.list.value, ls.firingIndex), fns)
            && now.firingLength == ls.firingLength - CountAmong(UpTo(ls.list.value, ls.firingLength), fns)
    decreases |fns|
  {
    var list := ls.list.value;
    if fns == [] {
      NotAmongNone(UpTo(list, ls.firingIndex));
      NotAmongNone(UpTo(list, ls.firingLength));
    } else {
      var next := ls.RemovedFrom(fns[0], 0);
      RemovedFromMoves(ls, fns[0], 0);
      RemovedFromStart(ls, fns[0]);
      RemovedMoves(next, fns[1..]);
      MovesAddUp(list, fns, ls.firingIndex);
      MovesAddUp(list, fns, ls.firingLength);
    }
  }

  lemma MovesAddUp(list: seq<Entry>, fns: seq<Fn>, n: int)
    requires fns != []
    ensures var c := CountBetween(list, fns[0], 0, n);
            c + CountAmong(UpTo(Others(list, fns[0]), n - c), fns[1..]) == CountAmong(UpTo(list, n), fns)
  {
    CountUpTo(list, fns[0], 0, n);
    assert list[0..] == list;
    UpToOthers(list, fns[0], n);
    NotAmongMore(UpTo(list, n), fns[0], fns[1..]);
    assert fns == [fns[0]] + fns[1..];
  }

  /** When nothing fires only the list changes. */
  lemma {:induction false} RemovedAtRest(ls: ListState, fns: seq<Fn>)
    requires ls.list.Some? && !ls.firing
    ensures ls.Removed(fns) == ls.(list := Some(NotAmong(ls.list.value, fns)))
    decreases |fns|
  {
    RemovedLeaves(ls, fns);
    RemovedOnlyList(ls, fns);
  }

  lemma {:induction false} RemovedOnlyList(ls: ListState, fns: seq<Fn>)
    requires !ls.firing
    ensures ls.Removed(fns).(list := ls.list) == ls
    decreases |fns|
  {
    if ls.list.Some? && fns != [] {
      RemovedFromOnlyList(ls, fns[0], 0);
      RemovedOnlyList(ls.RemovedFrom(fns[0], 0), fns[1..]);
    }
  }

  lemma {:induction false} RemovedFromOnlyList(ls: ListState, fn: Fn, i: nat)
    requires ls.list.Some? && i <= |ls.list.value| && !ls.firing
    ensures ls.RemovedFrom(fn, i).(list := ls.list) == ls && ls.RemovedFrom(fn, i).list.Some?
    decreases |ls.list.value| - i
  {
    if i < |ls.list.value| {
      if ls.list.value[i].fn == fn { RemovedFromOnlyList(ls.SplicedAt(i), fn, i); } else { RemovedFromOnlyList(ls, fn, i + 1); }
    }
  }

  // ---- What addition, locking and firing do ----

  /** Every function given is on the list afterwards; without `unique` all of them are appended. */
  lemma {:induction false} ExtendedHas(list: seq<Entry>, fns: seq<Fn>, unique: bool)
    ensures var more := Extended(list, fns, unique);
            && (forall f :: HasFn(more, f) <==> HasFn(list, f) || f in fns)
            && (!unique ==> |more| == |list| + |fns| && forall k :: 0 <= k < |fns| ==> more[|list| + k] == Entry(fns[k], 0))
    decreases |fns|
  {
    if fns != [] {
      var next := if unique && HasFn(list, fns[0]) then list else list + [Entry(fns[0], 0)];
      ExtendedHas(next, fns[1..], unique);
      ExtendedKeeps(next, fns[1..], unique);
      HasFnAppend(list, fns[0]);
      assert forall f :: f in fns <==> f == fns[0] || f in fns[1..];
    }
  }

  lemma HasFnAppend(list: seq<Entry>, fn: Fn)
    ensures forall f :: HasFn(list + [Entry(fn, 0)], f) <==> HasFn(list, f) || f == fn
  {
    var more := list + [Entry(fn, 0)];
    assert more[|list|].fn == fn;
    forall f | HasFn(list, f) ensures HasFn(more, f) {
      var k :| 0 <= k < |list| && list[k].fn == f;
      assert more[k].fn == f;
    }
  }

  ghost predicate Distinct(list: seq<Entry>) {
    forall j, k :: 0 <= j < k < |list| ==> list[j].fn != list[k].fn
  }

  /** A `unique` list never holds a function twice. */
  lemma {:induction false} ExtendedUnique(list: seq<Entry>, fns: seq<Fn>)
    requires Distinct(list)
    ensures Distinct(Extended(list, fns, true))
    decreases |fns|
  {
    if fns != [] {
      if !HasFn(list, fns[0]) {
        assert Distinct(list + [Entry(fns[0], 0)]);
      }
      ExtendedUnique(if HasFn(list, fns[0]) then list else list + [Entry(fns[0], 0)], fns[1..]);
    }
  }

  /** A fire on a list at rest begins with its first entry, and is refused exactly if the list is gone, or was fired and
      is `once` or locked. */
  lemma FiredAtRest(ls: ListState, data: Data)
    requires ls.PassOk(false) && !ls.firing
    ensures var now := ls.FiredWith(data);
            if ls.list.None? || (ls.fired && ls.stack.None?) then now == ls
            else && now.firing && now.fired && now.firingIndex == 0 && now.stack == ls.stack
                 && now.memory == (if ls.options.memory then Some(data) else None)
                 && now.list.Some? && |now.list.value| == |ls.list.value|
                 && forall k :: 0 <= k < |ls.list.value| ==> now.list.value[k] == Entry(ls.list.value[k].fn, 0)
  {
  }

  /** At the end of the last fire a repeatable list keeps its entries; a `once` or locked one is emptied if there is something
      to remember for later additions, else it is disabled. A fire that was cut short is not remembered. */
  lemma EndMeans(ls: ListState, broken: bool)
    requires ls.list.Some? && !ls.EndStartsFire()
    ensures var now := ls.EndFire(broken);
            && !now.firing
            && now.memory == (if broken then None else ls.memory)
            && now.list == (if ls.stack.Some? then ls.list else if now.memory.Some? then Some([]) else None)
  {
  }

  /** A locked list that was fired refuses every fire, but with memory it still calls what is added. */
  lemma LockedMeans(ls: ListState, data: Data, fns: seq<Fn>)
    requires ls.PassOk(false) && !ls.firing
    ensures ls.Locked().FiredWith(data) == ls.Locked()
    ensures ls.memory.Some? && ls.list.Some? ==>
              && ls.Locked().list == ls.list && ls.Locked().AddStartsFire()
              && ls.Locked().Added(fns).firingIndex == |ls.list.value| && ls.Locked().Added(fns).memory == ls.memory
    ensures ls.memory.None? ==> ls.Locked() == ls.Disabled()
  {
  }

  /** A disabled list does nothing any more. */
  lemma DisabledStays(ls: ListState, data: Data, fns: seq<Fn>)
    ensures var d := ls.Disabled();
            d.Added(fns) == d && d.Removed(fns) == d && d.FiredWith(data) == d && d.Locked() == d && !d.HasTurn()
  {
  }

  /** A fire during a fire changes nothing about the running one; it queues up behind the others waiting. */
  lemma FiredWithKeeps(ls: ListState, data: Data, inCallback: bool)
    requires ls.PassOk(inCallback) && (ls.firing ==> inCallback)
    ensures ls.FiredWith(data).PassOk(inCallback && ls.firing)
    ensures ls.firing && ls.list.Some? && ls.stack.Some? ==>
              ls.FiredWith(data) == ls.(stack := Some(ls.stack.value + [data]))
    ensures ls.firing && (ls.list.None? || ls.stack.None?) ==> ls.FiredWith(data) == ls
  {
  }

  /** A turn calls the first entry that has not been called, and only that one. */
  lemma TurnKeeps(ls: ListState)
    requires ls.PassOk(false) && ls.firing && ls.HasTurn()
    ensures ls.Delivered().PassOk(true)
    ensures ls.list.value[ls.firingIndex].delivered == 0
    ensures forall k :: 0 <= k < ls.firingIndex ==> ls.list.value[k].delivered == 1
    ensures ls.Delivered().Returned().PassOk(false)
  {
  }

  lemma ReturnKeeps(ls: ListState)
    requires ls.PassOk(true) && ls.firing
    ensures ls.Returned().PassOk(false)
  {
  }

  /** When the loop ends by itself every listed entry has been called exactly once; then the next
      waiting fire begins, or the list rests. */
  lemma EndKeeps(ls: ListState, broken: bool)
    requires ls.PassOk(broken) && ls.firing && (broken || !ls.HasTurn())
    ensures ls.EndFire(broken).PassOk(false)
    ensures !broken && ls.list.Some? ==> forall k :: 0 <= k < |ls.list.value| ==> ls.list.value[k].delivered == 1
    ensures ls.EndStartsFire() ==> ls.EndFire(broken).firing && ls.EndFire(broken).stack == Some(ls.stack.value[1..])
                                   && (ls.options.memory ==> ls.EndFire(broken).memory == Some(ls.stack.value[0]))
  {
  }

  lemma LockedKeeps(ls: ListState, inCallback: bool)
    requires ls.PassOk(inCallback)
    ensures ls.Locked().PassOk(inCallback) && ls.Disabled().PassOk(inCallback)
  {
  }

  // ---- The object itself ----

  datatype Op = AddOp(fns: seq<Fn>) | RemoveOp(fns: seq<Fn>) | FireOp(data: Data) | LockOp | DisableOp

  /** What a running callback does to its own list, and whether it returns false. */
  datatype Script = Script(ops: seq<Op>, returnsFalse: bool)

  /** The callback neither locks nor disables the list. */
  ghost predicate TameOps(ops: seq<Op>) {
    forall i :: 0 <= i < |ops| ==> !ops[i].LockOp? && !ops[i].DisableOp?
  }

  ghost predicate Tame(scripts: seq<Script>) {
    forall n :: 0 <= n < |scripts| ==> TameOps(scripts[n].ops)
  }

  /** The data of the fires a callback asks for, in order. */
  function FireData(ops: seq<Op>): seq<Data> {
    if ops == [] then [] else
    var last := ops[|ops|-1];
    FireData(ops[..|ops|-1]) + if last.FireOp? then [last.data] else []
  }

  /** ... and of those that a series of callbacks asks for. */
  function FiresAsked(scripts: seq<Script>): seq<Data> {
    if scripts == [] then [] else FiresAsked(scripts[..|scripts|-1]) + FireData(scripts[|scripts|-1].ops)
  }

  lemma {:induction false} FiresAskedSplit(a: seq<Script>, b: seq<Script>)
    ensures FiresAsked(a + b) == FiresAsked(a) + FiresAsked(b)
    decreases |b|
  {
    if b == [] {
      assert a + b == a;
    } else {
      FiresAskedSplit(a, b[..|b|-1]);
      assert (a + b)[..|a+b|-1] == a + b[..|b|-1];
    }
  }

  lemma FireDataStep(before: seq<Data>, ops: seq<Op>, i: nat)
    requires i < |ops|
    ensures before + FireData(ops[..i+1])
            == if ops[i].FireOp? then before + FireData(ops[..i]) + [ops[i].data] else before + FireData(ops[..i])
  {
    assert ops[..i+1][..i] == ops[..i];
  }

  lemma FiresAskedStep(before: seq<Data>, scripts: seq<Script>, i: nat)
    requires i < |scripts|
    ensures before + FiresAsked(scripts[..i+1]) == before + FiresAsked(scripts[..i]) + FireData(scripts[i].ops)
  {
    assert scripts[..i+1][..i] == scripts[..i];
  }

  /** The further fires begun so far and those that wait are those that waited at first and those asked for meanwhile. */
  ghost predicate InOrder(begun: seq<Data>, stack: Option<seq<Data>>, first: Option<seq<Data>>, asked: seq<Data>) {
    if first.Some? then stack.Some? && begun + stack.value == first.value + asked else stack.None? && begun == []
  }

  lemma LoopInOrder(begun: seq<Data>, was: Option<seq<Data>>, now: Option<seq<Data>>, first: Option<seq<Data>>,
                    scripts: seq<Script>, used: nat, n: nat)
    requires used + n <= |scripts| && InOrder(begun, was, first, FiresAsked(scripts[..used]))
    requires now == if was.Some? then Some(was.value + FiresAsked(scripts[used..][..n])) else None
    ensures InOrder(begun, now, first, FiresAsked(scripts[..used + n]))
  {
    FiresAskedSplit(scripts[..used], scripts[used..][..n]);
    assert scripts[..used + n] == scripts[..used] + scripts[used..][..n];
    if first.Some? {
      var more := FiresAsked(scripts[used..][..n]);
      assert begun + (was.value + more) == begun + was.value + more;
    }
  }

  lemma NextInOrder(begun: seq<Data>, stack: Option<seq<Data>>, first: Option<seq<Data>>, asked: seq<Data>)
    requires InOrder(begun, stack, first, asked) && stack.Some? && stack.value != []
    ensures InOrder(begun + [stack.value[0]], Some(stack.value[1..]), first, asked)
  {
    assert begun + [stack.value[0]] + stack.value[1..] == begun + stack.value;
  }

  class CallbackList {
    const options: Options
    var list: Option<seq<Entry>>
    var stack: Option<seq<Data>>
    var memory: Option<Data>
    var fired: bool
    var firing: bool
    var firingIndex: int
    var firingLength: int
    var firingStart: nat

    ghost function State(): ListState
      reads this
    {
      ListState(options, list, stack, memory, fired, firing, firingIndex, firingLength, firingStart)
    }

    constructor (options: Options)
      ensures State() == ListState.Created(options)
    {
      this.options := options;
      list, stack, memory := Some([]), if options.once then None else Some([]), None;
      fired, firing, firingIndex, firingLength, firingStart := false, false, 0, 0, 0;
    }

    method BeginFire(data: Data)
      requires list.Some?
      modifies this
      ensures State() == old(State()).BeginFire(data)
    {
      memory := if options.memory then Some(data) else None;
      fired := true;
      firingIndex := firingStart;
      firingStart := 0;
      firingLength := |list.value|;
      firing := true;
    }

    method Has(fn: Fn) returns (r: bool)
      ensures r <==> list.Some? && HasFn(list.value, fn)
    {
      r := false;
      if list.Some? {
        var i := IndexOf(fn, 0);
        r := i < |list.value|;
      }
    }

    /** `jQuery.inArray( fn, list, from )`, with the length for "not found" */
    method IndexOf(fn: Fn, from: nat) returns (i: nat)
      requires list.Some? && from <= |list.value|
      ensures from <= i <= |list.value| && (i < |list.value| ==> list.value[i].fn == fn)
      ensures forall k :: from <= k < i ==> list.value[k].fn != fn
    {
      i := from;
      while i < |list.value| && list.value[i].fn != fn
        invariant from <= i <= |list.value|
        invariant forall k :: from <= k < i ==> list.value[k].fn != fn
      {
        i := i + 1;
      }
    }

    method Add(fns: seq<Fn>) returns (starts: bool)
      modifies this
      ensures State() == old(State()).Added(fns) && starts == old(State()).AddStartsFire()
    {
      starts := false;
      if list.None? { return; }
      var start := |list.value|;
      var i := 0;
      while i < |fns|
        invariant 0 <= i <= |fns| && list.Some?
        invariant State() == old(State()).(list := list)
        invariant Extended(list.value, fns[i..], options.unique) == Extended(old(list.value), fns, options.unique)
      {
        assert fns[i..] == [fns[i]] + fns[i+1..];
        var present := false;
        if options.unique { present := Has(fns[i]); }
        if !present { list := Some(list.value + [Entry(fns[i], 0)]); }
        i := i + 1;
      }
      if firing {
        firingLength := |list.value|;
      } else if memory.Some? {
        firingStart := start;
        starts := true;
        BeginFire(memory.value);
      }
    }

    method Remove(fns: seq<Fn>)
      modifies this
      ensures State() == old(State()).Removed(fns)
    {
      if list.None? { return; }
      var i := 0;
      while i < |fns|
        invariant 0 <= i <= |fns| && list.Some?
        invariant State().Removed(fns[i..]) == old(State()).Removed(fns)
      {
        ghost var target := State().RemovedFrom(fns[i], 0);
        assert fns[i..] == [fns[i]] + fns[i+1..];
        var index := IndexOf(fns[i], 0);
        SkipTo(State(), fns[i], 0, index);
        while index < |list.value|
          invariant list.Some? && index <= |list.value|
          invariant index < |list.value| ==> list.value[index].fn == fns[i]
          invariant State().RemovedFrom(fns[i], index) == target
          decreases |list.value|
        {
          ghost var before := State();
          list := Some(list.value[..index] + list.value[index+1..]);
          if firing {
            if index <= firingLength { firingLength := firingLength - 1; }
            if index <= firingIndex { firingIndex := firingIndex - 1; }
          }
          assert State() == before.SplicedAt(index);
          var next := IndexOf(fns[i], index);
          SkipTo(State(), fns[i], index, next);
          index := next;
        }
        RemovedFromLeavesOthers(State(), fns[i], index);
        i := i + 1;
      }
    }

    method Disable()
      modifies this
      ensures State() == old(State()).Disabled()
    {
      list, stack, memory := None, None, None;
    }

    method Lock()
      modifies this
      ensures State() == old(State()).Locked()
    {
      stack := None;
      if memory.None? { Disable(); }
    }

    method FireWith(data: Data) returns (starts: bool)
      modifies this
      ensures State() == old(State()).FiredWith(data) && starts == old(State()).FireWithStartsFire()
    {
      starts := false;
      if list.Some? && (!fired || stack.Some?) {
        if firing {
          if stack.Some? { stack := Some(stack.value + [data]); }
        } else {
          starts := true;
          list := Some(Fresh(list.value));
          BeginFire(data);
        }
      }
    }

    /** `list[ firingIndex ].apply( ... )`, up to the point where the callback takes over */
    method CallNext() returns (fn: Fn)
      requires State().HasTurn()
      modifies this
      ensures State() == old(State()).Delivered() && fn == old(list.value[firingIndex].fn)
    {
      var e := list.value[firingIndex];
      list := Some(list.value[firingIndex := e.(delivered := e.delivered + 1)]);
      fn := e.fn;
    }

    /** The part of `fire` after the loop. */
    method EndFire(broken: bool) returns (starts: bool)
      modifies this
      ensures State() == old(State()).EndFire(broken) && starts == old(State()).EndStartsFire()
    {
      starts := false;
      if broken { memory := None; }
      firing := false;
      if list.Some? {
        if stack.Some? {
          if stack.value != [] {
            var data := stack.value[0];
            stack := Some(stack.value[1..]);
            starts := true;
            list := Some(Fresh(list.value));
            BeginFire(data);
          }
        } else if memory.Some? {
          list := Some([]);
        } else {
          Disable();
        }
      }
    }

    /** What a running callback may do to the list. Fires it asks for wait behind those that wait already. */
    method Perform(ops: seq<Op>)
      requires State().PassOk(true) && firing
      modifies this
      ensures State().PassOk(true) && firing
      ensures TameOps(ops) && old(list.Some?) ==> list.Some?
      ensures TameOps(ops) && old(list.Some?) && old(stack.Some?) ==> stack == Some(old(stack.value) + FireData(ops))
      ensures TameOps(ops) && old(stack.None?) ==> stack.None?
    {
      var i := 0;
      assert old(stack.Some?) ==> old(stack.value) + FireData(ops[..0]) == old(stack.value);
      while i < |ops|
        invariant 0 <= i <= |ops| && State().PassOk(true) && firing
        invariant TameOps(ops) && old(list.Some?) ==> list.Some?
        invariant TameOps(ops) && old(list.Some?) && old(stack.Some?) ==> stack == Some(old(stack.value) + FireData(ops[..i]))
        invariant TameOps(ops) && old(stack.None?) ==> stack.None?
      {
        ghost var before := State();
        FireDataStep(if old(stack.Some?) then old(stack.value) else [], ops, i);
        match ops[i] {
          case AddOp(fns) => AddedKeeps(before, fns, true); var starts := Add(fns);
          case RemoveOp(fns) => RemovedKeeps(before, fns, true); RemovedStays(before, fns); Remove(fns);
          case FireOp(data) => FiredWithKeeps(before, data, true); var starts := FireWith(data);
          case LockOp => LockedKeeps(before, true); Lock();
          case DisableOp => LockedKeeps(before, true); Disable();
        }
        i := i + 1;
      }
      assert ops[..i] == ops;
    }

    /** One pass of the loop: the callback whose turn it is runs the next script, if there is one. */
    method TakeTurn(scripts: seq<Script>) returns (left: seq<Script>, broken: bool)
      requires State().PassOk(false) && firing && State().HasTurn()
      modifies this
      ensures State().PassOk(broken) && firing
      ensures scripts != [] ==> left == scripts[1..]
      ensures scripts == [] ==> left == [] && !broken && list.Some? && stack == old(stack)
                                && firingIndex == old(firingIndex) + 1 && firingLength == old(firingLength)
      ensures scripts != [] && TameOps(scripts[0].ops) ==>
                list.Some? && stack == if old(stack.Some?) then Some(old(stack.value) + FireData(scripts[0].ops)) else None
      ensures broken <==> scripts != [] && scripts[0].returnsFalse && options.stopOnFalse
    {
      left, broken := scripts, false;
      TurnKeeps(State());
      var fn := CallNext();
      if left != [] {
        Perform(left[0].ops);
        broken := left[0].returnsFalse && options.stopOnFalse;
        left := left[1..];
      }
      if !broken {
        ReturnKeeps(State());
        firingIndex := firingIndex + 1;
      }
    }

    /** The loop of `fire`, for one fire; `used` callbacks ran a script. */
    method FireLoop(scripts: seq<Script>) returns (left: seq<Script>, broken: bool, ghost used: nat)
      requires State().PassOk(false) && firing
      modifies this
      ensures State().PassOk(broken) && firing && (broken || !State().HasTurn())
      ensures broken ==> options.stopOnFalse
      ensures used <= |scripts| && left == scripts[used..]
      ensures used == 0 ==> stack == old(stack)
      ensures Tame(scripts) && old(list.Some?) ==>
                list.Some? && stack == if old(stack.Some?) then Some(old(stack.value) + FiresAsked(scripts[..used])) else None
    {
      left, broken, used := scripts, false, 0;
      assert old(stack.Some?) ==> old(stack.value) + FiresAsked(scripts[..0]) == old(stack.value);
      while list.Some? && firingIndex < firingLength && !broken
        invariant State().PassOk(broken) && firing
        invariant broken ==> options.stopOnFalse
        invariant used <= |scripts| && left == scripts[used..]
        invariant used == 0 ==> stack == old(stack)
        invariant Tame(scripts) && old(list.Some?) ==>
                    list.Some? && stack == if old(stack.Some?) then Some(old(stack.value) + FiresAsked(scripts[..used])) else None
        decreases |left|, firingLength - firingIndex, !broken
      {
        if used < |scripts| { FiresAskedStep(if old(stack.Some?) then old(stack.value) else [], scripts, used); }
        left, broken := TakeTurn(left);
        if used < |scripts| { used := used + 1; }
      }
    }

    /** `fire`, once begun: its loop, and the fires that were waiting when the loop ended. The n-th callback called
        runs the n-th script; later ones do nothing. `begun` lists the data of the further fires, and `last` is the
        list as the last loop left it. Every entry in it has been called exactly once with the data of the last fire,
        unless a callback cut that fire short; and the further fires are those that waited and those asked for
        meanwhile, in the order in which they were asked for. */
    method Fire(scripts: seq<Script>) returns (ghost last: Option<seq<Entry>>, ghost begun: seq<Data>, ghost used: nat)
      requires State().PassOk(false) && firing
      modifies this
      ensures State().PassOk(false) && !firing
      ensures last.Some? && !options.stopOnFalse ==> forall k :: 0 <= k < |last.value| ==> last.value[k].delivered == 1
      ensures list.Some? ==> last.Some? && (list == last || list == Some([]))
      ensures used <= |scripts|
      ensures old(list.Some?) && Tame(scripts) ==>
                && last.Some?
                && begun == if old(stack.Some?) then old(stack.value) + FiresAsked(scripts[..used]) else []
      ensures old(list.Some?) && Tame(scripts) && old(stack.Some?) ==> list == last
    {
      var left, broken := scripts, false;
      var starts := true;
      used, begun, last := 0, [], None;
      ghost var tame := old(list.Some?) && Tame(scripts);
      while starts
        invariant State().PassOk(false) && firing == starts
        invariant used <= |scripts| && left == scripts[used..]
        invariant starts && tame ==> list.Some?
        invariant tame ==> InOrder(begun, stack, old(stack), FiresAsked(scripts[..used]))
        invariant !starts ==> Ended(last, tame)
        decreases |left|, if starts then 1 else 0, if stack.Some? then |stack.value| else 0
      {
        ghost var before, was := used, stack;
        ghost var n: nat;
        left, broken, n := FireLoop(left);
        used := used + n;
        if tame {
          LoopInOrder(begun, was, stack, old(stack), scripts, before, n);
          if stack.Some? && stack.value != [] { NextInOrder(begun, stack, old(stack), FiresAsked(scripts[..used])); }
        }
        last := list;
        ghost var waiting := stack;
        starts := FinishFire(broken);
        if starts { begun := begun + [waiting.value[0]]; }
      }
      if tame && old(stack.Some?) { assert begun + [] == begun; }
    }

    /** What holds after the last loop, which left the list `last`. */
    ghost predicate Ended(last: Option<seq<Entry>>, tame: bool)
      reads this
    {
      && (last.Some? && !options.stopOnFalse ==> forall k :: 0 <= k < |last.value| ==> last.value[k].delivered == 1)
      && (list.Some? ==> last.Some? && (list == last || list == Some([])))
      && (tame ==> last.Some? && (stack.Some? ==> stack == Some([]) && list == last))
    }

    /** The end of one fire. */
    method FinishFire(broken: bool) returns (starts: bool)
      requires State().PassOk(broken) && firing && (broken || !State().HasTurn()) && (broken ==> options.stopOnFalse)
      modifies this
      ensures State() == old(State()).EndFire(broken) && State().PassOk(false) && firing == starts
      ensures starts ==> old(list.Some? && stack.Some? && stack.value != []) && list.Some? && stack == Some(old(stack.value[1..]))
      ensures !starts ==> stack == old(stack) || (stack.None? && old(list.Some?) && old(stack.None?))
      ensures !starts ==> Ended(old(list), old(list.Some?))
    {
      EndKeeps(State(), broken);
      starts := EndFire(broken);
    }
  }

  /** Scanning over other functions changes nothing. */
  lemma {:induction false} SkipTo(ls: ListState, fn: Fn, from: nat, until: nat)
    requires ls.list.Some? && from <= until <= |ls.list.value|
    requires forall k :: from <= k < until ==> ls.list.value[k].fn != fn
    ensures ls.RemovedFrom(fn, from) == ls.RemovedFrom(fn, until)
    decreases until - from
  {
    if from < until { SkipTo(ls, fn, from + 1, until); }
  }
}
