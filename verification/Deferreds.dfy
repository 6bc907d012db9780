/** `jQuery.Deferred`: three callback lists that settle, disable and lock each other. The state
    machine below takes one step for every entry to or return from a callback, so that user code,
    running inside a callback or outside all of them, may call the deferred at any such point. */
module Deferreds {
  import opened Dom
  import opened Callbacks

  /** Where a list's `fire` loop is: not running, about to look for the next turn, or inside a user callback. */
  datatype Phase = Idle | AtLoop | InCallback

  datatype Call = Call(fn: Fn, data: Data)

  /** One list with its loop; `data` is the argument of the running `fire`. `added` and `calls` record all
      registrations and all calls made. */
  datatype Slot = Slot(ls: ListState, phase: Phase, data: Data, added: seq<Fn>, calls: seq<Call>)

  /** `frames` are the lists whose loops are running, the innermost last. */
  datatype State = State(slots: seq<Slot>, state: Settlement, frames: seq<nat>)

  /** The lists of a Deferred. */
  const DONE := 0
  const FAIL := 1
  const PROGRESS := 2

  datatype Action =
    | Register(l: nat, fns: seq<nat>)   // done, fail or progress
    | Trigger(l: nat, data: Data)       // resolve, reject or notify
    | Proceed                           // the innermost loop runs on to its next call or its end
    | Return                            // the innermost user callback returns

  function Final(w: nat): Settlement {
    if w == DONE then Resolved else Rejected
  }

  /** What the constructor puts on the done and fail lists. */
  function Builtins(l: nat): seq<Fn> {
    if l < PROGRESS then [SetState(Final(l)), DisableList(1 - l), LockList(PROGRESS)] else []
  }

  function Users(ids: seq<nat>): seq<Fn> {
    seq(|ids|, i requires 0 <= i < |ids| => User(ids[i]))
  }

  function NewSlot(l: nat): Slot {
    var fns := Builtins(l);
    Slot(ListState.Created(Options(l < PROGRESS, true, false, false)).Added(fns), Idle, 0, fns, [])
  }

  function NewDeferred(): State {
    State([NewSlot(DONE), NewSlot(FAIL), NewSlot(PROGRESS)], Pending, [])
  }

  predicate Shaped(s: State) {
    |s.slots| == 3 && forall k :: 0 <= k < |s.frames| ==> s.frames[k] < 3
  }

  function Top(s: State): nat
    requires s.frames != []
  {
    s.frames[|s.frames| - 1]
  }

  /** User code is running. */
  predicate MayCall(s: State)
    requires Shaped(s)
  {
    s.frames == [] || s.slots[Top(s)].phase == InCallback
  }

  function SetSlot(s: State, l: nat, slot: Slot): State
    requires l < |s.slots|
  {
    s.(slots := s.slots[l := slot])
  }

  /** The effect of a callback that the Deferred itself registered. */
  function Effect(s: State, fn: Fn): State {
    match fn
    case User(_) => s
    case SetState(to) => s.(state := to)
    case DisableList(l) => if l < |s.slots| then SetSlot(s, l, s.slots[l].(ls := s.slots[l].ls.Disabled())) else s
    case LockList(l) => if l < |s.slots| then SetSlot(s, l, s.slots[l].(ls := s.slots[l].ls.Locked())) else s
  }

  function DoRegister(s: State, l: nat, fns: seq<Fn>): State
    requires Shaped(s) && l < 3
  {
    var slot := s.slots[l];
    var now := slot.(ls := slot.ls.Added(fns), added := slot.added + fns);
    if slot.ls.AddStartsFire() then
      SetSlot(s, l, now.(phase := AtLoop, data := slot.ls.memory.value)).(frames := s.frames + [l])
    else SetSlot(s, l, now)
  }

  function DoTrigger(s: State, l: nat, data: Data): State
    requires Shaped(s) && l < 3
  {
    var slot := s.slots[l];
    var now := slot.(ls := slot.ls.FiredWith(data));
    if slot.ls.FireWithStartsFire() then
      SetSlot(s, l, now.(phase := AtLoop, data := data)).(frames := s.frames + [l])
    else SetSlot(s, l, now)
  }

  /** The innermost loop calls the callback whose turn it is. */
  function DoTurn(s: State): State
    requires Shaped(s) && s.frames != [] && s.slots[Top(s)].ls.HasTurn()
  {
    var l := Top(s);
    var slot := s.slots[l];
    var fn := slot.ls.list.value[slot.ls.firingIndex].fn;
    var called := slot.(ls := slot.ls.Delivered(), calls := slot.calls + [Call(fn, slot.data)]);
    if fn.User? then SetSlot(s, l, called.(phase := InCallback))
    else
      var after := Effect(SetSlot(s, l, called), fn);
      SetSlot(after, l, after.slots[l].(ls := after.slots[l].ls.Returned()))
  }

  /** The innermost loop ends, and a waiting fire begins or the frame is left. */
  function DoEnd(s: State): State
    requires Shaped(s) && s.frames != []
  {
    var l := Top(s);
    var slot := s.slots[l];
    var ended := slot.(ls := slot.ls.EndFire(false));
    if slot.ls.EndStartsFire() then SetSlot(s, l, ended.(data := slot.ls.stack.value[0]))
    else SetSlot(s, l, ended.(phase := Idle)).(frames := s.frames[..|s.frames| - 1])
  }

  /** One step; an action that is not possible now changes nothing. */
  function Step(s: State, a: Action): State
    requires Shaped(s)
  {
    match a
    case Register(l, ids) => if l < 3 && MayCall(s) then DoRegister(s, l, Users(ids)) else s
    case Trigger(l, data) => if l < 3 && MayCall(s) then DoTrigger(s, l, data) else s
    case Proceed =>
      if MayCall(s) then s
      else if s.slots[Top(s)].ls.HasTurn() then DoTurn(s) else DoEnd(s)
    case Return =>
      if s.frames == [] || !MayCall(s) then s
      else
        var slot := s.slots[Top(s)];
        SetSlot(s, Top(s), slot.(ls := slot.ls.Returned(), phase := AtLoop))
  }

  function Run(s: State, actions: seq<Action>): (r: State)
    requires Shaped(s)
    ensures Shaped(r)
    decreases |actions|
  {
    if actions == [] then s else
    StepShaped(s, actions[0]);
    Run(Step(s, actions[0]), actions[1..])
  }

  lemma StepShaped(s: State, a: Action)
    requires Shaped(s)
    ensures Shaped(Step(s, a))
  {
  }

  // ---- The invariant ----

  function Fns(list: seq<Entry>): seq<Fn> {
    seq(|list|, i requires 0 <= i < |list| => list[i].fn)
  }

  function CallFns(calls: seq<Call>): seq<Fn> {
    seq(|calls|, i requires 0 <= i < |calls| => calls[i].fn)
  }

  ghost predicate AllWith(calls: seq<Call>, data: Data) {
    forall k :: 0 <= k < |calls| ==> calls[k].data == data
  }

  /** Loops and frames belong together: each running loop has one frame, and all frames but the
      innermost are inside a user callback. */
  ghost predicate Framed(s: State)
    requires Shaped(s)
  {
    && (forall l :: 0 <= l < 3 ==> (s.slots[l].phase != Idle <==> l in s.frames))
    && (forall l :: 0 <= l < 3 ==> (s.slots[l].phase != Idle <==> s.slots[l].ls.firing))
    && (forall j, k :: 0 <= j < k < |s.frames| ==> s.frames[j] != s.frames[k])
    && (forall k :: 0 <= k < |s.frames| - 1 ==> s.slots[s.frames[k]].phase == InCallback)
    && (forall l :: 0 <= l < 3 ==> s.slots[l].ls.PassOk(s.slots[l].phase == InCallback))
    && (forall l :: 0 <= l < 3 ==> s.slots[l].ls.options == Options(l < PROGRESS, true, false, false))
  }

  ghost predicate AllUser(fns: seq<Fn>) {
    forall k :: 0 <= k < |fns| ==> fns[k].User?
  }

  /** Only the constructor registers built-in callbacks. */
  ghost predicate Populated(s: State)
    requires Shaped(s)
  {
    && (forall l :: 0 <= l < 2 ==> Builtins(l) <= s.slots[l].added && AllUser(s.slots[l].added[3..]))
    && (s.slots[PROGRESS].ls.list.Some? ==> AllUser(Fns(s.slots[PROGRESS].ls.list.value)))
  }

  /** Never fired: everything registered so far is waiting, the built-in callbacks first. */
  ghost predicate Untouched(slot: Slot) {
    && slot.phase == Idle && slot.calls == []
    && slot.ls.list.Some? && slot.ls.stack.None? && slot.ls.memory.None? && !slot.ls.fired && !slot.ls.firing
    && Fns(slot.ls.list.value) == slot.added
  }

  /** Fired: what was called, followed by what is still to be called, is what was registered. */
  ghost predicate Delivering(slot: Slot) {
    && slot.ls.fired && slot.ls.stack.None? && slot.ls.memory == Some(slot.data) && slot.ls.list.Some?
    && AllWith(slot.calls, slot.data)
    && (slot.ls.firing ==>
          && 0 <= slot.ls.Turn(slot.phase == InCallback) <= |slot.ls.list.value|
          && CallFns(slot.calls) + Fns(slot.ls.list.value[slot.ls.Turn(slot.phase == InCallback)..]) == slot.added)
    && (!slot.ls.firing ==> slot.ls.list == Some([]) && CallFns(slot.calls) == slot.added)
  }

  /** Disabled before it could call anything. */
  ghost predicate Cut(slot: Slot) {
    slot.phase == Idle && !slot.ls.firing && slot.ls.list.None? && slot.calls == []
  }

  /** No notification can start a firing any more. */
  ghost predicate Closed(slot: Slot) {
    slot.ls.stack.None? && (slot.ls.list.None? || slot.ls.fired)
  }

  ghost predicate Unsettled(s: State)
    requires Shaped(s)
  {
    && s.state == Pending && Untouched(s.slots[DONE]) && Untouched(s.slots[FAIL])
    && s.slots[PROGRESS].ls.list.Some? && s.slots[PROGRESS].ls.stack.Some?
  }

  /** The first fire of list `w` has run some, but not all, of the three built-in callbacks. */
  ghost predicate Settling(s: State, w: nat)
    requires Shaped(s) && w < 2
  {
    var k := |s.slots[w].calls|;
    && k < 3 && s.frames != [] && Top(s) == w && s.slots[w].phase == AtLoop
    && Delivering(s.slots[w]) && s.slots[w].ls.firing && s.slots[w].ls.firingIndex == k
    && s.state == (if k == 0 then Pending else Final(w))
    && (if k < 2 then Untouched(s.slots[1-w]) else Cut(s.slots[1-w]))
  }

  ghost predicate Settled(s: State, w: nat)
    requires Shaped(s) && w < 2
  {
    && s.state == Final(w) && Delivering(s.slots[w]) && |s.slots[w].calls| >= 3 && Cut(s.slots[1-w]) && Closed(s.slots[PROGRESS])
  }

  ghost predicate Inv(s: State) {
    && Shaped(s) && Framed(s) && Populated(s)
    && (Unsettled(s) || Settling(s, DONE) || Settling(s, FAIL) || Settled(s, DONE) || Settled(s, FAIL))
  }

  /** Inv with the winning list named. */
  ghost predicate Won(s: State, w: nat) {
    && w < 2 && Shaped(s) && Framed(s) && Populated(s) && Settled(s, w)
  }

  // ---- One list at a time ----

  lemma {:induction false} ExtendedFns(list: seq<Entry>, fns: seq<Fn>)
    ensures Fns(Extended(list, fns, false)) == Fns(list) + fns
    decreases |fns|
  {
    if fns != [] {
      var more := list + [Entry(fns[0], 0)];
      ExtendedFns(more, fns[1..]);
      assert Fns(more) == Fns(list) + [fns[0]];
      assert Fns(list) + fns == Fns(more) + fns[1..];
    }
  }

  lemma {:induction false} ExtendedIsPrefix(list: seq<Entry>, fns: seq<Fn>)
    ensures list <= Extended(list, fns, false) && |Extended(list, fns, false)| == |list| + |fns|
    decreases |fns|
  {
    if fns != [] { ExtendedIsPrefix(list + [Entry(fns[0], 0)], fns[1..]); }
  }

  lemma UntouchedAdds(slot: Slot, fns: seq<Fn>)
    requires Untouched(slot) && !slot.ls.options.unique
    ensures Untouched(slot.(ls := slot.ls.Added(fns), added := slot.added + fns)) && !slot.ls.AddStartsFire()
  {
    ExtendedFns(slot.ls.list.value, fns);
  }

  lemma UntouchedFires(slot: Slot, data: Data)
    requires Untouched(slot) && slot.ls.options == Options(true, true, false, false) && slot.ls.firingStart == 0
    ensures slot.ls.FireWithStartsFire()
    ensures Delivering(slot.(ls := slot.ls.FiredWith(data), phase := AtLoop, data := data))
  {
    var list := slot.ls.list.value;
    assert Fns(Fresh(list)[0..]) == Fns(list);
  }

  lemma DeliveringAdds(slot: Slot, fns: seq<Fn>)
    requires Delivering(slot) && !slot.ls.options.unique && slot.ls.PassOk(slot.phase == InCallback)
    requires slot.phase == Idle <==> !slot.ls.firing
    requires slot.phase != AtLoop
    ensures var now := slot.(ls := slot.ls.Added(fns), added := slot.added + fns);
            Delivering(if slot.ls.AddStartsFire() then now.(phase := AtLoop, data := slot.ls.memory.value) else now)
  {
    var list := slot.ls.list.value;
    ExtendedFns(list, fns);
    ExtendedIsPrefix(list, fns);
    var more := Extended(list, fns, false);
    if slot.ls.firing {
      AddedBehind(CallFns(slot.calls), list, more, slot.ls.Turn(slot.phase == InCallback), fns, slot.added);
    } else {
      assert more[0..] == more && Fns(more) == fns;
    }
  }

  /** What is added behind the list is called after everything registered before. */
  lemma AddedBehind(called: seq<Fn>, list: seq<Entry>, more: seq<Entry>, turn: nat, fns: seq<Fn>, added: seq<Fn>)
    requires turn <= |list| && Fns(more) == Fns(list) + fns && called + Fns(list[turn..]) == added
    ensures turn <= |more| && called + Fns(more[turn..]) == added + fns
  {
    assert |Fns(more)| == |more| && |Fns(list)| == |list|;
    assert Fns(more[turn..]) == Fns(more)[turn..] && Fns(list[turn..]) == Fns(list)[turn..];
    assert (Fns(list) + fns)[turn..] == Fns(list)[turn..] + fns;
    assert called + (Fns(list[turn..]) + fns) == called + Fns(list[turn..]) + fns;
  }

  /** The turn goes to the next registration. */
  lemma DeliveringTurns(slot: Slot)
    requires Delivering(slot) && slot.ls.firing && slot.phase == AtLoop && slot.ls.PassOk(false) && slot.ls.HasTurn()
    ensures var fn := slot.ls.list.value[slot.ls.firingIndex].fn;
            var called := slot.(ls := slot.ls.Delivered(), calls := slot.calls + [Call(fn, slot.data)]);
            && |slot.calls| < |slot.added| && fn == slot.added[|slot.calls|]
            && Delivering(called.(phase := InCallback))
            && Delivering(called.(ls := called.ls.Returned()))
  {
    var list, turn := slot.ls.list.value, slot.ls.firingIndex;
    var fn := list[turn].fn;
    var list' := slot.ls.Delivered().list.value;
    assert Fns(list[turn..]) == [fn] + Fns(list'[turn+1..]);
    var calls' := slot.calls + [Call(fn, slot.data)];
    assert CallFns(calls') == CallFns(slot.calls) + [fn];
    assert CallFns(calls') + Fns(list'[turn+1..]) == slot.added;
  }

  lemma DeliveringEnds(slot: Slot)
    requires Delivering(slot) && slot.ls.firing && slot.phase == AtLoop && slot.ls.PassOk(false) && !slot.ls.HasTurn()
    ensures !slot.ls.EndStartsFire() && Delivering(slot.(ls := slot.ls.EndFire(false), phase := Idle))
  {
    assert slot.ls.list.value[slot.ls.firingIndex..] == [];
    assert CallFns(slot.calls) + Fns([]) == CallFns(slot.calls);
  }

  // ---- Frames ----

  lemma NobodyAtLoop(s: State)
    requires Shaped(s) && Framed(s) && MayCall(s)
    ensures forall l :: 0 <= l < 3 ==> s.slots[l].phase != AtLoop
  {
    forall l | 0 <= l < 3 ensures s.slots[l].phase != AtLoop {
      if s.slots[l].phase != Idle {
        var k :| 0 <= k < |s.frames| && s.frames[k] == l;
      }
    }
  }

  lemma TopIsFiring(s: State)
    requires Shaped(s) && Framed(s) && s.frames != []
    ensures Top(s) < 3 && s.slots[Top(s)].phase != Idle && s.slots[Top(s)].ls.firing
  {
    assert s.frames[|s.frames| - 1] in s.frames;
  }

  lemma RegisterFramed(s: State, l: nat, fns: seq<Fn>)
    requires Shaped(s) && Framed(s) && MayCall(s) && l < 3
    ensures Framed(DoRegister(s, l, fns))
  {
    NobodyAtLoop(s);
    AddedKeeps(s.slots[l].ls, fns, s.slots[l].phase == InCallback);
  }

  lemma TriggerFramed(s: State, l: nat, data: Data)
    requires Shaped(s) && Framed(s) && MayCall(s) && l < 3
    ensures Framed(DoTrigger(s, l, data))
  {
    NobodyAtLoop(s);
    FiredWithKeeps(s.slots[l].ls, data, s.slots[l].phase == InCallback);
  }

  lemma EffectFramed(s: State, fn: Fn)
    requires Shaped(s) && Framed(s)
    ensures Shaped(Effect(s, fn)) && Framed(Effect(s, fn)) && Effect(s, fn).frames == s.frames
  {
    match fn
    case User(_) =>
    case SetState(_) =>
    case DisableList(l) =>
      if l < 3 {
        LockedKeeps(s.slots[l].ls, s.slots[l].phase == InCallback);
        ReplacedFramed(s, l, s.slots[l].ls.Disabled());
      }
    case LockList(l) =>
      if l < 3 {
        LockedKeeps(s.slots[l].ls, s.slots[l].phase == InCallback);
        ReplacedFramed(s, l, s.slots[l].ls.Locked());
      }
  }

  lemma ReplacedFramed(s: State, l: nat, ls: ListState)
    requires Shaped(s) && Framed(s) && l < 3
    requires ls.PassOk(s.slots[l].phase == InCallback) && ls.firing == s.slots[l].ls.firing && ls.options == s.slots[l].ls.options
    ensures Framed(SetSlot(s, l, s.slots[l].(ls := ls)))
  {
  }

  lemma EndFramed(s: State)
    requires Shaped(s) && Framed(s) && !MayCall(s) && !s.slots[Top(s)].ls.HasTurn()
    ensures Framed(DoEnd(s))
  {
    TopIsFiring(s);
    EndKeeps(s.slots[Top(s)].ls, false);
  }

  lemma ReturnFramed(s: State)
    requires Shaped(s) && Framed(s) && s.frames != [] && MayCall(s)
    ensures Framed(Step(s, Return))
  {
    TopIsFiring(s);
    ReturnKeeps(s.slots[Top(s)].ls);
  }

  function TurnFn(s: State): Fn
    requires Shaped(s) && s.frames != [] && s.slots[Top(s)].ls.HasTurn()
  {
    s.slots[Top(s)].ls.list.value[s.slots[Top(s)].ls.firingIndex].fn
  }

  /** Built-in callbacks touch other lists than the one that calls them. */
  predicate Elsewhere(fn: Fn, l: nat) {
    (fn.DisableList? ==> fn.l != l) && (fn.LockList? ==> fn.l != l)
  }

  lemma TurnFramed(s: State)
    requires Shaped(s) && Framed(s) && !MayCall(s) && s.slots[Top(s)].ls.HasTurn() && Elsewhere(TurnFn(s), Top(s))
    ensures Framed(DoTurn(s))
  {
    TopIsFiring(s);
    var l, fn := Top(s), TurnFn(s);
    TurnKeeps(s.slots[l].ls);
    if !fn.User? {
      EffectFramed(s, fn);
      TurnCommutes(s);
    }
  }

  /** A built-in callback's call is the same as its effect followed by the bookkeeping. */
  lemma TurnCommutes(s: State)
    requires Shaped(s) && s.frames != [] && s.slots[Top(s)].ls.HasTurn()
    requires !TurnFn(s).User? && Elsewhere(TurnFn(s), Top(s))
    ensures var l, fn := Top(s), TurnFn(s);
            var slot := s.slots[l];
            DoTurn(s) == SetSlot(Effect(s, fn), l,
              slot.(ls := slot.ls.Delivered().Returned(), calls := slot.calls + [Call(fn, slot.data)]))
  {
  }

  /** The slot of a list after its turn went to a built-in callback. */
  function Advanced(slot: Slot): Slot
    requires slot.ls.HasTurn()
  {
    slot.(ls := slot.ls.Delivered().Returned(),
          calls := slot.calls + [Call(slot.ls.list.value[slot.ls.firingIndex].fn, slot.data)])
  }

  /** What a built-in callback leaves: its own list advanced, and its effect on the state or one other list. */
  lemma BuiltinTurn(s: State, w: nat)
    requires Shaped(s) && w < 2 && s.frames != [] && Top(s) == w && s.slots[w].ls.HasTurn()
    requires TurnFn(s) in {SetState(Final(w)), DisableList(1 - w), LockList(PROGRESS)}
    ensures var s' := DoTurn(s);
            && Shaped(s') && s'.frames == s.frames && s'.slots[w] == Advanced(s.slots[w])
            && s'.state == (if TurnFn(s).SetState? then Final(w) else s.state)
            && s'.slots[1-w] == (if TurnFn(s).DisableList? then s.slots[1-w].(ls := s.slots[1-w].ls.Disabled()) else s.slots[1-w])
            && s'.slots[PROGRESS] == (if TurnFn(s).LockList? then s.slots[PROGRESS].(ls := s.slots[PROGRESS].ls.Locked())
                                      else s.slots[PROGRESS])
  {
    TurnCommutes(s);
  }

  lemma RegisterIs(s: State, l: nat, fns: seq<Fn>)
    requires Shaped(s) && l < 3
    ensures var s', slot := DoRegister(s, l, fns), s.slots[l];
            var now := slot.(ls := slot.ls.Added(fns), added := slot.added + fns);
            && Shaped(s') && s'.state == s.state && (forall k: nat :: k < 3 && k != l ==> s'.slots[k] == s.slots[k])
            && s'.slots[l] == (if slot.ls.AddStartsFire() then now.(phase := AtLoop, data := slot.ls.memory.value) else now)
            && s'.frames == (if slot.ls.AddStartsFire() then s.frames + [l] else s.frames)
  {
  }

  lemma TriggerIs(s: State, l: nat, data: Data)
    requires Shaped(s) && l < 3
    ensures var s', slot := DoTrigger(s, l, data), s.slots[l];
            var now := slot.(ls := slot.ls.FiredWith(data));
            && Shaped(s') && s'.state == s.state && (forall k: nat :: k < 3 && k != l ==> s'.slots[k] == s.slots[k])
            && s'.slots[l] == (if slot.ls.FireWithStartsFire() then now.(phase := AtLoop, data := data) else now)
            && s'.frames == (if slot.ls.FireWithStartsFire() then s.frames + [l] else s.frames)
  {
  }

  lemma ReturnIs(s: State)
    requires Shaped(s) && s.frames != [] && MayCall(s)
    ensures var s', l := Step(s, Return), Top(s);
            && Shaped(s') && s'.state == s.state && s'.frames == s.frames
            && (forall k: nat :: k < 3 && k != l ==> s'.slots[k] == s.slots[k])
            && s'.slots[l] == s.slots[l].(ls := s.slots[l].ls.Returned(), phase := AtLoop)
  {
  }

  // ---- One step of the whole machine ----

  lemma PopulatedAdds(s: State, l: nat, ids: seq<nat>)
    requires Shaped(s) && Populated(s) && l < 3 && !s.slots[l].ls.options.unique
    ensures Populated(DoRegister(s, l, Users(ids)))
  {
    var fns, slot := Users(ids), s.slots[l];
    assert AllUser(fns);
    RegisterIs(s, l, fns);
    if l < 2 {
      assert (slot.added + fns)[3..] == slot.added[3..] + fns;
    } else if slot.ls.list.Some? {
      ExtendedFns(slot.ls.list.value, fns);
    }
  }

  ghost predicate Open(s: State) {
    Shaped(s) && Framed(s) && Populated(s) && Unsettled(s)
  }

  ghost predicate Winning(s: State, w: nat) {
    w < 2 && Shaped(s) && Framed(s) && Populated(s) && Settling(s, w)
  }

  lemma Cases(s: State)
    ensures Inv(s) <==> Open(s) || Winning(s, DONE) || Winning(s, FAIL) || Won(s, DONE) || Won(s, FAIL)
  {
  }

  lemma OpenRegisters(s: State, l: nat, ids: seq<nat>)
    requires Open(s) && MayCall(s) && l < 3
    ensures Open(DoRegister(s, l, Users(ids)))
  {
    RegisterFramed(s, l, Users(ids));
    PopulatedAdds(s, l, ids);
    UnsettledRegisters(s, l, Users(ids));
  }

  lemma UnsettledRegisters(s: State, l: nat, fns: seq<Fn>)
    requires Shaped(s) && l < 3 && Unsettled(s) && !s.slots[l].ls.options.unique
    ensures Shaped(DoRegister(s, l, fns)) && Unsettled(DoRegister(s, l, fns))
  {
    RegisterIs(s, l, fns);
    if l < 2 { UntouchedAdds(s.slots[l], fns); }
  }

  lemma WonRegisters(s: State, w: nat, l: nat, ids: seq<nat>)
    requires Won(s, w) && MayCall(s) && l < 3
    ensures Won(DoRegister(s, l, Users(ids)), w)
    ensures DoRegister(s, l, Users(ids)).slots[w].data == s.slots[w].data
  {
    RegisterFramed(s, l, Users(ids));
    PopulatedAdds(s, l, ids);
    NobodyAtLoop(s);
    SettledRegisters(s, w, l, Users(ids));
  }

  lemma SettledRegisters(s: State, w: nat, l: nat, fns: seq<Fn>)
    requires Shaped(s) && l < 3 && w < 2 && Settled(s, w)
    requires var slot := s.slots[w];
             !slot.ls.options.unique && slot.ls.PassOk(slot.phase == InCallback) && slot.phase != AtLoop
             && (slot.phase == Idle <==> !slot.ls.firing)
    ensures Shaped(DoRegister(s, l, fns)) && Settled(DoRegister(s, l, fns), w)
    ensures DoRegister(s, l, fns).slots[w].data == s.slots[w].data
  {
    RegisterIs(s, l, fns);
    if l == w { DeliveringAdds(s.slots[w], fns); }
  }

  /** The first resolve or reject starts the fire that settles the deferred. */
  lemma OpenSettles(s: State, w: nat, data: Data)
    requires Open(s) && MayCall(s) && w < 2
    ensures Winning(DoTrigger(s, w, data), w) && DoTrigger(s, w, data).slots[w].data == data
  {
    TriggerFramed(s, w, data);
    TriggerPopulated(s, w, data);
    UnsettledSettles(s, w, data);
  }

  lemma UnsettledSettles(s: State, w: nat, data: Data)
    requires Shaped(s) && w < 2 && Unsettled(s)
    requires s.slots[w].ls.options == Options(true, true, false, false) && s.slots[w].ls.firingStart == 0
    ensures var s' := DoTrigger(s, w, data);
            && Shaped(s') && Settling(s', w) && s'.slots[w].data == data
            && s'.slots[w].added == s.slots[w].added && s'.slots[PROGRESS] == s.slots[PROGRESS]
            && s'.slots[1-w] == s.slots[1-w]
  {
    UntouchedFires(s.slots[w], data);
    TriggerIs(s, w, data);
    assert Top(DoTrigger(s, w, data)) == w;
  }

  lemma OpenNotifies(s: State, data: Data)
    requires Open(s) && MayCall(s)
    ensures Open(DoTrigger(s, PROGRESS, data))
  {
    TriggerFramed(s, PROGRESS, data);
    TriggerPopulated(s, PROGRESS, data);
    TriggerIs(s, PROGRESS, data);
  }

  lemma TriggerPopulated(s: State, l: nat, data: Data)
    requires Shaped(s) && Populated(s) && l < 3
    ensures Populated(DoTrigger(s, l, data))
  {
    TriggerIs(s, l, data);
    if l == PROGRESS && s.slots[l].ls.list.Some? {
      assert Fns(Fresh(s.slots[l].ls.list.value)) == Fns(s.slots[l].ls.list.value);
    }
  }

  /** Once settled, resolve, reject and notify do nothing at all. */
  lemma WonIgnoresTriggers(s: State, w: nat, l: nat, data: Data)
    requires Won(s, w) && l < 3
    ensures DoTrigger(s, l, data) == s
  {
    assert s.slots[l].ls.FiredWith(data) == s.slots[l].ls && !s.slots[l].ls.FireWithStartsFire();
    assert s.slots[l := s.slots[l]] == s.slots;
  }

  lemma OpenReturns(s: State)
    requires Open(s) && s.frames != [] && MayCall(s)
    ensures Open(Step(s, Return))
  {
    TopIsFiring(s);
    ReturnFramed(s);
    ReturnPopulated(s);
    ReturnIs(s);
  }

  lemma ReturnPopulated(s: State)
    requires Shaped(s) && Populated(s) && s.frames != [] && MayCall(s)
    ensures Populated(Step(s, Return))
  {
    ReturnIs(s);
  }

  lemma WonReturns(s: State, w: nat)
    requires Won(s, w) && s.frames != [] && MayCall(s)
    ensures Won(Step(s, Return), w)
    ensures Step(s, Return).slots[w].data == s.slots[w].data
  {
    TopIsFiring(s);
    ReturnFramed(s);
    ReturnPopulated(s);
    SettledReturns(s, w);
  }

  lemma SettledReturns(s: State, w: nat)
    requires Shaped(s) && w < 2 && Settled(s, w) && s.frames != [] && MayCall(s) && s.slots[Top(s)].ls.firing
    ensures Settled(Step(s, Return), w) && Step(s, Return).slots[w].data == s.slots[w].data
  {
    ReturnIs(s);
  }

  lemma OpenEnds(s: State)
    requires Open(s) && !MayCall(s) && !s.slots[Top(s)].ls.HasTurn()
    ensures Open(DoEnd(s))
  {
    TopIsFiring(s);
    EndFramed(s);
    ProgressEnds(s);
  }

  lemma ProgressEnds(s: State)
    requires Shaped(s) && Populated(s) && s.frames != [] && Top(s) == PROGRESS
    ensures Populated(DoEnd(s))
    ensures Closed(s.slots[PROGRESS]) && s.slots[PROGRESS].ls.fired ==> Closed(DoEnd(s).slots[PROGRESS])
  {
    var ls := s.slots[PROGRESS].ls;
    if ls.list.Some? {
      assert Fns(Fresh(ls.list.value)) == Fns(ls.list.value);
    }
  }

  lemma WonEnds(s: State, w: nat)
    requires Won(s, w) && !MayCall(s) && !s.slots[Top(s)].ls.HasTurn()
    ensures Won(DoEnd(s), w)
    ensures DoEnd(s).slots[w].data == s.slots[w].data
  {
    TopIsFiring(s);
    EndFramed(s);
    if Top(s) == w {
      DeliveringEnds(s.slots[w]);
    } else {
      ProgressEnds(s);
    }
  }

  lemma OpenTurns(s: State)
    requires Open(s) && !MayCall(s) && s.slots[Top(s)].ls.HasTurn()
    ensures Open(DoTurn(s))
  {
    TopIsFiring(s);
    ProgressUser(s);
    TurnFramed(s);
  }

  lemma ProgressUser(s: State)
    requires Shaped(s) && Populated(s) && s.frames != [] && Top(s) == PROGRESS && s.slots[PROGRESS].ls.HasTurn()
    ensures TurnFn(s).User? && Populated(DoTurn(s))
  {
    var ls := s.slots[PROGRESS].ls;
    assert Fns(ls.list.value)[ls.firingIndex].User?;
    assert Fns(ls.Delivered().list.value) == Fns(ls.list.value);
  }

  /** While settling, the next call is the next built-in callback. */
  lemma WinningTurnsTo(s: State, w: nat)
    requires Winning(s, w)
    ensures s.slots[w].ls.HasTurn() && TurnFn(s) == Builtins(w)[|s.slots[w].calls|]
  {
    var slot := s.slots[w];
    var k, list := |slot.calls|, slot.ls.list.value;
    assert |CallFns(slot.calls) + Fns(list[k..])| == |slot.added| >= 3;
    DeliveringTurns(slot);
    assert slot.added[k] == Builtins(w)[k];
  }

  /** Settling, with the `k`-th built-in callback next. */
  ghost predicate WinningAt(s: State, w: nat, k: nat) {
    && Winning(s, w) && |s.slots[w].calls| == k && k < 3
    && s.slots[w].ls.HasTurn() && TurnFn(s) == Builtins(w)[k]
  }

  lemma WinningTurns(s: State, w: nat)
    requires Winning(s, w)
    ensures s.slots[w].ls.HasTurn() && (Winning(DoTurn(s), w) || Won(DoTurn(s), w))
    ensures DoTurn(s).slots[w].data == s.slots[w].data
    ensures DoTurn(s).state == Final(w)
  {
    WinningTurnsTo(s, w);
    TurnFramed(s);
    BuiltinPopulated(s);
    match |s.slots[w].calls| {
      case 0 => WinningSets(s, w);
      case 1 => WinningDisables(s, w);
      case _ => WinningLocks(s, w);
    }
  }

  lemma BuiltinPopulated(s: State)
    requires Shaped(s) && Populated(s) && s.frames != [] && Top(s) < 2 && s.slots[Top(s)].ls.HasTurn()
    requires !TurnFn(s).User? && Elsewhere(TurnFn(s), Top(s))
    ensures Populated(DoTurn(s))
  {
    TurnCommutes(s);
    StillPopulated(s, DoTurn(s));
  }

  lemma StillPopulated(s: State, now: State)
    requires Shaped(s) && Shaped(now) && Populated(s)
    requires now.slots[DONE].added == s.slots[DONE].added && now.slots[FAIL].added == s.slots[FAIL].added
    requires now.slots[PROGRESS].ls.list.Some? ==> now.slots[PROGRESS].ls.list == s.slots[PROGRESS].ls.list
    ensures Populated(now)
  {
  }

  lemma WinningSets(s: State, w: nat)
    requires WinningAt(s, w, 0) && Framed(DoTurn(s)) && Populated(DoTurn(s))
    ensures Winning(DoTurn(s), w) && DoTurn(s).slots[w].data == s.slots[w].data && DoTurn(s).state == Final(w)
  {
    SettlingSets(s, w);
  }

  lemma WinningDisables(s: State, w: nat)
    requires WinningAt(s, w, 1) && Framed(DoTurn(s)) && Populated(DoTurn(s))
    ensures Winning(DoTurn(s), w) && DoTurn(s).slots[w].data == s.slots[w].data && DoTurn(s).state == Final(w)
  {
    SettlingDisables(s, w);
  }

  lemma WinningLocks(s: State, w: nat)
    requires WinningAt(s, w, 2) && Framed(DoTurn(s)) && Populated(DoTurn(s))
    ensures Won(DoTurn(s), w) && DoTurn(s).slots[w].data == s.slots[w].data && DoTurn(s).state == Final(w)
  {
    SettlingLocks(s, w);
  }

  lemma SettlingSets(s: State, w: nat)
    requires Shaped(s) && w < 2 && Settling(s, w) && s.slots[w].calls == [] && s.slots[w].ls.PassOk(false)
    requires s.slots[w].ls.HasTurn() && TurnFn(s) == SetState(Final(w))
    ensures Shaped(DoTurn(s)) && Settling(DoTurn(s), w)
    ensures DoTurn(s).slots[w].data == s.slots[w].data && DoTurn(s).state == Final(w)
  {
    DeliveringTurns(s.slots[w]);
    BuiltinTurn(s, w);
  }

  lemma SettlingDisables(s: State, w: nat)
    requires Shaped(s) && w < 2 && Settling(s, w) && |s.slots[w].calls| == 1 && s.slots[w].ls.PassOk(false)
    requires s.slots[w].ls.HasTurn() && TurnFn(s) == DisableList(1 - w)
    ensures Shaped(DoTurn(s)) && Settling(DoTurn(s), w)
    ensures DoTurn(s).slots[w].data == s.slots[w].data && DoTurn(s).state == Final(w)
  {
    DeliveringTurns(s.slots[w]);
    BuiltinTurn(s, w);
  }

  lemma SettlingLocks(s: State, w: nat)
    requires Shaped(s) && w < 2 && Settling(s, w) && |s.slots[w].calls| == 2 && s.slots[w].ls.PassOk(false)
    requires s.slots[PROGRESS].ls.PassOk(s.slots[PROGRESS].phase == InCallback)
    requires s.slots[w].ls.HasTurn() && TurnFn(s) == LockList(PROGRESS)
    ensures Shaped(DoTurn(s)) && Settled(DoTurn(s), w)
    ensures DoTurn(s).slots[w].data == s.slots[w].data && DoTurn(s).state == Final(w)
  {
    DeliveringTurns(s.slots[w]);
    BuiltinTurn(s, w);
  }

  lemma WonTurns(s: State, w: nat)
    requires Won(s, w) && !MayCall(s) && s.slots[Top(s)].ls.HasTurn()
    ensures Won(DoTurn(s), w)
    ensures DoTurn(s).slots[w].data == s.slots[w].data
  {
    TopIsFiring(s);
    var slot := s.slots[Top(s)];
    if Top(s) == w {
      DeliveringTurns(slot);
      assert slot.added[|slot.calls|] == slot.added[3..][|slot.calls| - 3];
    } else {
      ProgressUser(s);
    }
    TurnFramed(s);
  }

  // ---- The theorems ----

  lemma NewSlotIs(l: nat)
    ensures var slot := NewSlot(l);
            && slot.ls.PassOk(false) && slot.ls.options == Options(l < PROGRESS, true, false, false)
            && slot.phase == Idle && slot.calls == [] && slot.added == Builtins(l)
            && slot.ls.list.Some? && Fns(slot.ls.list.value) == Builtins(l)
            && !slot.ls.fired && !slot.ls.firing && slot.ls.memory.None? && (l < PROGRESS ==> slot.ls.stack.None?)
  {
    var ls := ListState.Created(Options(l < PROGRESS, true, false, false));
    AddedKeeps(ls, Builtins(l), false);
    ExtendedFns([], Builtins(l));
    assert Fns([]) + Builtins(l) == Builtins(l);
  }

  lemma InitialInv()
    ensures Open(NewDeferred())
  {
    NewSlotIs(DONE);
    NewSlotIs(FAIL);
    NewSlotIs(PROGRESS);
  }

  /** What a step does, by action. */
  lemma StepIs(s: State, a: Action)
    requires Shaped(s)
    ensures a.Register? && a.l < 3 && MayCall(s) ==> Step(s, a) == DoRegister(s, a.l, Users(a.fns))
    ensures a.Trigger? && a.l < 3 && MayCall(s) ==> Step(s, a) == DoTrigger(s, a.l, a.data)
    ensures (a.Register? || a.Trigger?) && (a.l >= 3 || !MayCall(s)) ==> Step(s, a) == s
    ensures a.Return? && (s.frames == [] || !MayCall(s)) ==> Step(s, a) == s
    ensures a.Proceed? && MayCall(s) ==> Step(s, a) == s
    ensures a.Proceed? && !MayCall(s) ==>
              Step(s, a) == if s.slots[Top(s)].ls.HasTurn() then DoTurn(s) else DoEnd(s)
  {
  }

  lemma StepFromOpen(s: State, a: Action)
    requires Open(s)
    ensures Open(Step(s, a)) || Winning(Step(s, a), DONE) || Winning(Step(s, a), FAIL)
  {
    StepIs(s, a);
    match a
    case Register(l, ids) => if l < 3 && MayCall(s) { OpenRegisters(s, l, ids); }
    case Trigger(l, data) =>
      if l < 2 && MayCall(s) { OpenSettles(s, l, data); }
      if l == PROGRESS && MayCall(s) { OpenNotifies(s, data); }
    case Return => if s.frames != [] && MayCall(s) { OpenReturns(s); }
    case Proceed =>
      if !MayCall(s) {
        if s.slots[Top(s)].ls.HasTurn() { OpenTurns(s); } else { OpenEnds(s); }
      }
  }

  lemma StepFromWinning(s: State, w: nat, a: Action)
    requires Winning(s, w)
    ensures Winning(Step(s, a), w) || Won(Step(s, a), w)
    ensures Step(s, a).slots[w].data == s.slots[w].data
    ensures s.state != Pending ==> Step(s, a).state == s.state
  {
    assert !MayCall(s) && Top(s) == w && s.state in {Pending, Final(w)};
    WinningTurns(s, w);
    StepIs(s, a);
  }

  lemma StepFromWon(s: State, w: nat, a: Action)
    requires Won(s, w)
    ensures Won(Step(s, a), w)
    ensures Step(s, a).slots[w].data == s.slots[w].data
    ensures Step(s, a).state == s.state
  {
    StepIs(s, a);
    match a
    case Register(l, ids) => if l < 3 && MayCall(s) { WonRegisters(s, w, l, ids); }
    case Trigger(l, data) => if l < 3 { WonIgnoresTriggers(s, w, l, data); }
    case Return => if s.frames != [] && MayCall(s) { WonReturns(s, w); }
    case Proceed =>
      if !MayCall(s) {
        if s.slots[Top(s)].ls.HasTurn() { WonTurns(s, w); } else { WonEnds(s, w); }
      }
  }

  lemma {:induction false} RunKeeps(s: State, actions: seq<Action>)
    requires Inv(s)
    ensures Inv(Run(s, actions))
    decreases |actions|
  {
    if actions != [] {
      Cases(s);
      var a := actions[0];
      if Open(s) { StepFromOpen(s, a); }
      else if Winning(s, DONE) { StepFromWinning(s, DONE, a); }
      else if Winning(s, FAIL) { StepFromWinning(s, FAIL, a); }
      else if Won(s, DONE) { StepFromWon(s, DONE, a); }
      else { StepFromWon(s, FAIL, a); }
      Cases(Step(s, a));
      RunKeeps(Step(s, a), actions[1..]);
    }
  }

  /** The states a new deferred can reach. */
  ghost predicate Reachable(s: State) {
    exists actions :: Run(NewDeferred(), actions) == s
  }

  lemma ReachableInv(s: State)
    requires Reachable(s)
    ensures Inv(s)
  {
    var actions :| Run(NewDeferred(), actions) == s;
    InitialInv();
    RunKeeps(NewDeferred(), actions);
  }

  lemma {:induction false} RunsCompose(s: State, first: seq<Action>, later: seq<Action>)
    requires Shaped(s)
    ensures Run(Run(s, first), later) == Run(s, first + later)
    decreases |first|
  {
    if first == [] {
      assert first + later == later;
    } else {
      StepShaped(s, first[0]);
      RunsCompose(Step(s, first[0]), first[1..], later);
      assert (first + later)[1..] == first[1..] + later;
    }
  }

  /** Whatever happens later leads to reachable states again. */
  lemma StaysReachable(s: State, later: seq<Action>)
    requires Reachable(s)
    ensures Shaped(s) && Reachable(Run(s, later))
  {
    var actions :| Run(NewDeferred(), actions) == s;
    RunsCompose(NewDeferred(), actions, later);
  }

  /** A settled state is never left, however the run goes on. */
  lemma SettlesOnce(s: State, later: seq<Action>)
    requires Reachable(s) && s.state != Pending
    ensures Shaped(s) && Run(s, later).state == s.state
  {
    ReachableInv(s);
    Cases(s);
    KeepsState(s, if Winning(s, DONE) || Won(s, DONE) then DONE else FAIL, later);
  }

  lemma {:induction false} KeepsState(s: State, w: nat, later: seq<Action>)
    requires (Winning(s, w) || Won(s, w)) && s.state != Pending
    ensures Run(s, later).state == s.state
    decreases |later|
  {
    if later != [] {
      if Winning(s, w) { StepFromWinning(s, w, later[0]); } else { StepFromWon(s, w, later[0]); }
      KeepsState(Step(s, later[0]), w, later[1..]);
    }
  }

  /** At most one side ever calls anything, and only the side the state names. */
  lemma OneSideOnly(s: State)
    requires Reachable(s)
    ensures s.slots[DONE].calls == [] || s.slots[FAIL].calls == []
    ensures s.slots[DONE].calls != [] ==> s.state == Resolved
    ensures s.slots[FAIL].calls != [] ==> s.state == Rejected
  {
    ReachableInv(s);
    Cases(s);
  }

  /** After settlement user code can trigger nothing: no resolve, reject or notify has any effect. */
  lemma TriggersAfterSettlement(s: State, l: nat, data: Data)
    requires Reachable(s) && s.state != Pending
    ensures Step(s, Trigger(l, data)) == s
  {
    ReachableInv(s);
    Cases(s);
    if l < 3 && MayCall(s) {
      if Won(s, DONE) { WonIgnoresTriggers(s, DONE, l, data); } else { WonIgnoresTriggers(s, FAIL, l, data); }
    }
  }

  /** Registrations on the winning side (the constructor's own first) are called exactly once each, in
      order, all with the settling data: at any moment a prefix of them, and all of them when no loop
      is running. Registrations on the other side are never called. */
  lemma ExactlyOnce(s: State, w: nat)
    requires Reachable(s) && w < 2 && s.state == Final(w)
    ensures CallFns(s.slots[w].calls) <= s.slots[w].added && AllWith(s.slots[w].calls, s.slots[w].data)
    ensures s.frames == [] ==> CallFns(s.slots[w].calls) == s.slots[w].added
    ensures s.slots[1-w].calls == []
  {
    ReachableInv(s);
    Cases(s);
  }

  /** A pending deferred has called nothing; its first resolve or reject fixes the settling data, which
      no later step changes. */
  lemma SettlingDataIsFixed(s: State, w: nat, data: Data, later: seq<Action>)
    requires Reachable(s) && s.state == Pending && MayCall(s) && w < 2
    ensures s.slots[DONE].calls == [] && s.slots[FAIL].calls == []
    ensures var r := Run(Step(s, Trigger(w, data)), later);
            r.slots[w].data == data && r.state in {Pending, Final(w)}
  {
    ReachableInv(s);
    Cases(s);
    StepIs(s, Trigger(w, data));
    OpenSettles(s, w, data);
    KeepsData(Step(s, Trigger(w, data)), w, later);
    StateOnSide(Run(Step(s, Trigger(w, data)), later), w);
  }

  lemma StateOnSide(s: State, w: nat)
    requires Winning(s, w) || Won(s, w)
    ensures s.state in {Pending, Final(w)}
  {
  }

  lemma {:induction false} KeepsData(s: State, w: nat, later: seq<Action>)
    requires Winning(s, w) || Won(s, w)
    ensures Run(s, later).slots[w].data == s.slots[w].data
    ensures Winning(Run(s, later), w) || Won(Run(s, later), w)
    decreases |later|
  {
    if later != [] {
      if Winning(s, w) { StepFromWinning(s, w, later[0]); } else { StepFromWon(s, w, later[0]); }
      KeepsData(Step(s, later[0]), w, later[1..]);
    }
  }

  // ---- Notifications ----

  /** `n` callbacks are called and return, and the loop ends. */
  function Rounds(n: nat): seq<Action> {
    if n == 0 then [Proceed] else [Proceed, Return] + Rounds(n - 1)
  }

  /** A notification with `data` is being delivered to the callbacks `fns`; `i` of them have been called. */
  ghost predicate Notifying(s: State, i: nat, data: Data, fns: seq<Fn>) {
    && Open(s) && s.frames == [PROGRESS] && s.slots[PROGRESS].phase == AtLoop && s.slots[PROGRESS].data == data
    && s.slots[PROGRESS].ls.firingIndex == i && Fns(s.slots[PROGRESS].ls.list.value) == fns
    && s.slots[PROGRESS].ls.stack == Some([])
  }

  lemma NotifyStarts(s: State, data: Data)
    requires Open(s) && s.frames == []
    ensures var now := Step(s, Trigger(PROGRESS, data));
            && Notifying(now, 0, data, Fns(s.slots[PROGRESS].ls.list.value))
            && now.slots[PROGRESS].calls == s.slots[PROGRESS].calls
  {
    OpenNotifies(s, data);
    StepIs(s, Trigger(PROGRESS, data));
    var list := s.slots[PROGRESS].ls.list.value;
    assert Fns(Fresh(list)) == Fns(list);
  }

  lemma NotifyCalls(s: State, i: nat, data: Data, fns: seq<Fn>)
    requires Notifying(s, i, data, fns) && i < |fns|
    ensures var mid := Step(s, Proceed);
            && Open(mid) && mid.frames == [PROGRESS] && mid.slots[PROGRESS].phase == InCallback && mid.slots[PROGRESS].data == data
            && mid.slots[PROGRESS].ls.firingIndex == i && mid.slots[PROGRESS].ls.stack == Some([])
            && Fns(mid.slots[PROGRESS].ls.list.value) == fns
            && mid.slots[PROGRESS].calls == s.slots[PROGRESS].calls + [Call(fns[i], data)]
  {
    var ls := s.slots[PROGRESS].ls;
    TopIsFiring(s);
    assert ls.HasTurn();
    OpenTurns(s);
    ProgressUser(s);
    assert Fns(ls.Delivered().list.value) == Fns(ls.list.value) && TurnFn(s) == fns[i];
  }

  lemma NotifyReturns(s: State, i: nat, data: Data, fns: seq<Fn>)
    requires Open(s) && s.frames == [PROGRESS] && s.slots[PROGRESS].phase == InCallback && s.slots[PROGRESS].data == data
    requires s.slots[PROGRESS].ls.firingIndex == i && s.slots[PROGRESS].ls.stack == Some([])
    requires Fns(s.slots[PROGRESS].ls.list.value) == fns
    ensures Notifying(Step(s, Return), i + 1, data, fns) && Step(s, Return).slots[PROGRESS].calls == s.slots[PROGRESS].calls
  {
    OpenReturns(s);
  }

  lemma NotifyEnds(s: State, data: Data, fns: seq<Fn>)
    requires Notifying(s, |fns|, data, fns)
    ensures var now := Step(s, Proceed);
            Open(now) && now.frames == [] && now.slots[PROGRESS].calls == s.slots[PROGRESS].calls
  {
    TopIsFiring(s);
    assert !s.slots[PROGRESS].ls.HasTurn();
    OpenEnds(s);
  }

  function CallsWith(fns: seq<Fn>, data: Data): seq<Call> {
    seq(|fns|, k requires 0 <= k < |fns| => Call(fns[k], data))
  }

  lemma {:induction false} NotifyRuns(s: State, i: nat, data: Data, fns: seq<Fn>)
    requires Notifying(s, i, data, fns) && i <= |fns|
    ensures var r := Run(s, Rounds(|fns| - i));
            && Open(r) && r.frames == []
            && r.slots[PROGRESS].calls == s.slots[PROGRESS].calls + CallsWith(fns[i..], data)
    decreases |fns| - i
  {
    if i == |fns| {
      NotifyEnds(s, data, fns);
      RunOne(s, Proceed);
    } else {
      NotifyRound(s, i, data, fns);
      var next := Step(Step(s, Proceed), Return);
      NotifyRuns(next, i + 1, data, fns);
      assert Run(s, Rounds(|fns| - i)) == Run(next, Rounds(|fns| - i - 1)) by {
        RunTwo(s, Proceed, Return, Rounds(|fns| - i - 1));
      }
      CallsAddUp(s.slots[PROGRESS].calls, fns, i, data);
    }
  }

  lemma NotifyRound(s: State, i: nat, data: Data, fns: seq<Fn>)
    requires Notifying(s, i, data, fns) && i < |fns|
    ensures Shaped(Step(s, Proceed))
    ensures var next := Step(Step(s, Proceed), Return);
            Notifying(next, i + 1, data, fns) && next.slots[PROGRESS].calls == s.slots[PROGRESS].calls + [Call(fns[i], data)]
  {
    NotifyCalls(s, i, data, fns);
    NotifyReturns(Step(s, Proceed), i, data, fns);
  }

  lemma CallsAddUp(before: seq<Call>, fns: seq<Fn>, i: nat, data: Data)
    requires i < |fns|
    ensures before + [Call(fns[i], data)] + CallsWith(fns[i+1..], data) == before + CallsWith(fns[i..], data)
  {
    assert CallsWith(fns[i..], data) == [Call(fns[i], data)] + CallsWith(fns[i+1..], data);
  }

  lemma RunOne(s: State, a: Action)
    requires Shaped(s)
    ensures Run(s, [a]) == Step(s, a)
  {
    StepShaped(s, a);
    assert [a][1..] == [];
  }

  lemma RunTwo(s: State, a: Action, b: Action, later: seq<Action>)
    requires Shaped(s) && Shaped(Step(s, a)) && Shaped(Step(Step(s, a), b))
    ensures Run(s, [a, b] + later) == Run(Step(Step(s, a), b), later)
  {
    assert ([a, b] + later)[1..] == [b] + later && ([b] + later)[1..] == later;
  }

  /** A notification of a pending Deferred at rest calls every progress callback registered, in order, each once, with its
      data, and leaves the Deferred pending and at rest. */
  lemma Notifies(s: State, data: Data)
    requires Reachable(s) && s.state == Pending && s.frames == []
    ensures Shaped(s) && s.slots[PROGRESS].ls.list.Some?
    ensures var fns := Fns(s.slots[PROGRESS].ls.list.value);
            var r := Run(s, [Trigger(PROGRESS, data)] + Rounds(|fns|));
            && r.state == Pending && r.frames == []
            && r.slots[PROGRESS].calls == s.slots[PROGRESS].calls + CallsWith(fns, data)
  {
    ReachableInv(s);
    Cases(s);
    var fns := Fns(s.slots[PROGRESS].ls.list.value);
    NotifyStarts(s, data);
    NotifyRuns(Step(s, Trigger(PROGRESS, data)), 0, data, fns);
    assert ([Trigger(PROGRESS, data)] + Rounds(|fns|))[1..] == Rounds(|fns|) && fns[0..] == fns;
  }

  /** Progress callbacks registered on a pending Deferred at rest are appended. */
  lemma ProgressRegisters(s: State, ids: seq<nat>)
    requires Reachable(s) && s.state == Pending && s.frames == []
    ensures Shaped(s) && s.slots[PROGRESS].ls.list.Some?
    ensures var now := Step(s, Register(PROGRESS, ids)).slots[PROGRESS].ls;
            now.list.Some? && Fns(now.list.value) == Fns(s.slots[PROGRESS].ls.list.value) + Users(ids)
  {
    ReachableInv(s);
    Cases(s);
    ExtendedFns(s.slots[PROGRESS].ls.list.value, Users(ids));
  }
}
