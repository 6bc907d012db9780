/** `jQuery.when`: a counting join over promises and plain values. That each promise calls at most
    one of its done and fail callbacks, once, is what the module Deferreds proves; here the
    environment delivers those calls, in any order, some already while `when` visits its arguments. */
module Join {
  import opened Dom

  /** `arguments.length > 1 ? core_slice.call( arguments ) : value` */
  datatype Value = Nothing | One(v: nat) | Several(vs: seq<nat>)

  function Collected(arguments: seq<nat>): Value {
    if |arguments| == 0 then Nothing else if |arguments| == 1 then One(arguments[0]) else Several(arguments)
  }

  /** No two argument lists give the same value. */
  lemma CollectedIsInjective(a: seq<nat>, b: seq<nat>)
    requires Collected(a) == Collected(b)
    ensures a == b
  {
    if |a| == 1 { assert a == [a[0]] && b == [b[0]]; }
  }

  datatype Outcome = Done(arguments: seq<nat>) | Failed(reason: nat)

  /** An argument of `when`: a plain value, or a promise that may have settled already. */
  datatype Argument = Plain(value: Value) | Promise(settled: Option<Outcome>)

  datatype Master = Waiting | Fulfilled(values: seq<Value>) | Broken(reason: nat)

  /** What `when` knows of one argument. */
  datatype Seen = Unvisited | PlainSeen | Open | Settled(outcome: Outcome)

  predicate IsIn(s: Seen) {
    s.PlainSeen? || (s.Settled? && s.outcome.Done?)
  }

  /** How many arguments have no value yet. */
  function Missing(seen: seq<Seen>): nat {
    if seen == [] then 0 else Missing(seen[..|seen|-1]) + if IsIn(seen[|seen|-1]) then 0 else 1
  }

  lemma {:induction false} MissingUpdate(seen: seq<Seen>, i: nat, s: Seen)
    requires i < |seen| && !IsIn(seen[i])
    ensures Missing(seen[i := s]) == Missing(seen) - if IsIn(s) then 1 else 0
  {
    var n := |seen| - 1;
    if i < n {
      MissingUpdate(seen[..n], i, s);
      assert seen[i := s][..n] == seen[..n][i := s];
    } else {
      assert seen[i := s][..n] == seen[..n];
    }
  }

  lemma {:induction false} MissingZero(seen: seq<Seen>)
    ensures Missing(seen) == 0 <==> forall i :: 0 <= i < |seen| ==> IsIn(seen[i])
  {
    if seen != [] {
      var n := |seen| - 1;
      MissingZero(seen[..n]);
      assert Missing(seen) == 0 ==> forall i :: 0 <= i < n ==> IsIn(seen[..n][i]);
    }
  }

  lemma {:induction false} MissingAll(seen: seq<Seen>)
    requires forall i :: 0 <= i < |seen| ==> seen[i] == Unvisited
    ensures Missing(seen) == |seen|
  {
    if seen != [] { MissingAll(seen[..|seen|-1]); }
  }

  /** The first rejection delivered. */
  function FirstFailure(history: seq<(nat, Outcome)>): Option<nat> {
    if history == [] then None
    else if history[0].1.Failed? then Some(history[0].1.reason)
    else FirstFailure(history[1..])
  }

  lemma {:induction false} FirstFailureGrows(history: seq<(nat, Outcome)>, i: nat, o: Outcome)
    ensures FirstFailure(history + [(i, o)])
            == if FirstFailure(history).Some? then FirstFailure(history)
               else if o.Failed? then Some(o.reason) else None
  {
    if history != [] {
      FirstFailureGrows(history[1..], i, o);
      assert (history + [(i, o)])[1..] == history[1..] + [(i, o)];
    }
  }

  ghost predicate SeenOk(a: Argument, value: Value, s: Seen) {
    && (a.Plain? ==> s in {Unvisited, PlainSeen} && value == a.value)
    && (a.Promise? ==> !s.PlainSeen?)
    && (s.Settled? && s.outcome.Done? ==> value == Collected(s.outcome.arguments))
  }

  /** `remaining` counts the arguments without a value; promised values are in place; the deliveries
      recorded per argument are those of the history. */
  ghost predicate Consistent(args: seq<Argument>, values: seq<Value>, remaining: int,
                             seen: seq<Seen>, history: seq<(nat, Outcome)>)
  {
    && |args| == |seen| == |values|
    && (forall i :: 0 <= i < |args| ==> SeenOk(args[i], values[i], seen[i]))
    && (forall k :: 0 <= k < |history| ==> history[k].0 < |args| && seen[history[k].0] == Settled(history[k].1))
    && (forall i :: 0 <= i < |args| && seen[i].Settled? ==> (i, seen[i].outcome) in history)
    && remaining == Missing(seen)
  }

  lemma MarkKeeps(args: seq<Argument>, values: seq<Value>, remaining: int,
                  seen: seq<Seen>, history: seq<(nat, Outcome)>, i: nat)
    requires Consistent(args, values, remaining, seen, history) && i < |args| && seen[i] == Unvisited
    ensures args[i].Plain? ==> Consistent(args, values, remaining - 1, seen[i := PlainSeen], history)
    ensures args[i].Promise? ==> Consistent(args, values, remaining, seen[i := Open], history)
  {
    MissingUpdate(seen, i, PlainSeen);
    MissingUpdate(seen, i, Open);
  }

  lemma DeliverKeeps(args: seq<Argument>, values: seq<Value>, remaining: int,
                     seen: seq<Seen>, history: seq<(nat, Outcome)>, i: nat, o: Outcome)
    requires Consistent(args, values, remaining, seen, history)
    requires i < |args| && args[i].Promise? && (seen[i] == Unvisited || seen[i] == Open)
    ensures Consistent(args, if o.Done? then values[i := Collected(o.arguments)] else values,
                       if o.Done? then remaining - 1 else remaining,
                       seen[i := Settled(o)], history + [(i, o)])
  {
    MissingUpdate(seen, i, Settled(o));
    var past, now := history, history + [(i, o)];
    assert now[|past|] == (i, o);
    var seen' := seen[i := Settled(o)];
    forall k | 0 <= k < |args| && seen'[k].Settled?
      ensures (k, seen'[k].outcome) in now
    {
      if k != i { assert (k, seen[k].outcome) in past; }
    }
  }

  /** A promise that failed is never counted off, so a rejected join never completes. */
  lemma FailureIsMissing(args: seq<Argument>, values: seq<Value>, remaining: int,
                         seen: seq<Seen>, history: seq<(nat, Outcome)>)
    requires Consistent(args, values, remaining, seen, history)
    ensures FirstFailure(history).Some? ==> remaining > 0
    ensures FirstFailure(history).None? <==> forall i :: 0 <= i < |seen| && seen[i].Settled? ==> seen[i].outcome.Done?
  {
    FailureInHistory(history);
    MissingZero(seen);
    if k: nat :| k < |history| && history[k].1.Failed? {
      assert !IsIn(seen[history[k].0]);
    }
  }

  lemma {:induction false} FailureInHistory(history: seq<(nat, Outcome)>)
    ensures FirstFailure(history).Some? <==> exists k :: 0 <= k < |history| && history[k].1.Failed?
  {
    if history != [] {
      FailureInHistory(history[1..]);
      if FirstFailure(history[1..]).Some? {
        var k :| 0 <= k < |history[1..]| && history[1..][k].1.Failed?;
        assert history[k+1].1.Failed?;
      }
      assert forall k :: 1 <= k < |history| ==> history[k] == history[1..][k-1];
    }
  }

  lemma FirstOfAll(past: seq<(nat, Outcome)>, events: seq<(nat, Outcome)>, i: nat, o: Outcome)
    requires events != [] && events[0] == (i, o)
    ensures past + [(i, o)] + events[1..] == past + events
  {
  }

  class Join {
    const args: seq<Argument>
    var resolveValues: seq<Value>
    var remaining: int
    var master: Master
    /** what was delivered for each argument, and all deliveries in the order they came */
    ghost var seen: seq<Seen>
    ghost var history: seq<(nat, Outcome)>

    /** A single promise is returned as it is. */
    predicate Delegates() {
      |args| == 1 && args[0].Promise?
    }

    ghost predicate Valid()
      reads this
    {
      Consistent(args, resolveValues, remaining, seen, history)
    }

    /** The master is broken by the first rejection, else fulfilled as soon as nothing is missing. */
    ghost predicate Decided()
      reads this
    {
      master == if FirstFailure(history).Some? then Broken(FirstFailure(history).value)
                else if remaining == 0 then Fulfilled(resolveValues) else Waiting
    }

    /** Plain values have just completed the join; the end of `when` resolves the master. */
    ghost predicate Due()
      reads this
    {
      FirstFailure(history).None? && remaining == 0 && master == Waiting
    }

    /** `deferred.resolveWith` and `deferred.reject` act only once. */
    method Resolve()
      modifies this`master
      ensures master == if old(master) == Waiting then Fulfilled(resolveValues) else old(master)
    {
      if master == Waiting { master := Fulfilled(resolveValues); }
    }

    method Reject(reason: nat)
      modifies this`master
      ensures master == if old(master) == Waiting then Broken(reason) else old(master)
    {
      if master == Waiting { master := Broken(reason); }
    }

    /** What the callbacks registered for promise `i` do. */
    method Deliver(i: nat, o: Outcome)
      requires Valid() && Decided() && i < |args| && args[i].Promise? && (seen[i].Open? || seen[i].Unvisited?)
      modifies this
      ensures Valid() && Decided()
      ensures seen == old(seen)[i := Settled(o)] && history == old(history) + [(i, o)]
      ensures resolveValues == if o.Done? then old(resolveValues)[i := Collected(o.arguments)] else old(resolveValues)
    {
      MissingZero(seen);
      DeliverKeeps(args, resolveValues, remaining, seen, history, i, o);
      FirstFailureGrows(history, i, o);
      seen, history := seen[i := Settled(o)], history + [(i, o)];
      match o {
        case Done(arguments) =>
          resolveValues := resolveValues[i := Collected(arguments)];
          remaining := remaining - 1;
          if remaining == 0 { Resolve(); }
        case Failed(reason) =>
          Reject(reason);
      }
      FailureIsMissing(args, resolveValues, remaining, seen, history);
    }

    /** What has been seen of argument `i` once it is visited. */
    ghost function FirstSight(i: nat): Seen
      requires i < |args|
    {
      match args[i]
      case Plain(_) => PlainSeen
      case Promise(None) => Open
      case Promise(Some(o)) => Settled(o)
    }

    /** `when` itself. */
    constructor (args: seq<Argument>)
      ensures this.args == args
      ensures !Delegates() ==> Valid() && Decided()
      ensures !Delegates() ==> forall i :: 0 <= i < |args| ==> seen[i] == FirstSight(i)
    {
      this.args := args;
      resolveValues := seq(|args|, i requires 0 <= i < |args| => if args[i].Plain? then args[i].value else Nothing);
      remaining := if |args| != 1 || args[0].Promise? then |args| else 0;
      master := Waiting;
      seen := if |args| == 1 && args[0].Plain? then [PlainSeen] else seq(|args|, _ => Unvisited);
      history := [];
      new;
      if |args| > 1 {
        MissingAll(seen);
        var i := 0;
        while i < |args|
          invariant 0 <= i <= |args| && Valid() && (Decided() || (i == |args| && Due()))
          invariant forall k :: i <= k < |args| ==> seen[k] == Unvisited
          invariant forall k :: 0 <= k < i ==> seen[k] == FirstSight(k)
        {
          Visit(i);
          MissingZero(seen);
          i := i + 1;
        }
      }
      if remaining == 0 {
        Resolve();
      }
    }

    /** One pass of the loop over the arguments. */
    method Visit(i: nat)
      requires Valid() && Decided() && i < |args| && seen[i] == Unvisited
      modifies this
      ensures Valid() && (Decided() || Due())
      ensures seen == old(seen)[i := FirstSight(i)]
    {
      MissingZero(seen);
      match args[i] {
        case Plain(_) =>
          MarkKeeps(args, resolveValues, remaining, seen, history, i);
          seen := seen[i := PlainSeen];
          remaining := remaining - 1;
        case Promise(None) =>
          MarkKeeps(args, resolveValues, remaining, seen, history, i);
          seen := seen[i := Open];
        case Promise(Some(o)) =>
          Deliver(i, o);
      }
    }

    /** Any later course of events: promises still open settle in some order, each once. */
    method Later(events: seq<(nat, Outcome)>)
      requires Valid() && Decided()
      requires forall k :: 0 <= k < |events| ==> events[k].0 < |args| && args[events[k].0].Promise? && seen[events[k].0] == Open
      requires forall j, k :: 0 <= j < k < |events| ==> events[j].0 != events[k].0
      modifies this
      ensures Valid() && Decided() && history == old(history) + events
      ensures |seen| == |old(seen)| && forall i :: 0 <= i < |seen| && old(seen)[i] != Unvisited ==> seen[i] != Unvisited
      decreases |events|
    {
      if events != [] {
        var (i, o) := events[0];
        ghost var before, past := seen, history;
        Deliver(i, o);
        assert forall k :: 1 <= k < |events| ==> seen[events[k].0] == before[events[k].0];
        Later(events[1..]);
        FirstOfAll(past, events, i, o);
      }
    }

    /** The join in terms of its promises: fulfilled exactly when every promise has resolved, with each value in its
        place (all arguments as an array if there are several, the argument itself if there is one); broken exactly
        when some promise was rejected. */
    lemma Verdict()
      requires Valid() && Decided() && !Delegates() && forall i :: 0 <= i < |args| ==> seen[i] != Unvisited
      ensures master.Fulfilled? <==> forall i :: 0 <= i < |args| && args[i].Promise? ==>
                                       seen[i].Settled? && seen[i].outcome.Done?
      ensures master.Fulfilled? ==> master.values == resolveValues && |resolveValues| == |args|
      ensures master.Fulfilled? ==> forall i :: 0 <= i < |args| && args[i].Plain? ==> master.values[i] == args[i].value
      ensures master.Fulfilled? ==> forall i :: 0 <= i < |args| && args[i].Promise? ==>
                var given := seen[i].outcome.arguments;
                && (i, Done(given)) in history
                && (|given| == 0 ==> master.values[i] == Nothing)
                && (|given| == 1 ==> master.values[i] == One(given[0]))
                && (|given| > 1 ==> master.values[i] == Several(given))
      ensures master.Broken? <==> exists i :: 0 <= i < |args| && seen[i].Settled? && seen[i].outcome.Failed?
    {
      MissingZero(seen);
      FailureIsMissing(args, resolveValues, remaining, seen, history);
    }
  }
}
