/** The effects queue of one element: `queue`, `dequeue` and the "inprogress" sentinel. User code runs between
    the method calls: `Push` may come at any time, `Next` is the running function calling its `next`
    (before or after it returns), `Return` is the innermost function called by `dequeue` returning. */
module FxQueue {
  import opened Dom

  datatype Item = Fn(id: nat) | InProgress

  function Fns(ids: seq<nat>): seq<Item> {
    seq(|ids|, i requires 0 <= i < |ids| => Fn(ids[i]))
  }

  class Queue {
    var queue: seq<Item>
    /** `startLength` of the `dequeue` calls whose function has not returned, innermost last */
    var frames: seq<int>
    /** how often `hooks.empty` has fired */
    var emptied: nat
    /** functions in the order pushed, started, and done (that is, having called `next`) */
    ghost var pushed: seq<nat>
    ghost var started: seq<nat>
    ghost var done: seq<nat>
    /** how often a function was pushed while nothing was running */
    ghost var bursts: nat

    ghost predicate Running()
      reads this
    {
      |done| < |started|
    }

    /** Functions start one at a time, in the order pushed, each once, and the next only when the last one started
        is done; the sentinel heads the queue exactly while a function runs; nothing waits unless one
        runs; and each burst of activity that has ended has fired the empty hook once. */
    ghost predicate Valid()
      reads this
    {
      && started <= pushed && done <= started && |started| <= |done| + 1
      && queue == (if Running() then [InProgress] else []) + Fns(pushed[|started|..])
      && (!Running() ==> started == pushed)
      && bursts == emptied + (if Running() then 1 else 0)
      && forall k :: 0 <= k < |frames| ==> frames[k] >= 1
    }

    constructor ()
      ensures Valid() && pushed == [] && !Running() && emptied == 0
    {
      queue, frames, emptied := [], [], 0;
      pushed, started, done, bursts := [], [], [], 0;
    }

    /** `.queue( fn )` */
    method Push(f: nat)
      requires Valid()
      modifies this
      ensures Valid() && Running() && pushed == old(pushed) + [f] && done == old(done) && emptied == old(emptied)
      ensures started == if old(Running()) then old(started) else old(started) + [f]
    {
      ghost var waiting := pushed[|started|..];
      ghost var idle := !Running();
      pushed := pushed + [f];
      assert Fns(pushed[|started|..]) == Fns(waiting) + [Fn(f)];
      queue := queue + [Fn(f)];
      if queue[0] != InProgress {
        assert idle;
        bursts := bursts + 1;
        Dequeue();
      }
    }

    /** The running function calls `next`. */
    method Next()
      requires Valid() && Running()
      modifies this
      ensures Valid() && pushed == old(pushed) && done == old(started)
      ensures old(|started| < |pushed|) ==> started == old(started) + [old(pushed[|started|])] && emptied == old(emptied)
      ensures old(started == pushed) ==> !Running() && emptied == old(emptied) + 1
    {
      done := started;
      Dequeue();
    }

    /** `dequeue( elem, "fx" )`, up to the call of the function if there is one. */
    method Dequeue()
      requires started <= pushed && done == started && bursts == emptied + 1
      requires queue == Fns(pushed[|started|..]) || queue == [InProgress] + Fns(pushed[|started|..])
      requires started == pushed ==> queue == [InProgress]
      requires forall k :: 0 <= k < |frames| ==> frames[k] >= 1
      modifies this`queue, this`frames, this`emptied, this`started
      ensures Valid()
      ensures old(started) != pushed ==> started == old(started) + [pushed[|old(started)|]] && emptied == old(emptied)
      ensures old(started) == pushed ==> started == old(started) && emptied == old(emptied) + 1
    {
      ghost var waiting := pushed[|started|..];
      assert Fns(waiting) != [] ==> Fns(waiting) == [Fn(waiting[0])] + Fns(waiting[1..]);
      var startLength := |queue|;
      var fn := if queue == [] then None else Some(queue[0]);
      queue := if queue == [] then [] else queue[1..];
      if fn == Some(InProgress) {
        fn := if queue == [] then None else Some(queue[0]);
        queue := if queue == [] then [] else queue[1..];
        startLength := startLength - 1;
      }
      if fn.Some? {
        assert fn.value == Fn(waiting[0]) && queue == Fns(waiting[1..]);
        queue := [InProgress] + queue;
        started := started + [waiting[0]];
        assert pushed[|started|..] == waiting[1..];
        frames := frames + [startLength];
      } else {
        Finish(startLength);
      }
    }

    /** The end of `dequeue`: `hooks.empty.fire()`, which discards the queue, if it was empty at the start. */
    method Finish(startLength: int)
      modifies this`queue, this`emptied
      ensures startLength == 0 ==> queue == [] && emptied == old(emptied) + 1
      ensures startLength != 0 ==> queue == old(queue) && emptied == old(emptied)
    {
      if startLength == 0 {
        emptied := emptied + 1;
        queue := [];
      }
    }

    /** The innermost function returns to its `dequeue`, which may have been overtaken by others. */
    method Return()
      requires Valid() && frames != []
      modifies this
      ensures Valid() && pushed == old(pushed) && started == old(started) && done == old(done) && emptied == old(emptied)
      ensures queue == old(queue) && frames == old(frames)[..|old(frames)|-1]
    {
      var startLength := frames[|frames|-1];
      frames := frames[..|frames|-1];
      Finish(startLength);
    }
  }
}
