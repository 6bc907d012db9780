/** What a positional selector means: its filters and positional pseudos thin out a list of elements one
    after the other, each positional pseudo counting what is left. The set matchers that compilation
    builds do exactly that, unless earlier results stand in their way. */
module Stages {
  import opened Dom
  import opened Positional

  // ---- The meaning ----

  function Pick<T>(xs: seq<T>, ix: seq<nat>): seq<T>
    requires forall k :: 0 <= k < |ix| ==> ix[k] < |xs|
  {
    seq(|ix|, k requires 0 <= k < |ix| => xs[ix[k]])
  }

  ghost predicate Below(ix: seq<nat>, n: nat) {
    forall k :: 0 <= k < |ix| ==> ix[k] < n
  }

  function UpTo(n: nat): (ix: seq<nat>)
    ensures |ix| == n && forall k :: 0 <= k < n ==> ix[k] == k
  {
    seq(n, k => k)
  }

  /** The places, among the first `n`, of the elements the filter accepts. */
  function Accepted(ask: Answers, f: nat, elems: seq<Node>, n: nat): (ix: seq<nat>)
    requires n <= |elems|
    ensures Below(ix, n)
  {
    if n == 0 then [] else
    Accepted(ask, f, elems, n - 1) + if ask(f, elems[..n-1], elems[n-1]) then [n - 1] else []
  }

  /** The places, among the first `n` of `length`, that the positional pseudo names. */
  function Named(p: Position, length: nat, n: nat): (ix: seq<nat>)
    requires n <= length
    ensures Below(ix, n)
  {
    if n == 0 then [] else Named(p, length, n - 1) + if Hits(p, length, n - 1) then [n - 1] else []
  }

  /** The places of the elements that are left in the end. A run of other tokens is one element filter, numbered by its
      first token. */
  function Survivors(ask: Answers, parts: Parts, from: nat, elems: seq<Node>): (ix: seq<nat>)
    ensures Below(ix, |elems|)
    decreases |parts|
  {
    if parts == [] then UpTo(|elems|)
    else if parts[0].None? then
      var i := FirstPosition(parts);
      var kept := Accepted(ask, from, elems, |elems|);
      Pick(kept, Survivors(ask, parts[i..], from + i, Pick(elems, kept)))
    else
      var hit := Named(parts[0].value, |elems|, |elems|);
      Pick(hit, Survivors(ask, parts[1..], from + 1, Pick(elems, hit)))
  }

  ghost predicate Within(at: map<nat, Node>, length: nat) {
    forall i :: i in at ==> i < length
  }

  /** How the positional pseudos relate: `:lt(n)`, `:eq(n)` and `:gt(n)` divide any list among them, `:first` and `:last`
      are `:eq(0)` and `:eq(-1)`, places alternate between `:even` and `:odd`, and negative numbers count from the end. */
  lemma PositionsRelate(length: nat, j: nat, n: int)
    requires j < length
    ensures (Hits(Lt(n), length, j) ==> !Hits(Eq(n), length, j) && !Hits(Gt(n), length, j))
            && (Hits(Eq(n), length, j) ==> !Hits(Gt(n), length, j))
            && (Hits(Lt(n), length, j) || Hits(Eq(n), length, j) || Hits(Gt(n), length, j))
    ensures Hits(FirstOf, length, j) <==> Hits(Eq(0), length, j)
    ensures Hits(LastOf, length, j) <==> Hits(Eq(-1), length, j)
    ensures Hits(Even, length, j) <==> !Hits(Odd, length, j)
    ensures Hits(Even, length, 0) && (j > 0 ==> (Hits(Even, length, j) <==> Hits(Odd, length, j - 1)))
    ensures Hits(Eq(j), length, j) && Hits(Eq(j - length), length, j)
    ensures Hits(Lt(j), length, j - 1) == (j > 0) && !Hits(Lt(j), length, j)
    ensures n < 0 <= n + length ==> (Hits(Lt(n), length, j) <==> Hits(Lt(n + length), length, j))
                                    && (Hits(Gt(n), length, j) <==> Hits(Gt(n + length), length, j))
  {
  }

  // ---- Dense arrays ----

  function Dense(elems: seq<Node>): map<nat, Node> {
    map k: nat | k < |elems| :: elems[k]
  }

  function SetOf(ix: seq<nat>): set<nat> {
    set k | 0 <= k < |ix| :: ix[k]
  }

  lemma {:induction false} DenseAsked(elems: seq<Node>, n: nat)
    requires n <= |elems|
    ensures Asked(Dense(elems), n) == elems[..n]
  {
    if n > 0 {
      DenseAsked(elems, n - 1);
      assert n - 1 in Dense(elems) && elems[..n] == elems[..n-1] + [elems[n-1]];
    }
  }

  lemma {:induction false} DenseAccepted(ask: Answers, f: nat, elems: seq<Node>, n: nat)
    requires n <= |elems|
    ensures Scan(ask, Dense(elems), Some(f), n) == Accepted(ask, f, elems, n)
  {
    if n > 0 {
      DenseAccepted(ask, f, elems, n - 1);
      DenseAsked(elems, n - 1);
      assert n - 1 in Dense(elems);
    }
  }

  lemma DensePacked(elems: seq<Node>, ix: seq<nat>)
    requires Below(ix, |elems|)
    ensures forall k :: 0 <= k < |ix| ==> ix[k] in Dense(elems)
    ensures Packed(Dense(elems), ix) == Dense(Pick(elems, ix))
  {
    var d := Dense(elems);
    assert forall k :: 0 <= k < |ix| ==> ix[k] in d && d[ix[k]] == elems[ix[k]];
  }

  /** What a positional pseudo matches in a dense array. */
  lemma {:induction false} NamedScan(ask: Answers, p: Position, elems: seq<Node>, n: nat)
    requires n <= |elems|
    ensures Scan(ask, Matched(Some(p), |elems|, Dense(elems)), None, n) == Named(p, |elems|, n)
  {
    if n > 0 {
      NamedScan(ask, p, elems, n - 1);
      assert n - 1 in Matched(Some(p), |elems|, Dense(elems)) <==> Hits(p, |elems|, n - 1);
    }
  }

  lemma NamedKeys(ask: Answers, p: Position, elems: seq<Node>)
    ensures Indices(ask, Matched(Some(p), |elems|, Dense(elems)), None, |elems|) == Named(p, |elems|, |elems|)
    ensures Matched(Some(p), |elems|, Dense(elems)).Keys == SetOf(Named(p, |elems|, |elems|))
  {
    var hit, m := Named(p, |elems|, |elems|), Matched(Some(p), |elems|, Dense(elems));
    NamedScan(ask, p, elems, |elems|);
    forall j: nat ensures j in m <==> j in SetOf(hit) {
      ScanFinds(ask, m, None, |elems|, j);
      InSet(hit, j);
    }
  }

  lemma NamedPacked(p: Position, elems: seq<Node>, hit: seq<nat>)
    requires Below(hit, |elems|) && Matched(Some(p), |elems|, Dense(elems)).Keys == SetOf(hit)
    ensures var m := Matched(Some(p), |elems|, Dense(elems));
            (forall k :: 0 <= k < |hit| ==> hit[k] in m) && Packed(m, hit) == Dense(Pick(elems, hit))
  {
    var m := Matched(Some(p), |elems|, Dense(elems));
    forall k | 0 <= k < |hit| ensures hit[k] in m && m[hit[k]] == elems[hit[k]] {
      assert hit[k] in SetOf(hit);
    }
  }

  lemma PickedSet(hit: seq<nat>, ix: seq<nat>)
    requires Below(ix, |hit|)
    ensures SetOf(Pick(hit, ix)) == set k | k in SetOf(ix) :: hit[k]
  {
    forall j | j in SetOf(Pick(hit, ix)) ensures j in set k | k in SetOf(ix) :: hit[k] {
      var n :| 0 <= n < |ix| && Pick(hit, ix)[n] == j;
      assert ix[n] in SetOf(ix);
    }
    forall k | k in SetOf(ix) ensures hit[k] in SetOf(Pick(hit, ix)) {
      var n :| 0 <= n < |ix| && ix[n] == k;
      assert Pick(hit, ix)[n] == hit[k];
    }
  }

  // ---- What compilation builds ----

  /** The postFilter that the parts after a positional pseudo become. */
  function PostOf(parts: Parts, from: nat): Option<PostFilter> {
    if parts == [] then None else Some(FromTokens(parts, from))
  }

  /** The matcher and the postFilter come from `rest`, which is empty or begins with a positional pseudo. */
  predicate Continues(sm: SetMatcher, rest: Parts, from: nat) {
    if rest == [] then sm.matcher.None? && sm.post.None?
    else rest[0].Some? && sm.matcher == rest[0] && sm.post == PostOf(rest[1..], from + 1)
  }

  /** The set matcher of the parts from a positional pseudo on. */
  lemma FromPosition(parts: Parts, from: nat)
    requires parts != [] && parts[0].Some?
    ensures var sm := Wrapped(FromTokens(parts, from));
            sm.pre.None? && Continues(sm, parts, from)
  {
    FirstPositionIs(parts, 0);
  }

  /** The set matcher of parts that begin with an element filter. */
  lemma FromFilter(parts: Parts, from: nat)
    requires parts != [] && parts[0].None?
    ensures var i, sm := FirstPosition(parts), Wrapped(FromTokens(parts, from));
            i <= |parts| && sm.pre == Some(from) && Continues(sm, parts[i..], from + i)
  {
    var i := FirstPosition(parts);
    if i < |parts| { FilterThenPosition(parts, from, i); } else { assert parts[i..] == []; }
  }

  lemma FilterThenPosition(parts: Parts, from: nat, i: nat)
    requires 0 < i < |parts| && i == FirstPosition(parts)
    ensures Wrapped(FromTokens(parts, from)) == SetMatcher(Some(from), parts[i..][0], PostOf(parts[i..][1..], from + i + 1))
  {
    assert parts[i..][1..] == parts[i+1..];
  }

  /** A built matcher with no earlier results: what it leaves in the array is what it does not match. */
  lemma RemainsOrMatches(ask: Answers, sm: SetMatcher, length: nat, s: map<nat, Node>, k: nat)
    requires Built(sm) && k in s
    ensures k in Remaining(ask, sm, length, s, map[]) <==> k !in Outcome(ask, sm, length, s, map[])
  {
  }

  /** `kept` holds the indices of `hit` whose places are in `left`. */
  ghost predicate KeepsPlaces(m: map<nat, Node>, hit: seq<nat>, kept: set<nat>, left: seq<nat>) {
    m.Keys == SetOf(hit) && forall k :: 0 <= k < |hit| ==> (hit[k] in kept <==> k in left)
  }

  lemma KeptPlaces(m: map<nat, Node>, hit: seq<nat>, kept: set<nat>, left: seq<nat>)
    requires KeepsPlaces(m, hit, kept, left) && Below(left, |hit|)
    ensures Restrict(m, kept).Keys == SetOf(Pick(hit, left))
  {
    forall j | j in m && j in kept ensures j in SetOf(Pick(hit, left)) {
      var k :| 0 <= k < |hit| && hit[k] == j;
      var n :| 0 <= n < |left| && left[n] == k;
      assert Pick(hit, left)[n] == j;
    }
    forall n | 0 <= n < |left| ensures Pick(hit, left)[n] in m && Pick(hit, left)[n] in kept {
      assert left[n] in left && hit[left[n]] in SetOf(hit);
    }
  }

  /** The postFilter keeps the elements at the surviving places. */
  lemma PostKeeps(ask: Answers, post: PostFilter, m: map<nat, Node>, n: nat, hit: seq<nat>, left: seq<nat>)
    requires Built(Wrapped(post)) && Within(m, n) && hit == Indices(ask, m, None, n) && m.Keys == SetOf(hit) && Below(left, |hit|)
    requires Outcome(ask, Wrapped(post), |hit|, Packed(m, hit), map[]).Keys == SetOf(left)
    ensures AfterPost(ask, Some(post), m).Keys == SetOf(Pick(hit, left))
  {
    PostKeepsPlaces(ask, post, m, n, hit, left);
    KeptPlaces(m, hit, Kept(ask, post, m), left);
  }

  lemma PostKeepsPlaces(ask: Answers, post: PostFilter, m: map<nat, Node>, n: nat, hit: seq<nat>, left: seq<nat>)
    requires Built(Wrapped(post)) && Within(m, n) && hit == Indices(ask, m, None, n) && m.Keys == SetOf(hit)
    requires Outcome(ask, Wrapped(post), |hit|, Packed(m, hit), map[]).Keys == SetOf(left)
    ensures KeepsPlaces(m, hit, Kept(ask, post, m), left)
  {
    assert Splits(m, hit, Remaining(ask, Wrapped(post), |hit|, Packed(m, hit), map[]), Kept(ask, post, m)) by {
      FailedIndices(ask, post, m, n);
    }
    PlacesKept(ask, Wrapped(post), m, hit, Kept(ask, post, m), left);
  }

  lemma PlacesKept(ask: Answers, sm: SetMatcher, m: map<nat, Node>, hit: seq<nat>, kept: set<nat>, left: seq<nat>)
    requires Built(sm) && m.Keys == SetOf(hit) && forall k :: 0 <= k < |hit| ==> hit[k] in m
    requires Splits(m, hit, Remaining(ask, sm, |hit|, Packed(m, hit), map[]), kept)
    requires Outcome(ask, sm, |hit|, Packed(m, hit), map[]).Keys == SetOf(left)
    ensures KeepsPlaces(m, hit, kept, left)
  {
    assert forall k :: 0 <= k < |hit| ==> (k in Remaining(ask, sm, |hit|, Packed(m, hit), map[]) <==> k !in left) by {
      FailedOrLeft(ask, sm, |hit|, Packed(m, hit), left);
    }
    SplitsKeep(m, hit, Remaining(ask, sm, |hit|, Packed(m, hit), map[]), kept, left);
  }

  lemma SplitsKeep(m: map<nat, Node>, hit: seq<nat>, failed: map<nat, Node>, kept: set<nat>, left: seq<nat>)
    requires Splits(m, hit, failed, kept) && m.Keys == SetOf(hit)
    requires forall k :: 0 <= k < |hit| ==> (k in failed <==> k !in left)
    ensures KeepsPlaces(m, hit, kept, left)
  {
  }

  lemma FailedOrLeft(ask: Answers, sm: SetMatcher, n: nat, s: map<nat, Node>, left: seq<nat>)
    requires Built(sm) && (forall k :: 0 <= k < n ==> k in s) && Outcome(ask, sm, n, s, map[]).Keys == SetOf(left)
    ensures forall k :: 0 <= k < n ==> (k in Remaining(ask, sm, n, s, map[]) <==> k !in left)
  {
    forall k | 0 <= k < n ensures k in Remaining(ask, sm, n, s, map[]) <==> k !in left {
      RemainsOrMatches(ask, sm, n, s, k);
      InSet(left, k);
    }
  }

  lemma InSet(ix: seq<nat>, k: nat)
    ensures k in SetOf(ix) <==> k in ix
  {
  }

  /** The matches of a positional pseudo and of the parts after it. */
  lemma {:induction false} PositionStage(ask: Answers, parts: Parts, from: nat, elems: seq<Node>)
    requires parts != [] && parts[0].Some?
    ensures AfterPost(ask, PostOf(parts[1..], from + 1), Matched(parts[0], |elems|, Dense(elems))).Keys
            == SetOf(Survivors(ask, parts, from, elems))
    decreases |parts|, 0
  {
    var m, hit := Matched(parts[0], |elems|, Dense(elems)), Named(parts[0].value, |elems|, |elems|);
    var left := Survivors(ask, parts[1..], from + 1, Pick(elems, hit));
    NamedKeys(ask, parts[0].value, elems);
    NamedPacked(parts[0].value, elems, hit);
    if parts[1..] == [] {
      PickAll(hit);
    } else {
      BuiltStages(ask, parts[1..], from + 1, Pick(elems, hit));
      FromTokensBuilt(parts[1..], from + 1);
      PostKeeps(ask, FromTokens(parts[1..], from + 1), m, |elems|, hit, left);
    }
  }

  lemma PickAll<T>(xs: seq<T>)
    ensures Pick(xs, UpTo(|xs|)) == xs
  {
  }

  /** What a preFilter chooses among the packed elements it accepts. */
  lemma {:induction false} ChosenStages(ask: Answers, sm: SetMatcher, rest: Parts, from: nat, s: map<nat, Node>, ix: seq<nat>)
    requires sm.pre.Some? && Continues(sm, rest, from) && forall k :: 0 <= k < |ix| ==> ix[k] in s
    ensures Chosen(ask, sm, ix, s).Keys == SetOf(Survivors(ask, rest, from, Values(s, ix)))
    decreases |rest|, 1
  {
    var elems := Values(s, ix);
    PackedDense(s, ix);
    if rest == [] {
      MatchedAll(ix, s, None);
      AllPlaces(elems);
    } else {
      PositionStage(ask, rest, from, elems);
    }
  }

  lemma AllPlaces(elems: seq<Node>)
    ensures SetOf(UpTo(|elems|)) == Dense(elems).Keys
  {
    forall k: nat | k < |elems| ensures k in SetOf(UpTo(|elems|)) {
      assert UpTo(|elems|)[k] == k;
    }
  }

  lemma UnpackedSet(ix: seq<nat>, left: seq<nat>)
    requires Below(left, |ix|)
    ensures Unpacked(ix, SetOf(left)) == SetOf(Pick(ix, left))
  {
    PickedSet(ix, left);
  }

  /** On a dense array without earlier results the matches are the survivors. */
  lemma {:induction false} BuiltStages(ask: Answers, parts: Parts, from: nat, elems: seq<Node>)
    requires parts != []
    ensures Outcome(ask, Wrapped(FromTokens(parts, from)), |elems|, Dense(elems), map[]).Keys
            == SetOf(Survivors(ask, parts, from, elems))
    decreases |parts|, 3
  {
    if parts[0].Some? {
      FromPosition(parts, from);
      DensePosition(ask, Wrapped(FromTokens(parts, from)), parts, from, elems);
    } else {
      FromFilter(parts, from);
      var i := FirstPosition(parts);
      DenseFilter(ask, Wrapped(FromTokens(parts, from)), from, parts[i..], from + i, elems);
    }
  }

  lemma {:induction false} DensePosition(ask: Answers, sm: SetMatcher, parts: Parts, from: nat, elems: seq<Node>)
    requires parts != [] && sm.pre.None? && Continues(sm, parts, from)
    ensures Outcome(ask, sm, |elems|, Dense(elems), map[]).Keys == SetOf(Survivors(ask, parts, from, elems))
    decreases |parts|, 2
  {
    PositionStage(ask, parts, from, elems);
    assert map[] + Matched(parts[0], |elems|, Dense(elems)) == Matched(parts[0], |elems|, Dense(elems));
  }

  lemma {:induction false} DenseFilter(ask: Answers, sm: SetMatcher, f: nat, rest: Parts, from: nat, elems: seq<Node>)
    requires sm.pre == Some(f) && Continues(sm, rest, from)
    ensures var kept := Accepted(ask, f, elems, |elems|);
            Outcome(ask, sm, |elems|, Dense(elems), map[]).Keys
            == SetOf(Pick(kept, Survivors(ask, rest, from, Pick(elems, kept))))
    decreases |rest|, 2
  {
    var kept := Accepted(ask, f, elems, |elems|);
    var left := Survivors(ask, rest, from, Pick(elems, kept));
    KeptDense(ask, f, elems);
    ChosenStages(ask, sm, rest, from, Dense(elems), kept);
    FilterOutcome(ask, sm, |elems|, Dense(elems), map[], kept, left);
    RestrictDense(elems, Pick(kept, left));
  }

  lemma KeptDense(ask: Answers, f: nat, elems: seq<Node>)
    ensures var kept := Accepted(ask, f, elems, |elems|);
            && Indices(ask, Dense(elems), Some(f), |elems|) == kept
            && (forall k :: 0 <= k < |kept| ==> kept[k] in Dense(elems))
            && Values(Dense(elems), kept) == Pick(elems, kept)
  {
    DenseAccepted(ask, f, elems, |elems|);
    DensePacked(elems, Accepted(ask, f, elems, |elems|));
  }

  lemma RestrictDense(elems: seq<Node>, ix: seq<nat>)
    requires Below(ix, |elems|)
    ensures (map[] + Restrict(Dense(elems), SetOf(ix))).Keys == SetOf(ix)
  {
  }

  lemma FilterOutcome(ask: Answers, sm: SetMatcher, length: nat, s: map<nat, Node>, r: map<nat, Node>, ix: seq<nat>, left: seq<nat>)
    requires sm.pre.Some? && ix == Indices(ask, s, sm.pre, length)
    requires Below(left, |ix|) && Chosen(ask, sm, ix, s).Keys == SetOf(left)
    ensures Outcome(ask, sm, length, s, r) == r + Restrict(s, SetOf(Pick(ix, left)))
  {
    UnpackedSet(ix, left);
  }

  // ---- Any array, any earlier results ----

  /** The occupied indices below `n`, ascending. */
  function Occupied(at: map<nat, Node>, n: nat): (ix: seq<nat>)
    ensures forall k :: 0 <= k < |ix| ==> ix[k] in at && ix[k] < n
  {
    if n == 0 then [] else Occupied(at, n - 1) + if n - 1 in at then [n - 1] else []
  }

  lemma {:induction false} OccupiedScan(ask: Answers, at: map<nat, Node>, n: nat)
    ensures Scan(ask, at, None, n) == Occupied(at, n)
  {
    if n > 0 { OccupiedScan(ask, at, n - 1); }
  }

  lemma {:induction false} AcceptedPrefix(ask: Answers, f: nat, a: seq<Node>, b: seq<Node>, n: nat)
    requires n <= |a| && n <= |b| && a[..n] == b[..n]
    ensures Accepted(ask, f, a, n) == Accepted(ask, f, b, n)
  {
    if n > 0 {
      assert a[..n-1] == a[..n][..n-1] == b[..n-1] && a[n-1] == a[..n][n-1] == b[n-1];
      AcceptedPrefix(ask, f, a, b, n - 1);
    }
  }

  /** The accepted elements of an array with holes. */
  lemma {:induction false} AcceptedScan(ask: Answers, f: nat, at: map<nat, Node>, n: nat)
    ensures var occ := Occupied(at, n);
            Scan(ask, at, Some(f), n) == Pick(occ, Accepted(ask, f, Values(at, occ), |occ|))
  {
    if n > 0 {
      AcceptedScan(ask, f, at, n - 1);
      ScanStep(ask, at, Some(f), n - 1);
      var was := Occupied(at, n - 1);
      if n - 1 in at {
        assert Asked(at, n - 1) == Values(at, was) by {
          OccupiedScan(ask, at, n - 1);
          ScanValues(ask, at, n - 1);
        }
        assert Occupied(at, n) == was + [n - 1];
        AcceptedMore(ask, f, at, was, n - 1);
      } else {
        assert Occupied(at, n) == was;
      }
    }
  }

  lemma AcceptedMore(ask: Answers, f: nat, at: map<nat, Node>, was: seq<nat>, i: nat)
    requires (forall k :: 0 <= k < |was| ==> was[k] in at) && i in at
    ensures var occ, m := was + [i], |was|;
            var before := Pick(was, Accepted(ask, f, Values(at, was), m));
            Pick(occ, Accepted(ask, f, Values(at, occ), m + 1))
            == if ask(f, Values(at, was), at[i]) then before + [i] else before
  {
    var occ, m := was + [i], |was|;
    assert Values(at, occ) == Values(at, was) + [at[i]] && Values(at, occ)[..m] == Values(at, was);
    AcceptedPrefix(ask, f, Values(at, occ), Values(at, was), m);
    PickMore(was, occ, Accepted(ask, f, Values(at, was), m));
  }

  lemma PickMore(was: seq<nat>, occ: seq<nat>, ix: seq<nat>)
    requires Below(ix, |was|) && |occ| == |was| + 1 && occ[..|was|] == was
    ensures Pick(occ, ix) == Pick(was, ix) && Pick(occ, ix + [|was|]) == Pick(was, ix) + [occ[|was|]]
  {
    assert forall k :: 0 <= k < |was| ==> occ[k] == occ[..|was|][k];
  }

  /** The indices of `at` that are left when the parts have thinned it out. */
  function Left(ask: Answers, parts: Parts, from: nat, at: map<nat, Node>, length: nat): set<nat> {
    var occ := Occupied(at, length);
    SetOf(Pick(occ, Survivors(ask, parts, from, Values(at, occ))))
  }

  /** If an element filter comes first, the survivors of the seed join the earlier results. */
  lemma FilteredMeans(ask: Answers, parts: Parts, length: nat, s: map<nat, Node>, r: map<nat, Node>)
    requires parts != [] && parts[0].None?
    ensures Outcome(ask, Wrapped(FromTokens(parts, 0)), length, s, r) == r + Restrict(s, Left(ask, parts, 0, s, length))
  {
    var i, sm, occ := FirstPosition(parts), Wrapped(FromTokens(parts, 0)), Occupied(s, length);
    FromFilter(parts, 0);
    SparseFilter(ask, sm, 0, parts[i..], i, length, s, r);
    var elems := Values(s, occ);
    var kept := Accepted(ask, 0, elems, |elems|);
    assert Survivors(ask, parts, 0, elems) == Pick(kept, Survivors(ask, parts[i..], i, Pick(elems, kept)));
  }

  lemma SparseFilter(ask: Answers, sm: SetMatcher, f: nat, rest: Parts, from: nat, length: nat, s: map<nat, Node>, r: map<nat, Node>)
    requires sm.pre == Some(f) && Continues(sm, rest, from)
    ensures var occ := Occupied(s, length);
            var kept := Accepted(ask, f, Values(s, occ), |occ|);
            Outcome(ask, sm, length, s, r)
            == r + Restrict(s, SetOf(Pick(occ, Pick(kept, Survivors(ask, rest, from, Pick(Values(s, occ), kept))))))
  {
    var occ := Occupied(s, length);
    var elems := Values(s, occ);
    var kept := Accepted(ask, f, elems, |elems|);
    var ix := Indices(ask, s, Some(f), length);
    assert ix == Pick(occ, kept) by { AcceptedScan(ask, f, s, length); }
    assert Values(s, ix) == Pick(elems, kept);
    ChosenStages(ask, sm, rest, from, s, ix);
    var left := Survivors(ask, rest, from, Pick(elems, kept));
    FilterOutcome(ask, sm, length, s, r, ix, left);
    PickPicked(occ, kept, left);
  }

  lemma PickPicked(a: seq<nat>, b: seq<nat>, c: seq<nat>)
    requires Below(b, |a|) && Below(c, |b|)
    ensures Pick(Pick(a, b), c) == Pick(a, Pick(b, c))
  {
  }

  /** If a positional pseudo comes first, it counts in the seed as it is, holes included; and what follows it thins
      out the new matches together with the earlier results. */
  lemma PositionalMeans(ask: Answers, parts: Parts, length: nat, s: map<nat, Node>, r: map<nat, Node>)
    requires parts != [] && parts[0].Some? && Within(s, length) && Within(r, length)
    ensures var hit := r + Matched(parts[0], length, s);
            Outcome(ask, Wrapped(FromTokens(parts, 0)), length, s, r)
            == if |parts| == 1 then hit else Restrict(hit, Left(ask, parts[1..], 1, hit, length))
  {
    FromPosition(parts, 0);
    var hit := r + Matched(parts[0], length, s);
    if |parts| > 1 { ThinnedOut(ask, parts[1..], 1, hit, length); }
  }

  /** What follows a positional pseudo thins out whatever is in the results. */
  lemma ThinnedOut(ask: Answers, parts: Parts, from: nat, all: map<nat, Node>, n: nat)
    requires parts != [] && Within(all, n)
    ensures AfterPost(ask, Some(FromTokens(parts, from)), all) == Restrict(all, Left(ask, parts, from, all, n))
  {
    var occ := Occupied(all, n);
    var left := Survivors(ask, parts, from, Values(all, occ));
    OccupiedAll(ask, all, n);
    PackedDense(all, occ);
    BuiltStages(ask, parts, from, Values(all, occ));
    FromTokensBuilt(parts, from);
    PostKeeps(ask, FromTokens(parts, from), all, n, occ, left);
    RestrictByKeys(all, Kept(ask, FromTokens(parts, from), all), SetOf(Pick(occ, left)));
  }

  lemma PackedDense(at: map<nat, Node>, ix: seq<nat>)
    requires forall k :: 0 <= k < |ix| ==> ix[k] in at
    ensures Packed(at, ix) == Dense(Values(at, ix))
  {
  }

  lemma RestrictByKeys(all: map<nat, Node>, a: set<nat>, b: set<nat>)
    requires Restrict(all, a).Keys == b
    ensures Restrict(all, a) == Restrict(all, b)
  {
    forall j | j in all ensures j in a <==> j in b {
      assert j in a <==> j in Restrict(all, a);
    }
  }

  lemma OccupiedAll(ask: Answers, all: map<nat, Node>, n: nat)
    requires Within(all, n)
    ensures Indices(ask, all, None, n) == Occupied(all, n) && all.Keys == SetOf(Occupied(all, n))
  {
    var occ := Occupied(all, n);
    OccupiedScan(ask, all, n);
    ScanMeans(ask, all, None, n);
    forall j | j in all ensures j in SetOf(occ) {
      InSet(occ, j);
    }
  }

  // ---- Earlier results ----

  /** A call on arrays of a common length that share no index. */
  ghost predicate Posed(ask: Answers, length: nat, s: map<nat, Node>, r: map<nat, Node>) {
    Within(s, length) && Within(r, length) && s.Keys !! r.Keys
  }

  /** Whatever earlier set matchers of the same run have found stays in the results. */
  ghost predicate KeepsEarlier(parts: Parts) {
    forall ask: Answers, length, s, r {:trigger Posed(ask, length, s, r)} :: Posed(ask, length, s, r) ==>
      r.Keys <= Outcome(ask, Wrapped(FromTokens(parts, 0)), length, s, r).Keys
  }

  /** Earlier results are safe if and only if the group begins with an element filter or is a single positional pseudo.
      Otherwise what follows the leading pseudo is applied to them as well. */
  lemma KeepsEarlierIff(parts: Parts)
    requires parts != []
    ensures KeepsEarlier(parts) <==> parts[0].None? || |parts| == 1
  {
    if parts[0].None? || |parts| == 1 {
      forall ask: Answers, length, s, r | Posed(ask, length, s, r)
        ensures r.Keys <= Outcome(ask, Wrapped(FromTokens(parts, 0)), length, s, r).Keys
      {
        if parts[0].None? { FilteredMeans(ask, parts, length, s, r); } else { PositionalMeans(ask, parts, length, s, r); }
      }
    } else {
      LosesEarlier(parts);
    }
  }

  lemma LosesEarlier(parts: Parts)
    requires |parts| > 1 && parts[0].Some?
    ensures !KeepsEarlier(parts)
  {
    var n, j := 1, 0;
    if parts[1].Some? { n, j := NotNamed(parts[1].value); }
    var never: Answers := (f, asked, v) => false;
    var elems: seq<Node> := seq(n, _ => 0);
    NothingNew(parts[0], n, Dense(elems));
    assert j !in Survivors(never, parts[1..], 1, elems) by { NotLeft(never, parts[1..], 1, elems, j); }
    LostAt(never, parts, map[], Dense(elems), elems, j);
    Refutes(parts, never, n, map[], Dense(elems), j);
  }

  lemma Refutes(parts: Parts, ask: Answers, length: nat, s: map<nat, Node>, r: map<nat, Node>, j: nat)
    requires Posed(ask, length, s, r) && j in r && j !in Outcome(ask, Wrapped(FromTokens(parts, 0)), length, s, r)
    ensures !KeepsEarlier(parts)
  {
    assert !(r.Keys <= Outcome(ask, Wrapped(FromTokens(parts, 0)), length, s, r).Keys);
  }

  lemma NothingNew(m: Option<Position>, length: nat, r: map<nat, Node>)
    ensures r + Matched(m, length, map[]) == r
  {
  }

  /** An element that the parts after the leading pseudo do not let through is lost, wherever it comes from. */
  lemma LostAt(ask: Answers, parts: Parts, s: map<nat, Node>, r: map<nat, Node>, elems: seq<Node>, j: nat)
    requires |parts| > 1 && parts[0].Some? && Within(s, |elems|) && Within(r, |elems|)
    requires r + Matched(parts[0], |elems|, s) == Dense(elems)
    requires j !in Survivors(ask, parts[1..], 1, elems)
    ensures j !in Outcome(ask, Wrapped(FromTokens(parts, 0)), |elems|, s, r)
  {
    assert j !in Left(ask, parts[1..], 1, Dense(elems), |elems|) by {
      LeftDense(ask, parts[1..], 1, elems);
      InSet(Survivors(ask, parts[1..], 1, elems), j);
    }
    PositionalMeans(ask, parts, |elems|, s, r);
  }

  lemma LeftDense(ask: Answers, parts: Parts, from: nat, elems: seq<Node>)
    ensures Left(ask, parts, from, Dense(elems), |elems|) == SetOf(Survivors(ask, parts, from, elems))
  {
    OccupiedDense(elems, |elems|);
    assert Values(Dense(elems), UpTo(|elems|)) == elems;
    var left := Survivors(ask, parts, from, elems);
    assert Pick(UpTo(|elems|), left) == left;
  }

  lemma NotLeft(ask: Answers, parts: Parts, from: nat, elems: seq<Node>, j: nat)
    requires parts != [] && (parts[0].Some? ==> !Hits(parts[0].value, |elems|, j))
    requires parts[0].None? ==> forall f, asked, v :: !ask(f, asked, v)
    ensures j !in Survivors(ask, parts, from, elems)
  {
    if parts[0].Some? {
      NamedHits(parts[0].value, |elems|, |elems|);
    } else {
      NoneAccepted(ask, from, elems, |elems|);
    }
  }

  lemma {:induction false} NamedHits(p: Position, length: nat, n: nat)
    requires n <= length
    ensures forall k :: 0 <= k < |Named(p, length, n)| ==> Hits(p, length, Named(p, length, n)[k])
  {
    if n > 0 { NamedHits(p, length, n - 1); }
  }

  lemma {:induction false} NoneAccepted(ask: Answers, f: nat, elems: seq<Node>, n: nat)
    requires n <= |elems| && forall f, asked, v :: !ask(f, asked, v)
    ensures Accepted(ask, f, elems, n) == []
  {
    if n > 0 { NoneAccepted(ask, f, elems, n - 1); }
  }

  lemma {:induction false} OccupiedDense(elems: seq<Node>, n: nat)
    requires n <= |elems|
    ensures Occupied(Dense(elems), n) == UpTo(n)
  {
    if n > 0 {
      OccupiedDense(elems, n - 1);
      assert n - 1 in Dense(elems);
    }
  }

  /** Every positional pseudo leaves out some place of some list. */
  lemma NotNamed(p: Position) returns (n: nat, j: nat)
    ensures j < n && !Hits(p, n, j)
  {
    match p {
      case FirstOf => n, j := 2, 1;
      case LastOf => n, j := 2, 0;
      case Eq(k) => n, j := 2, if Hits(p, 2, 0) then 1 else 0;
      case Even => n, j := 2, 1;
      case Odd => n, j := 1, 0;
      case Lt(k) => if k < 0 { n, j := 1, 0; } else { n, j := k + 1, k; }
      case Gt(k) => if k < 0 { n, j := -k, 0; } else { n, j := 1, 0; }
    }
  }

  /** In `:first.b, :last` the last element, found first, is lost if it is not a `.b`. */
  lemma LastIsLost(ask: Answers, x: Node, y: Node)
    requires !ask(1, [x], y)
    ensures var found := Outcome(ask, Wrapped(FromTokens([Some(FirstOf), None], 0)), 2, map[0 := x], map[1 := y]);
            1 !in found
  {
    var parts: Parts := [Some(FirstOf), None];
    var s: map<nat, Node>, r: map<nat, Node> := map[0 := x], map[1 := y];
    assert parts[1..] == [None];
    assert 1 !in Survivors(ask, parts[1..], 1, [x, y]) by {
      OnlyFilter(ask, 1, [x, y]);
      assert [x, y][..1] == [x];
    }
    assert r + Matched(parts[0], 2, s) == Dense([x, y]);
    LostAt(ask, parts, s, r, [x, y], 1);
  }

  lemma OnlyFilter(ask: Answers, from: nat, elems: seq<Node>)
    ensures Survivors(ask, [None], from, elems) == Accepted(ask, from, elems, |elems|)
  {
    var kept := Accepted(ask, from, elems, |elems|);
    var parts: Parts := [None];
    FirstPositionIs(parts, 1);
    assert parts[1..] == [];
    PickAll(kept);
  }
}
