/** Positional selectors (`:first`, `:eq(n)`, ...): `setMatcher` moves elements between the
    parallel arrays `seed` and `results`. */
module Positional {
  import opened Dom

  datatype Position = FirstOf | LastOf | Eq(n: int) | Even | Odd | Lt(n: int) | Gt(n: int)

  /** An element filter is known by a number. What it says about an element may depend on the elements it was asked
      about before in the same pass: the marks its searches leave may change its answers. */
  type Answers = (nat, seq<Node>, Node) -> bool

  /** The arguments of `setMatcher` that a seeded call without postFinder uses. A postFilter is an
      element filter or itself the result of `setMatcher`. */
  datatype SetMatcher = SetMatcher(pre: Option<nat>, matcher: Option<Position>, post: Option<PostFilter>)
  datatype PostFilter = Plain(filter: nat) | Marked(sm: SetMatcher)

  /** A plain postFilter is wrapped: `setMatcher( postFilter )`. */
  function Wrapped(p: PostFilter): SetMatcher {
    match p
    case Plain(f) => SetMatcher(Some(f), None, None)
    case Marked(sm) => sm
  }

  /** How deep calls nest. */
  function Depth(sm: SetMatcher): nat {
    match sm.post
    case None => 0
    case Some(Plain(_)) => 1
    case Some(Marked(inner)) => 1 + Depth(inner)
  }

  // ---- What a call should do, in terms of which indices are occupied ----

  function FromStart(n: int, length: nat): int {
    if n < 0 then n + length else n
  }

  /** The indices a positional pseudo matches in an array of the given length. */
  predicate Hits(p: Position, length: nat, j: int) {
    match p
    case FirstOf => j == 0
    case LastOf => j == length - 1
    case Eq(n) => j == FromStart(n, length)
    case Even => 0 <= j < length && j % 2 == 0
    case Odd => 0 <= j < length && j % 2 == 1
    case Lt(n) => 0 <= j < FromStart(n, length)
    case Gt(n) => FromStart(n, length) < j < length
  }

  /** The elements before index `i`, in order. */
  function Asked(at: map<nat, Node>, i: nat): seq<Node> {
    if i == 0 then [] else Asked(at, i - 1) + if i - 1 in at then [at[i-1]] else []
  }

  predicate Passes(ask: Answers, at: map<nat, Node>, f: Option<nat>, i: nat)
    requires i in at
  {
    f.None? || ask(f.value, Asked(at, i), at[i])
  }

  function Scan(ask: Answers, at: map<nat, Node>, f: Option<nat>, n: nat): seq<nat> {
    if n == 0 then [] else Scan(ask, at, f, n - 1) + if n - 1 in at && Passes(ask, at, f, n - 1) then [n - 1] else []
  }

  lemma {:induction false} ScanFinds(ask: Answers, at: map<nat, Node>, f: Option<nat>, n: nat, i: nat)
    ensures i in Scan(ask, at, f, n) <==> i < n && i in at && Passes(ask, at, f, i)
  {
    if n > 0 {
      ScanFinds(ask, at, f, n - 1, i);
      var front, now := Scan(ask, at, f, n - 1), Scan(ask, at, f, n);
      assert i in now <==> i in front || (i == n - 1 && |now| > |front|);
    }
  }

  lemma {:induction false} ScanAscends(ask: Answers, at: map<nat, Node>, f: Option<nat>, n: nat)
    ensures forall k :: 0 <= k < |Scan(ask, at, f, n)| ==> Scan(ask, at, f, n)[k] < n
    ensures forall j, k :: 0 <= j < k < |Scan(ask, at, f, n)| ==> Scan(ask, at, f, n)[j] < Scan(ask, at, f, n)[k]
  {
    if n > 0 {
      ScanAscends(ask, at, f, n - 1);
      var front, now := Scan(ask, at, f, n - 1), Scan(ask, at, f, n);
      assert now == front || now == front + [n - 1];
    }
  }

  lemma ScanMeans(ask: Answers, at: map<nat, Node>, f: Option<nat>, n: nat)
    ensures forall k :: 0 <= k < |Scan(ask, at, f, n)| ==>
              Scan(ask, at, f, n)[k] < n && Scan(ask, at, f, n)[k] in at && Passes(ask, at, f, Scan(ask, at, f, n)[k])
    ensures forall j, k :: 0 <= j < k < |Scan(ask, at, f, n)| ==> Scan(ask, at, f, n)[j] < Scan(ask, at, f, n)[k]
    ensures forall i :: 0 <= i < n && i in at && Passes(ask, at, f, i) ==> i in Scan(ask, at, f, n)
  {
    var ix: seq<nat> := Scan(ask, at, f, n);
    ScanAscends(ask, at, f, n);
    forall k | 0 <= k < |ix| ensures ix[k] < n && ix[k] in at && Passes(ask, at, f, ix[k]) {
      ScanFinds(ask, at, f, n, ix[k]);
    }
    forall i | 0 <= i < n && i in at && Passes(ask, at, f, i) ensures i in ix {
      ScanFinds(ask, at, f, n, i);
    }
  }

  /** The occupied indices below `n` whose element passes, in ascending order. */
  function Indices(ask: Answers, at: map<nat, Node>, f: Option<nat>, n: nat): (ix: seq<nat>)
    ensures forall k :: 0 <= k < |ix| ==> ix[k] < n && ix[k] in at && Passes(ask, at, f, ix[k])
    ensures forall j, k :: 0 <= j < k < |ix| ==> ix[j] < ix[k]
    ensures forall i :: 0 <= i < n && i in at && Passes(ask, at, f, i) ==> i in ix
  {
    ScanMeans(ask, at, f, n);
    Scan(ask, at, f, n)
  }

  /** The listed elements, moved together. */
  function Packed(at: map<nat, Node>, ix: seq<nat>): map<nat, Node>
    requires forall k :: 0 <= k < |ix| ==> ix[k] in at
  {
    map k: nat | k < |ix| :: at[ix[k]]
  }

  function Restrict(at: map<nat, Node>, keys: set<nat>): map<nat, Node> {
    map i | i in at && i in keys :: at[i]
  }

  /** The indices of `at` whose elements the postFilter leaves matched. A positional one sees the
      elements packed together and counts among them. */
  ghost function Kept(ask: Answers, p: PostFilter, at: map<nat, Node>): set<nat>
    decreases p, 0
  {
    match p
    case Plain(f) => set i | i in at && Passes(ask, at, Some(f), i)
    case Marked(sm) =>
      var ix := Indices(ask, at, None, Bound(at));
      var failed := Remaining(ask, sm, |ix|, Packed(at, ix), map[]);
      set k | 0 <= k < |ix| && k !in failed :: ix[k]
  }

  ghost function AfterPost(ask: Answers, p: Option<PostFilter>, at: map<nat, Node>): map<nat, Node>
    decreases p, 2
  {
    if p.None? then at else Restrict(at, Kept(ask, p.value, at))
  }

  /** The occupied indices that a positional pseudo (or none) matches. */
  function HitKeys(m: Option<Position>, length: nat, at: map<nat, Node>): set<nat> {
    set i | i in at && (m.None? || Hits(m.value, length, i))
  }

  function Matched(m: Option<Position>, length: nat, at: map<nat, Node>): map<nat, Node> {
    Restrict(at, HitKeys(m, length, at))
  }

  /** With a preFilter: which of the packed elements end up matched. */
  ghost function Chosen(ask: Answers, sm: SetMatcher, ix: seq<nat>, s: map<nat, Node>): map<nat, Node>
    requires forall k :: 0 <= k < |ix| ==> ix[k] in s
    decreases sm, 2
  {
    AfterPost(ask, sm.post, Matched(sm.matcher, |ix|, Packed(s, ix)))
  }

  function Unpacked(ix: seq<nat>, ks: set<nat>): set<nat> {
    set k | k in ks && k < |ix| :: ix[k]
  }

  /** What `results` holds after a call with seed `s`, of this length, and results `r`. */
  ghost function Outcome(ask: Answers, sm: SetMatcher, length: nat, s: map<nat, Node>, r: map<nat, Node>): map<nat, Node>
    decreases sm, 3
  {
    match sm.pre
    case None =>
      if sm.matcher.None? then r else AfterPost(ask, sm.post, r + Matched(sm.matcher, length, s))
    case Some(f) =>
      var ix := Indices(ask, s, Some(f), length);
      r + Restrict(s, Unpacked(ix, Chosen(ask, sm, ix, s).Keys))
  }

  /** What `seed` holds after the call. */
  ghost function Remaining(ask: Answers, sm: SetMatcher, length: nat, s: map<nat, Node>, r: map<nat, Node>): map<nat, Node>
    decreases sm, 4
  {
    if sm.pre.None? && sm.matcher.None? then AfterPost(ask, sm.post, s)
    else (s + r) - Outcome(ask, sm, length, s, r).Keys
  }

  /** No element is lost, doubled or moved to another index. */
  ghost predicate Conserved(s: map<nat, Node>, r: map<nat, Node>, s': map<nat, Node>, r': map<nat, Node>) {
    s'.Keys !! r'.Keys && s' + r' == s + r
  }

  /** Elements are conserved unless there is neither preFilter nor positional matcher and the
      postFilter rejects something; then the rejected elements vanish from both arrays. */
  lemma ConservedIff(ask: Answers, sm: SetMatcher, length: nat, s: map<nat, Node>, r: map<nat, Node>)
    requires s.Keys !! r.Keys
    ensures Conserved(s, r, Remaining(ask, sm, length, s, r), Outcome(ask, sm, length, s, r))
            <==> (sm.pre.Some? || sm.matcher.Some? || sm.post.None? || s.Keys <= Kept(ask, sm.post.value, s))
  {
    if sm.pre.None? && sm.matcher.None? {
      if sm.post.Some? {
        RestrictConserves(s, r, Kept(ask, sm.post.value, s));
      }
    } else {
      OutcomeWithin(ask, sm, length, s, r);
      RestConserves(s, r, Outcome(ask, sm, length, s, r));
    }
  }

  lemma RestrictConserves(s: map<nat, Node>, r: map<nat, Node>, keys: set<nat>)
    requires s.Keys !! r.Keys
    ensures Conserved(s, r, Restrict(s, keys), r) <==> s.Keys <= keys
  {
    if i :| i in s && i !in keys {
      assert i in s + r && i !in Restrict(s, keys) + r;
    } else {
      assert Restrict(s, keys) == s;
    }
  }

  lemma RestConserves(s: map<nat, Node>, r: map<nat, Node>, r': map<nat, Node>)
    requires forall i :: i in r' ==> i in s + r && r'[i] == (s + r)[i]
    ensures Conserved(s, r, (s + r) - r'.Keys, r')
  {
  }

  lemma OutcomeWithin(ask: Answers, sm: SetMatcher, length: nat, s: map<nat, Node>, r: map<nat, Node>)
    requires s.Keys !! r.Keys
    ensures forall i :: i in Outcome(ask, sm, length, s, r) ==>
              i in s + r && Outcome(ask, sm, length, s, r)[i] == (s + r)[i]
  {
  }

  // ---- The set matchers that compilation builds ----

  /** The tokens of a group as far as they matter here: a positional pseudo, or anything else. The first positional
      pseudo ends the part that the element matchers cover; without a postFinder no combinator follows it. */
  type Parts = seq<Option<Position>>

  /** The first `i` parts are not positional. */
  predicate NoneUpTo(parts: Parts, i: nat) {
    i <= |parts| && forall k :: 0 <= k < i ==> parts[k].None?
  }

  /** The index of the first positional part, or the length. */
  function FirstPosition(parts: Parts): (i: nat)
    ensures NoneUpTo(parts, i) && (i < |parts| ==> parts[i].Some?)
  {
    if parts == [] || parts[0].Some? then 0 else
    var i := FirstPosition(parts[1..]);
    assert forall k :: 0 < k < i + 1 ==> parts[k] == parts[1..][k-1];
    i + 1
  }

  /** `matcherFromTokens`. An element matcher is numbered by the first token it covers. */
  function FromTokens(parts: Parts, from: nat): PostFilter
    decreases |parts|
  {
    var i := FirstPosition(parts);
    if i == |parts| then Plain(from) else
    Marked(SetMatcher(if i > 0 then Some(from) else None, parts[i],
                      if i + 1 < |parts| then Some(FromTokens(parts[i+1..], from + i + 1)) else None))
  }

  lemma FirstPositionIs(parts: Parts, i: nat)
    requires NoneUpTo(parts, i) && (i < |parts| ==> parts[i].Some?)
    ensures FirstPosition(parts) == i
  {
  }

  method MatcherFromTokens(parts: Parts, from: nat) returns (m: PostFilter)
    ensures m == FromTokens(parts, from)
    decreases |parts|
  {
    var i := 0;
    while i < |parts|
      invariant NoneUpTo(parts, i)
    {
      if parts[i].Some? {
        FirstPositionIs(parts, i);
        var post := None;
        if i + 1 < |parts| {
          var rest := MatcherFromTokens(parts[i+1..], from + i + 1);
          post := Some(rest);
        }
        return Marked(SetMatcher(if i > 0 then Some(from) else None, parts[i], post));
      }
      i := i + 1;
    }
    FirstPositionIs(parts, i);
    m := Plain(from);
  }

  /** Every call, also of the postFilters inside, has a preFilter or a positional matcher. */
  predicate Built(sm: SetMatcher)
    decreases Depth(sm)
  {
    && (sm.pre.Some? || sm.matcher.Some?)
    && (sm.post.Some? ==> Built(Wrapped(sm.post.value)))
  }

  lemma {:induction false} FromTokensBuilt(parts: Parts, from: nat)
    ensures Built(Wrapped(FromTokens(parts, from)))
    decreases |parts|
  {
    var i := FirstPosition(parts);
    if i + 1 < |parts| { FromTokensBuilt(parts[i+1..], from + i + 1); }
  }

  /** The element filters of a set matcher, in the order in which they are asked. */
  function FiltersOf(sm: SetMatcher): seq<nat>
    decreases Depth(sm)
  {
    (if sm.pre.Some? then [sm.pre.value] else []) +
    match sm.post
    case None => []
    case Some(p) => FiltersOf(Wrapped(p))
  }

  predicate Ascends(fs: seq<nat>, from: nat) {
    && (forall k :: 0 <= k < |fs| ==> from <= fs[k])
    && (forall j, k :: 0 <= j < k < |fs| ==> fs[j] < fs[k])
  }

  lemma AscendsCons(f: nat, rest: seq<nat>, next: nat)
    requires Ascends(rest, next) && f < next
    ensures Ascends(rest, f) && Ascends([f] + rest, f)
  {
  }

  /** No element filter occurs twice, so within one call each is asked in one pass only. */
  lemma {:induction false} FiltersAscend(parts: Parts, from: nat)
    ensures Ascends(FiltersOf(Wrapped(FromTokens(parts, from))), from)
    decreases |parts|
  {
    var i, sm := FirstPosition(parts), Wrapped(FromTokens(parts, from));
    if i + 1 < |parts| {
      var next := from + i + 1;
      var later := FiltersOf(Wrapped(FromTokens(parts[i+1..], next)));
      FiltersAscend(parts[i+1..], next);
      AscendsCons(from, later, next);
      assert FiltersOf(sm) == if i > 0 then [from] + later else [] + later;
      assert [] + later == later;
    }
  }

  /** What compilation builds loses nothing, whatever the filters answer. */
  lemma CompiledConserves(ask: Answers, parts: Parts, length: nat, s: map<nat, Node>, r: map<nat, Node>)
    requires s.Keys !! r.Keys
    ensures var sm := Wrapped(FromTokens(parts, 0));
            Conserved(s, r, Remaining(ask, sm, length, s, r), Outcome(ask, sm, length, s, r))
  {
    FromTokensBuilt(parts, 0);
    ConservedIff(ask, Wrapped(FromTokens(parts, 0)), length, s, r);
  }

  /** A length that covers all occupied indices. */
  ghost function Bound(at: map<nat, Node>): (n: nat)
    ensures forall i :: i in at ==> i < n
  {
    BoundOf(at.Keys)
  }

  ghost function BoundOf(keys: set<nat>): (n: nat)
    ensures forall i :: i in keys ==> i < n
  {
    if keys == {} then 0 else
    var i :| i in keys;
    var rest := BoundOf(keys - {i});
    assert keys == (keys - {i}) + {i};
    if i < rest then rest else i + 1
  }

  // ---- The arrays and the code ----

  /** A JavaScript array of elements; `at` maps the indices that hold an element rather than
      `false` or nothing. */
  class Slots {
    var length: nat
    var at: map<nat, Node>

    ghost predicate Valid()
      reads this
    {
      forall i :: i in at ==> i < length
    }

    constructor ()
      ensures Valid() && length == 0 && at == map[]
    {
      length, at := 0, map[];
    }

    method Put(i: nat, v: Node)
      requires Valid()
      modifies this
      ensures Valid() && at == old(at)[i := v]
      ensures length == if i < old(length) then old(length) else i + 1
    {
      at := at[i := v];
      if length <= i { length := i + 1; }
    }

    /** Stores `false`. */
    method Unset(i: nat)
      requires Valid() && i < length
      modifies this
      ensures Valid() && at == old(at) - {i} && length == old(length)
    {
      at := at - {i};
    }
  }

  /** The index list of a positional pseudo. */
  method MatchIndexes(p: Position, length: nat) returns (ix: seq<int>)
    ensures forall j :: j in ix <==> Hits(p, length, j)
  {
    match p {
      case FirstOf => ix := [0];
      case LastOf => ix := [length - 1];
      case Eq(n) => ix := [FromStart(n, length)];
      case Even =>
        ix := [];
        var i := 0;
        while i < length
          invariant 0 <= i <= length + 1 && i % 2 == 0
          invariant forall j :: j in ix <==> 0 <= j < i && j < length && j % 2 == 0
        {
          ix := ix + [i];
          i := i + 2;
        }
      case Odd =>
        ix := [];
        var i := 1;
        while i < length
          invariant 1 <= i <= length + 1 && i % 2 == 1
          invariant forall j :: j in ix <==> 0 <= j < i && j < length && j % 2 == 1
        {
          ix := ix + [i];
          i := i + 2;
        }
      case Lt(n) =>
        ix := [];
        var i := FromStart(n, length) - 1;
        while i >= 0
          invariant forall j :: j in ix <==> i < j < FromStart(n, length) && j >= 0
        {
          ix := ix + [i];
          i := i - 1;
        }
      case Gt(n) =>
        ix := [];
        var i := FromStart(n, length) + 1;
        while i < length
          invariant i > FromStart(n, length)
          invariant forall j :: j in ix <==> FromStart(n, length) < j < i && j < length
        {
          ix := ix + [i];
          i := i + 1;
        }
    }
  }

  /** `createPositionalPseudo`: moves the elements at the matched indices. */
  method ApplyPosition(p: Position, seed: Slots, matches: Slots)
    requires seed.Valid() && matches.Valid() && seed != matches
    modifies seed, matches
    ensures seed.Valid() && matches.Valid() && seed.length == old(seed.length)
    ensures seed.at == old(seed.at) - HitKeys(Some(p), seed.length, old(seed.at))
    ensures matches.at == old(matches.at) + Matched(Some(p), seed.length, old(seed.at))
  {
    var ix := MatchIndexes(p, seed.length);
    var i := |ix|;
    ghost var s, r := seed.at, matches.at;
    ghost var moved: set<nat> := {};
    while i > 0
      invariant 0 <= i <= |ix|
      invariant seed.Valid() && matches.Valid() && seed.length == old(seed.length)
      invariant forall j :: j in moved <==> j in s && j in ix[i..]
      invariant seed.at == s - moved && matches.at == r + Restrict(s, moved)
    {
      i := i - 1;
      var j := ix[i];
      assert ix[i..] == [j] + ix[i+1..];
      if j >= 0 && j in seed.at {
        MoveOne(s, r, moved, j);
        moved := moved + {j};
        matches.Put(j, seed.at[j]);
        seed.Unset(j);
      }
    }
    assert ix[0..] == ix;
    assert moved == HitKeys(Some(p), seed.length, s);
  }

  lemma MoveOne(s: map<nat, Node>, r: map<nat, Node>, moved: set<nat>, j: nat)
    requires j in s
    ensures (r + Restrict(s, moved))[j := s[j]] == r + Restrict(s, moved + {j})
    ensures s - moved - {j} == s - (moved + {j})
  {
  }

  lemma PackOne(at: map<nat, Node>, ix: seq<nat>, i: nat)
    requires i in at && forall k :: 0 <= k < |ix| ==> ix[k] in at
    ensures Packed(at, ix + [i]) == Packed(at, ix)[|ix| := at[i]]
  {
  }

  /** `condense` with an index map: packs the elements that pass. */
  method Condense(ask: Answers, src: Slots, f: Option<nat>) returns (dst: Slots, ix: seq<nat>)
    requires src.Valid()
    ensures fresh(dst) && dst.Valid() && dst.length == |ix|
    ensures ix == Indices(ask, src.at, f, src.length) && dst.at == Packed(src.at, ix)
  {
    dst := new Slots();
    ix := [];
    var i, n, at, asked := 0, src.length, src.at, [];
    while i < n
      invariant 0 <= i <= n && dst.Valid() && asked == Asked(at, i)
      invariant ix == Scan(ask, at, f, i) && forall k :: 0 <= k < |ix| ==> ix[k] in at
      invariant dst.length == |ix| && dst.at == Packed(at, ix)
    {
      ScanStep(ask, at, f, i);
      if i in at {
        var passes := f.None? || ask(f.value, asked, at[i]);
        if passes {
          PackOne(at, ix, i);
          dst.Put(dst.length, at[i]);
          ix := ix + [i];
        }
        asked := asked + [at[i]];
      }
      i := i + 1;
    }
  }

  lemma ScanStep(ask: Answers, at: map<nat, Node>, f: Option<nat>, i: nat)
    ensures Asked(at, i + 1) == if i in at then Asked(at, i) + [at[i]] else Asked(at, i)
    ensures Scan(ask, at, f, i + 1)
            == if i in at && (f.None? || ask(f.value, Asked(at, i), at[i])) then Scan(ask, at, f, i) + [i] else Scan(ask, at, f, i)
  {
  }

  lemma {:induction false} IndicesBeyond(ask: Answers, at: map<nat, Node>, f: Option<nat>, b: nat, n: nat)
    requires b <= n && forall i :: i in at ==> i < b
    ensures Scan(ask, at, f, n) == Scan(ask, at, f, b)
    decreases n
  {
    if b < n { IndicesBeyond(ask, at, f, b, n - 1); }
  }

  /** `failed` are the packed positions of the elements whose indices are not kept. */
  ghost predicate Splits(at: map<nat, Node>, ix: seq<nat>, failed: map<nat, Node>, kept: set<nat>) {
    && (forall k :: 0 <= k < |ix| ==> ix[k] in at && (k in failed <==> ix[k] !in kept))
    && (forall k :: k in failed ==> k < |ix| && failed[k] == at[ix[k]])
  }

  /** What a postFilter leaves unmatched among the packed elements is what `Kept` omits. */
  lemma FailedIndices(ask: Answers, p: PostFilter, at: map<nat, Node>, n: nat)
    requires forall i :: i in at ==> i < n
    ensures var ix := Indices(ask, at, None, n);
            Splits(at, ix, Remaining(ask, Wrapped(p), |ix|, Packed(at, ix), map[]), Kept(ask, p, at))
  {
    match p {
      case Marked(sm) => MarkedFailed(ask, sm, at, n);
      case Plain(f) => PlainFailed(ask, f, at, n);
    }
  }

  lemma PlainFailed(ask: Answers, f: nat, at: map<nat, Node>, n: nat)
    ensures var ix := Indices(ask, at, None, n);
            Splits(at, ix, Remaining(ask, Wrapped(Plain(f)), |ix|, Packed(at, ix), map[]), Kept(ask, Plain(f), at))
  {
    var ix := Indices(ask, at, None, n);
    var failed := Remaining(ask, Wrapped(Plain(f)), |ix|, Packed(at, ix), map[]);
    PlainRemaining(ask, f, |ix|, Packed(at, ix));
    RemainingWithin(ask, Wrapped(Plain(f)), |ix|, Packed(at, ix));
    PackedAsked(ask, at, n);
    SplitByFilter(ask, f, at, ix, failed);
  }

  lemma SplitByFilter(ask: Answers, f: nat, at: map<nat, Node>, ix: seq<nat>, failed: map<nat, Node>)
    requires SameQuestions(at, ix)
    requires forall k :: k in failed <==> k in Packed(at, ix) && !Passes(ask, Packed(at, ix), Some(f), k)
    requires forall k :: k in failed ==> failed[k] == Packed(at, ix)[k]
    ensures Splits(at, ix, failed, Kept(ask, Plain(f), at))
  {
    forall k: nat | k < |ix| ensures k in failed <==> ix[k] !in Kept(ask, Plain(f), at) {
      assert k in Packed(at, ix) && Packed(at, ix)[k] == at[ix[k]];
    }
  }

  /** A filter that goes over the packed elements is asked the same questions as on the elements in their places. */
  ghost predicate SameQuestions(at: map<nat, Node>, ix: seq<nat>) {
    && (forall k :: 0 <= k < |ix| ==> ix[k] in at)
    && forall k :: 0 <= k < |ix| ==> Asked(Packed(at, ix), k) == Asked(at, ix[k])
  }

  function Values(at: map<nat, Node>, ix: seq<nat>): seq<Node>
    requires forall k :: 0 <= k < |ix| ==> ix[k] in at
  {
    seq(|ix|, k requires 0 <= k < |ix| => at[ix[k]])
  }

  lemma {:induction false} PackedValues(at: map<nat, Node>, ix: seq<nat>, k: nat)
    requires k <= |ix| && forall j :: 0 <= j < |ix| ==> ix[j] in at
    ensures Asked(Packed(at, ix), k) == Values(at, ix)[..k]
  {
    if k > 0 {
      PackedValues(at, ix, k - 1);
      assert k - 1 in Packed(at, ix);
      assert Values(at, ix)[..k] == Values(at, ix)[..k-1] + [at[ix[k-1]]];
    }
  }

  lemma {:induction false} ScanValues(ask: Answers, at: map<nat, Node>, n: nat)
    ensures forall k :: 0 <= k < |Scan(ask, at, None, n)| ==> Scan(ask, at, None, n)[k] in at
    ensures Values(at, Scan(ask, at, None, n)) == Asked(at, n)
  {
    if n > 0 { ScanValues(ask, at, n - 1); }
  }

  lemma {:induction false} ScanPrefix(ask: Answers, at: map<nat, Node>, n: nat, k: nat)
    requires k < |Scan(ask, at, None, n)|
    ensures Scan(ask, at, None, Scan(ask, at, None, n)[k]) == Scan(ask, at, None, n)[..k]
  {
    var front := Scan(ask, at, None, n - 1);
    if k < |front| { ScanPrefix(ask, at, n - 1, k); }
  }

  lemma PackedAsked(ask: Answers, at: map<nat, Node>, n: nat)
    ensures SameQuestions(at, Scan(ask, at, None, n))
  {
    var ix := Scan(ask, at, None, n);
    ScanValues(ask, at, n);
    forall k | 0 <= k < |ix| ensures Asked(Packed(at, ix), k) == Asked(at, ix[k]) {
      PackedValues(at, ix, k);
      ScanPrefix(ask, at, n, k);
      ScanValues(ask, at, ix[k]);
      assert Values(at, ix)[..k] == Values(at, ix[..k]);
    }
  }

  lemma MarkedFailed(ask: Answers, sm: SetMatcher, at: map<nat, Node>, n: nat)
    requires forall i :: i in at ==> i < n
    ensures var ix := Indices(ask, at, None, n);
            Splits(at, ix, Remaining(ask, sm, |ix|, Packed(at, ix), map[]), Kept(ask, Marked(sm), at))
  {
    if Bound(at) <= n {
      IndicesBeyond(ask, at, None, Bound(at), n);
    } else {
      IndicesBeyond(ask, at, None, n, Bound(at));
    }
    var ix := Indices(ask, at, None, n);
    var failed, kept := Remaining(ask, sm, |ix|, Packed(at, ix), map[]), Kept(ask, Marked(sm), at);
    RemainingWithin(ask, sm, |ix|, Packed(at, ix));
    assert kept == set k | 0 <= k < |ix| && k !in failed :: ix[k];
    forall k | 0 <= k < |ix| ensures k in failed <==> ix[k] !in kept {
      if ix[k] in kept {
        var j :| 0 <= j < |ix| && j !in failed && ix[j] == ix[k];
        assert j == k;
      }
    }
  }

  lemma RemainingWithin(ask: Answers, sm: SetMatcher, length: nat, s: map<nat, Node>)
    ensures forall k :: k in Remaining(ask, sm, length, s, map[]) ==>
              k in s && Remaining(ask, sm, length, s, map[])[k] == s[k]
  {
  }

  lemma PlainRemaining(ask: Answers, f: nat, length: nat, s: map<nat, Node>)
    requires forall i :: i in s ==> i < length
    ensures forall k :: k in Remaining(ask, Wrapped(Plain(f)), length, s, map[]) <==> k in s && !Passes(ask, s, Some(f), k)
  {
    var sm := Wrapped(Plain(f));
    var ix := Indices(ask, s, Some(f), length);
    var chosen := Chosen(ask, sm, ix, s);
    MatchedAll(ix, s, None);
    assert chosen == AfterPost(ask, None, Matched(None, |ix|, Packed(s, ix)));
    forall i | i in s ensures i in Unpacked(ix, chosen.Keys) <==> Passes(ask, s, Some(f), i) {
      if Passes(ask, s, Some(f), i) {
        var k :| 0 <= k < |ix| && ix[k] == i;
        assert k in chosen.Keys;
      }
    }
  }

  /** Runs the postFilter on the matched elements and moves those that fail back. */
  method ApplyPost(ask: Answers, p: PostFilter, matcherIn: Slots, matcherOut: Slots)
    requires matcherIn.Valid() && matcherOut.Valid()
    modifies matcherIn, matcherOut
    ensures matcherIn.Valid() && matcherOut.Valid()
    ensures matcherOut.at == Restrict(old(matcherOut.at), Kept(ask, p, old(matcherOut.at)))
    ensures matcherIn != matcherOut ==>
              matcherIn.at == old(matcherIn.at) + (old(matcherOut.at) - Kept(ask, p, old(matcherOut.at)))
    decreases Depth(Wrapped(p)), 2
  {
    var temp, postMap := Condense(ask, matcherOut, None);
    var passed := new Slots();
    FailedIndices(ask, p, matcherOut.at, matcherOut.length);
    Apply(ask, Wrapped(p), temp, passed);
    MoveBack(temp, postMap, matcherIn, matcherOut, Kept(ask, p, matcherOut.at));
  }

  /** Un-matches failing elements by moving them back to matcherIn. */
  method MoveBack(temp: Slots, postMap: seq<nat>, matcherIn: Slots, matcherOut: Slots, ghost kept: set<nat>)
    requires matcherIn.Valid() && matcherOut.Valid() && temp != matcherIn && temp != matcherOut
    requires Splits(matcherOut.at, postMap, temp.at, kept)
    requires forall j :: j in matcherOut.at ==> j in postMap
    requires forall j, k :: 0 <= j < k < |postMap| ==> postMap[j] < postMap[k]
    modifies matcherIn, matcherOut
    ensures matcherIn.Valid() && matcherOut.Valid()
    ensures matcherOut.at == Restrict(old(matcherOut.at), kept)
    ensures matcherIn != matcherOut ==> matcherIn.at == old(matcherIn.at) + (old(matcherOut.at) - kept)
  {
    ghost var was, all := matcherIn.at, matcherOut.at;
    var failed, i := temp.at, |postMap|;
    ghost var back: set<nat> := {};
    while i > 0
      invariant 0 <= i <= |postMap|
      invariant matcherIn.Valid() && matcherOut.Valid()
      invariant forall j :: j in back ==> j in all && j !in kept
      invariant forall k :: i <= k < |postMap| && k in failed ==> postMap[k] in back
      invariant forall k :: 0 <= k < i ==> postMap[k] !in back
      invariant matcherOut.at == all - back
      invariant matcherIn != matcherOut ==> matcherIn.at == was + Restrict(all, back)
    {
      i := i - 1;
      if i in failed {
        var j := postMap[i];
        assert j in matcherOut.at;
        PutBack(was, all, back, j);
        matcherIn.Put(j, failed[i]);
        matcherOut.Unset(j);
        back := back + {j};
      }
    }
    BackIsRest(all, back, kept);
  }

  lemma BackIsRest(all: map<nat, Node>, back: set<nat>, kept: set<nat>)
    requires forall j :: j in back <==> j in all && j !in kept
    ensures all - back == Restrict(all, kept) && Restrict(all, back) == all - kept
  {
  }

  lemma PutBack(was: map<nat, Node>, all: map<nat, Node>, back: set<nat>, j: nat)
    requires j in all
    ensures (was + Restrict(all, back))[j := all[j]] == was + Restrict(all, back + {j})
    ensures all - back - {j} == all - (back + {j})
    ensures (all - back)[j := all[j]] - {j} == all - (back + {j})
  {
  }

  /** A seeded call of what `setMatcher` returns. */
  method Apply(ask: Answers, sm: SetMatcher, seed: Slots, results: Slots)
    requires seed.Valid() && results.Valid() && seed != results && seed.at.Keys !! results.at.Keys
    modifies seed, results
    ensures seed.Valid() && results.Valid()
    ensures seed.at == Remaining(ask, sm, old(seed.length), old(seed.at), old(results.at))
    ensures results.at == Outcome(ask, sm, old(seed.length), old(seed.at), old(results.at))
    ensures Built(sm) || sm.pre.Some? || sm.matcher.Some? || sm.post.None? ==>
              Conserved(old(seed.at), old(results.at), seed.at, results.at)
    decreases Depth(sm), 1
  {
    ConservedIff(ask, sm, seed.length, seed.at, results.at);
    if sm.pre.Some? {
      ApplyFiltered(ask, sm, seed, results);
    } else {
      ApplyDirect(ask, sm, seed, results);
    }
  }

  /** Without a preFilter, matcherIn is the seed itself, and matcherOut the results (or, when there is
      no matcher either, the seed once more). */
  method ApplyDirect(ask: Answers, sm: SetMatcher, seed: Slots, results: Slots)
    requires sm.pre.None?
    requires seed.Valid() && results.Valid() && seed != results && seed.at.Keys !! results.at.Keys
    modifies seed, results
    ensures seed.Valid() && results.Valid()
    ensures seed.at == Remaining(ask, sm, old(seed.length), old(seed.at), old(results.at))
    ensures results.at == Outcome(ask, sm, old(seed.length), old(seed.at), old(results.at))
    decreases Depth(sm), 0
  {
    ghost var s, r, hit := seed.at, results.at, HitKeys(sm.matcher, seed.length, seed.at);
    var matcherOut := if sm.matcher.Some? then results else seed;
    if sm.matcher.Some? {
      ApplyPosition(sm.matcher.value, seed, matcherOut);
    }
    ghost var all := matcherOut.at;
    if sm.post.Some? {
      ApplyPost(ask, sm.post.value, seed, matcherOut);
    }
    DirectRest(s, r, hit, if sm.post.Some? then Some(Kept(ask, sm.post.value, all)) else None);
    if sm.matcher.Some? {
      assert results.at == AfterPost(ask, sm.post, all);
    } else {
      assert seed.at == AfterPost(ask, sm.post, s);
    }
  }

  /** With a preFilter, the work is done on packed copies and carried over at the end. */
  method ApplyFiltered(ask: Answers, sm: SetMatcher, seed: Slots, results: Slots)
    requires sm.pre.Some?
    requires seed.Valid() && results.Valid() && seed != results && seed.at.Keys !! results.at.Keys
    modifies seed, results
    ensures seed.Valid() && results.Valid()
    ensures seed.at == Remaining(ask, sm, old(seed.length), old(seed.at), old(results.at))
    ensures results.at == Outcome(ask, sm, old(seed.length), old(seed.at), old(results.at))
    decreases Depth(sm), 0
  {
    ghost var s, r := seed.at, results.at;
    var matcherIn, preMap, matcherOut := PrimaryMatches(ask, sm, seed);
    ghost var primary := matcherOut.at;
    if sm.post.Some? {
      ApplyPost(ask, sm.post.value, matcherIn, matcherOut);
    }
    assert matcherOut.at == AfterPost(ask, sm.post, primary);
    ChosenWithin(ask, sm, preMap, s);
    assert seed.at == s && results.at == r;
    FilteredOutcome(ask, sm, seed.length, s, r);
    MoveChosen(preMap, matcherOut, seed, results);
  }

  /** The packed copy of what passes the preFilter, and the matches found in it. */
  method PrimaryMatches(ask: Answers, sm: SetMatcher, seed: Slots)
    returns (matcherIn: Slots, preMap: seq<nat>, matcherOut: Slots)
    requires sm.pre.Some? && seed.Valid()
    ensures fresh(matcherIn) && fresh(matcherOut) && matcherIn.Valid() && matcherOut.Valid()
    ensures preMap == Indices(ask, seed.at, sm.pre, seed.length)
    ensures matcherOut.at == Matched(sm.matcher, |preMap|, Packed(seed.at, preMap))
  {
    matcherIn, preMap := Condense(ask, seed, sm.pre);
    MatchedAll(preMap, seed.at, sm.matcher);
    matcherOut := matcherIn;
    if sm.matcher.Some? {
      matcherOut := new Slots();
      ApplyPosition(sm.matcher.value, matcherIn, matcherOut);
    }
  }

  lemma MatchedAll(ix: seq<nat>, s: map<nat, Node>, m: Option<Position>)
    requires forall k :: 0 <= k < |ix| ==> ix[k] in s
    ensures m.None? ==> Matched(m, |ix|, Packed(s, ix)) == Packed(s, ix)
    ensures map[] + Matched(m, |ix|, Packed(s, ix)) == Matched(m, |ix|, Packed(s, ix))
  {
  }

  lemma ChosenWithin(ask: Answers, sm: SetMatcher, ix: seq<nat>, s: map<nat, Node>)
    requires forall k :: 0 <= k < |ix| ==> ix[k] in s
    ensures forall k :: k in Chosen(ask, sm, ix, s) ==> k < |ix| && Chosen(ask, sm, ix, s)[k] == s[ix[k]]
  {
  }

  lemma FilteredOutcome(ask: Answers, sm: SetMatcher, length: nat, s: map<nat, Node>, r: map<nat, Node>)
    requires sm.pre.Some? && s.Keys !! r.Keys
    ensures var ix := Indices(ask, s, sm.pre, length);
            var moved := Unpacked(ix, Chosen(ask, sm, ix, s).Keys);
            && Outcome(ask, sm, length, s, r) == r + Restrict(s, moved)
            && Remaining(ask, sm, length, s, r) == s - moved
  {
    var ix := Indices(ask, s, sm.pre, length);
    FilteredRest(s, r, Unpacked(ix, Chosen(ask, sm, ix, s).Keys));
  }

  lemma FilteredRest(s: map<nat, Node>, r: map<nat, Node>, moved: set<nat>)
    requires s.Keys !! r.Keys
    ensures s - moved == (s + r) - (r + Restrict(s, moved)).Keys
  {
  }

  lemma DirectRest(s: map<nat, Node>, r: map<nat, Node>, hit: set<nat>, kept: Option<set<nat>>)
    requires s.Keys !! r.Keys
    ensures var all := r + Restrict(s, hit);
            match kept
            case None => s - hit == (s + r) - all.Keys
            case Some(keys) => (s - hit) + (all - keys) == (s + r) - Restrict(all, keys).Keys
  {
  }

  /** Moves matched elements from seed to results to keep them synchronized. */
  method MoveChosen(preMap: seq<nat>, matcherOut: Slots, seed: Slots, results: Slots)
    requires matcherOut.Valid() && seed.Valid() && results.Valid()
    requires seed != results && seed != matcherOut && results != matcherOut
    requires forall j, k :: 0 <= j < k < |preMap| ==> preMap[j] < preMap[k]
    requires forall i :: i in matcherOut.at ==> i < |preMap| && preMap[i] in seed.at && seed.at[preMap[i]] == matcherOut.at[i]
    modifies seed, results
    ensures seed.Valid() && results.Valid()
    ensures seed.at == old(seed.at) - Unpacked(preMap, matcherOut.at.Keys)
    ensures results.at == old(results.at) + Restrict(old(seed.at), Unpacked(preMap, matcherOut.at.Keys))
  {
    ghost var s, r := seed.at, results.at;
    ghost var moved: set<nat> := {};
    var out, i := matcherOut.at, matcherOut.length;
    while i > 0
      invariant 0 <= i <= matcherOut.length && matcherOut.at == out
      invariant seed.Valid() && results.Valid()
      invariant forall j :: j in moved ==> exists k :: i <= k < |preMap| && k in out && preMap[k] == j
      invariant forall k :: i <= k && k in out ==> preMap[k] in moved
      invariant moved <= s.Keys
      invariant seed.at == s - moved && results.at == r + Restrict(s, moved)
    {
      i := i - 1;
      if i in out {
        var j := preMap[i];
        assert forall k :: i < k < |preMap| ==> preMap[k] != j;
        MoveOne(s, r, moved, j);
        assert j !in moved && j in seed.at;
        results.Put(j, out[i]);
        seed.Unset(j);
        moved := moved + {j};
      }
    }
    assert moved == Unpacked(preMap, out.Keys);
  }
}
