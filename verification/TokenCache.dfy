/** `tokenize` with its bounded cache, and the part of `select` that edits the tokens it gets. The
    groups are arrays of arrays, shared between the cache and its users. */
module TokenCache {
  import opened Dom
  import opened Tokens
  import opened BoundedCache

  /** A group: an array of tokens. */
  class TokenList {
    var tokens: seq<Token>

    constructor (tokens: seq<Token>)
      ensures this.tokens == tokens
    {
      this.tokens := tokens;
    }
  }

  /** An array of groups. */
  class Groups {
    var lists: seq<TokenList>

    constructor (lists: seq<TokenList>)
      ensures this.lists == lists
    {
      this.lists := lists;
    }

    ghost function Content(): (c: seq<seq<Token>>)
      reads this, lists
      ensures |c| == |lists|
    {
      seq(|lists|, i requires 0 <= i < |lists| reads this, lists => lists[i].tokens)
    }

    ghost predicate Within(objects: set<object>)
      reads this
    {
      this in objects && forall i :: 0 <= i < |lists| ==> lists[i] in objects
    }

    ghost predicate Holds(groups: Option<seq<seq<Token>>>)
      reads this, lists
    {
      groups == Some(Content())
    }

    /** `slice( 0 )`: a new array of the same groups */
    method Slice() returns (g: Groups)
      ensures fresh(g) && g.lists == lists && g.Content() == Content()
    {
      g := new Groups(lists);
    }
  }

  /** Builds the arrays. */
  method Materialize(groups: seq<seq<Token>>) returns (g: Groups)
    ensures fresh(g) && fresh(g.lists) && g.Content() == groups
  {
    var lists: seq<TokenList> := [];
    var i := 0;
    while i < |groups|
      invariant 0 <= i == |lists| <= |groups|
      invariant fresh(lists) && forall k :: 0 <= k < i ==> lists[k].tokens == groups[k]
    {
      var list := new TokenList(groups[i]);
      lists := lists + [list];
      i := i + 1;
    }
    g := new Groups(lists);
  }

  class Tokenizer {
    const lex: Lexer
    const cache: Cache<string, Groups>
    /** the arrays that the cache holds */
    ghost var owned: set<object>

    /** An entry is what tokenizing its key afresh gives. */
    ghost predicate EntryOk(k: string)
      requires k in cache.stored
      reads this, cache, owned
    {
      cache.stored[k] in owned && cache.stored[k].Within(owned) && cache.stored[k].Holds(Fresh(lex, k))
    }

    ghost predicate Valid()
      reads this, cache, owned
    {
      cache.Valid() && forall k :: k in cache.stored ==> EntryOk(k)
    }

    constructor (lex: Lexer, cacheLength: nat)
      ensures this.lex == lex && fresh(cache) && cache.cacheLength == cacheLength
      ensures cache.stored == map[] && owned == {} && Valid()
    {
      this.lex, owned := lex, {};
      cache := new Cache<string, Groups>(cacheLength);
    }

    /** Stores what tokenizing `key` gave. */
    method Remember(key: string, value: Groups)
      requires Valid() && key !in cache.stored && Fresh(lex, key) == Some(value.Content())
      modifies this, cache
      ensures Valid() && owned == old(owned) + {value} + set i | 0 <= i < |value.lists| :: value.lists[i]
    {
      ghost var was := cache.stored;
      assert value.Holds(Fresh(lex, key));
      EvictedIsOld(cache.stored, cache.keys, cache.cacheLength, key, value);
      cache.Store(key, value);
      owned := owned + {value} + set i | 0 <= i < |value.lists| :: value.lists[i];
      forall k | k in cache.stored ensures EntryOk(k) {
        if k != key {
          assert old(EntryOk(k)) && was[k] == cache.stored[k];
          assert was[k].Within(old(owned)) && was[k].Holds(Fresh(lex, k));
        }
      }
    }

    /** `tokenize( s, true )`: how much is left over, or None for an error. */
    method ParseOnly(s: string) returns (r: Option<nat>)
      requires Valid()
      ensures r == Excess(lex, s)
      decreases |s|, 3
    {
      if s in cache.stored {
        assert EntryOk(s);
        return Some(0);
      }
      var scan := RunLoop(s);
      r := if scan.Failed? then None else Some(|scan.rest|);
    }

    /** The loop of `tokenize`. */
    method RunLoop(s: string) returns (r: Scan)
      requires Valid()
      ensures r == ScanFrom(lex, s, [], [])
      decreases |s|, 2
    {
      var soFar, groups, commas := s, [], [];
      while soFar != ""
        invariant |soFar| <= |s|
        invariant ScanFrom(lex, soFar, groups, commas) == ScanFrom(lex, s, [], [])
        decreases |soFar|
      {
        var n := lex.comma(soFar);
        if groups == [] || IsMatch(n, soFar) {
          if groups != [] {
            commas := commas + [if n == |soFar| then "" else soFar[..n]];
            soFar := if n == |soFar| then soFar else soFar[n..];
          }
          groups := groups + [[]];
        }
        var pass := PassOver(soFar);
        if pass.Thrown? { return Failed; }
        var tokens, rest := pass.tokens, pass.rest;
        if tokens == [] {
          return Scan(groups, commas, soFar);
        }
        groups := WithLast(groups, tokens);
        soFar := rest;
      }
      r := Scan(groups, commas, soFar);
    }

    /** One pass: a combinator if there is one, then the filter types in turn. */
    method PassOver(soFar: string) returns (r: Pass)
      requires Valid()
      ensures r == OnePass(lex, soFar)
      decreases |soFar|, 1
    {
      var tokens, rest := [], soFar;
      var (m, c) := lex.combinator(soFar);
      if IsMatch(m, soFar) {
        tokens, rest := [Token(soFar[..m], Relative(c))], soFar[m..];
      }
      var i := 0;
      while i < |TYPES|
        invariant 0 <= i <= |TYPES| && |rest| <= |soFar|
        invariant FilterPass(lex, TYPES[i..], rest, tokens) == OnePass(lex, soFar)
      {
        var taken := Prefiltered(TYPES[i], rest);
        match taken {
          case Throw => return Thrown;
          case Miss =>
          case Take(k) =>
            tokens, rest := tokens + [Token(rest[..k], Filter(TYPES[i]))], rest[k..];
        }
        i := i + 1;
      }
      r := Took(tokens, rest);
    }

    /** A filter expression and its prefilter; the PSEUDO prefilter tokenizes the argument, which is shorter. */
    method Prefiltered(t: FilterType, s: string) returns (r: Taken)
      requires Valid()
      ensures r == FilterTakes(lex, t, s)
      decreases |s|, 0
    {
      var c := lex.filter(t, s);
      if !IsMatch(c.len, s) { return Miss; }
      if t == CHILD { return if c.wrong then Throw else Take(c.len); }
      if t != PSEUDO { return Take(c.len); }
      if c.isChild { return Miss; }
      if c.loose && 0 < c.start < c.len {
        var unquoted := s[c.start..c.len-1];
        var excess := ParseOnly(unquoted);
        if excess.None? { return Throw; }
        if excess.value != 0 {
          var i := IndexOf(unquoted, ')', |unquoted| - excess.value);
          return Take(c.len + i - |unquoted|);
        }
      }
      r := Take(c.len);
    }

    /** `tokenize( s )`: the groups in a new array, or None for an error. */
    method Tokenize(s: string) returns (r: Option<Groups>)
      requires Valid()
      modifies this, cache
      ensures Valid() && fresh(owned - old(owned))
      ensures r.Some? <==> Fresh(lex, s).Some?
      ensures r.Some? ==> fresh(r.value) && r.value !in owned && r.value.Content() == Fresh(lex, s).value
    {
      if s in cache.stored {
        assert EntryOk(s);
        var g := cache.stored[s].Slice();
        return Some(g);
      }
      var scan := RunLoop(s);
      if scan.Failed? || scan.rest != "" { return None; }
      var groups := Materialize(scan.groups);
      Remember(s, groups);
      var g := groups.Slice();
      r := Some(g);
    }

    /** What `select` does to the tokens: with a single group it copies the group, may shift a leading ID
        off it (`rootId`), and may splice out the token that served to find the seed (`find`, an index
        from the front). It returns the selector and the groups it hands to the compiler, which fit
        together; what the cache holds is as it was. */
    method EditForSelect(s: string, rootId: bool, find: Option<nat>) returns (r: Option<(string, Groups)>)
      requires Valid()
      modifies this, cache
      ensures Valid() && fresh(owned - old(owned))
      ensures r.Some? <==> Fresh(lex, s).Some?
      ensures r.Some? ==> fresh(r.value.1) && r.value.1 !in owned
      ensures r.Some? && |Fresh(lex, s).value| != 1 ==> r.value.0 == s && r.value.1.Content() == Fresh(lex, s).value
      ensures r.Some? && |Fresh(lex, s).value| == 1 ==>
                |r.value.1.lists| == 1 && r.value.1.lists[0] !in owned
                && r.value.1.lists[0].tokens == Edited(Fresh(lex, s).value[0], rootId, find)
                && r.value.0 == ToSelector(r.value.1.lists[0].tokens)
    {
      var matched := Tokenize(s);
      if matched.None? { return None; }
      var m := matched.value;
      var selector := s;
      if |m.lists| == 1 {
        RoundTrip(lex, s);
        assert m.lists[0].tokens == m.Content()[0];
        selector, m.lists := EditGroup(s, m.lists[0], rootId, find);
      }
      r := Some((selector, m));
    }
  }

  /** The tokens left: a leading ID followed by a combinator may go, then the token at index `find`. */
  function Edited(tokens: seq<Token>, rootId: bool, find: Option<nat>): seq<Token> {
    var rest := if rootId && |tokens| > 2 && tokens[0].kind == Filter(ID) && tokens[1].kind.Relative?
                then tokens[1..] else tokens;
    if find.Some? && find.value < |rest| then rest[..find.value] + rest[find.value+1..] else rest
  }

  /** What is left: all tokens but a leading ID before a combinator, if it served as context, and the one that served as
      seed, counted after that. */
  lemma EditedMeans(tokens: seq<Token>, rootId: bool, find: Option<nat>)
    ensures var shifted := rootId && |tokens| > 2 && tokens[0].kind == Filter(ID) && tokens[1].kind.Relative?;
            var shift := if shifted then 1 else 0;
            var found := find.Some? && shift + find.value < |tokens|;
            var now := Edited(tokens, rootId, find);
            && |now| == |tokens| - shift - (if found then 1 else 0)
            && forall i :: 0 <= i < |now| ==>
                 now[i] == tokens[i + shift + if found && i >= find.value then 1 else 0]
  {
    var shift := if rootId && |tokens| > 2 && tokens[0].kind == Filter(ID) && tokens[1].kind.Relative? then 1 else 0;
    var rest := tokens[shift..];
    assert rest == if shift == 1 then tokens[1..] else tokens;
    if find.Some? && find.value < |rest| { WithoutIndex(rest, find.value); }
  }

  lemma WithoutIndex(tokens: seq<Token>, k: nat)
    requires k < |tokens|
    ensures var now := tokens[..k] + tokens[k+1..];
            |now| == |tokens| - 1 && forall i :: 0 <= i < |now| ==> now[i] == tokens[i + if i >= k then 1 else 0]
  {
  }

  /** The edits, on a copy of the group. */
  method EditGroup(s: string, group: TokenList, rootId: bool, find: Option<nat>)
    returns (selector: string, lists: seq<TokenList>)
    requires s == ToSelector(group.tokens)
    ensures |lists| == 1 && fresh(lists[0]) && lists[0].tokens == Edited(group.tokens, rootId, find)
    ensures selector == ToSelector(lists[0].tokens)
  {
    selector := s;
    var copy := new TokenList(group.tokens);
    if rootId && |copy.tokens| > 2 && copy.tokens[0].kind == Filter(ID) && copy.tokens[1].kind.Relative? {
      DropFirst(copy.tokens);
      selector := selector[|copy.tokens[0].value|..];
      copy.tokens := copy.tokens[1..];
    }
    if find.Some? && find.value < |copy.tokens| {
      copy.tokens := copy.tokens[..find.value] + copy.tokens[find.value+1..];
      selector := WriteOut(copy.tokens);
    }
    lists := [copy];
  }

  /** `toSelector` */
  method WriteOut(tokens: seq<Token>) returns (selector: string)
    ensures selector == ToSelector(tokens)
  {
    selector := "";
    var i := 0;
    while i < |tokens|
      invariant 0 <= i <= |tokens| && selector == ToSelector(tokens[..i])
    {
      assert tokens[..i+1][..i] == tokens[..i];
      selector := selector + tokens[i].value;
      i := i + 1;
    }
    assert tokens[..i] == tokens;
  }

  lemma DropFirst(tokens: seq<Token>)
    requires tokens != []
    ensures tokens[0].value <= ToSelector(tokens) && ToSelector(tokens)[|tokens[0].value|..] == ToSelector(tokens[1..])
  {
    assert tokens == [tokens[0]] + tokens[1..];
    ToSelectorAppend([tokens[0]], tokens[1..]);
    assert [tokens[0]][..0] == [];
    assert ToSelector([tokens[0]]) == tokens[0].value;
  }
}
