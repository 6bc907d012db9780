/** What `tokenize` does to a selector, as a function. The token expressions are abstract: each says how
    long a prefix it matches, if any. */
module Tokens {
  import opened Dom

  datatype FilterType = TAG | CLASS | ATTR | CHILD | PSEUDO | ID

  /** The enumeration order of `Expr.filter`. */
  const TYPES := [TAG, CLASS, ATTR, CHILD, PSEUDO, ID]

  datatype Kind = Relative(combinator: char) | Filter(filter: FilterType)

  datatype Token = Token(value: string, kind: Kind)

  /** What a filter expression captures. For CHILD, `wrong` says that the prefilter finds the argument
      missing or misplaced. For PSEUDO, `isChild` says that the CHILD expression accepts the text too, and
      `loose` that the argument is unquoted and contains a pseudo itself; the argument is
      the text from `start` up to the closing parenthesis at the end. */
  datatype Capture = Capture(len: nat, wrong: bool, isChild: bool, loose: bool, start: nat)

  datatype Lexer = Lexer(comma: string -> nat, combinator: string -> (nat, char), filter: (FilterType, string) -> Capture)

  /** A match is a non-empty prefix. */
  predicate IsMatch(n: nat, s: string) {
    0 < n <= |s|
  }

  /** `s.indexOf( c, from )` */
  function IndexOf(s: string, c: char, from: nat): (i: int)
    ensures -1 <= i < |s| && (i >= 0 ==> from <= i && s[i] == c)
    ensures forall k :: from <= k < |s| && (i < 0 || k < i) ==> s[k] != c
    decreases |s| - from
  {
    if from >= |s| then -1 else if s[from] == c then from else IndexOf(s, c, from + 1)
  }

  datatype Taken = Miss | Throw | Take(n: nat)

  datatype Pass = Thrown | Took(tokens: seq<Token>, rest: string)

  /** The state in which scanning stops; `commas` lists the separators consumed between groups. */
  datatype Scan = Failed | Scan(groups: seq<seq<Token>>, commas: seq<string>, rest: string)

  /** How much of `s` a filter type takes, after its prefilter. An argument that runs too far is cut at the
      first closing parenthesis that tokenizing it leaves over. */
  function FilterTakes(lex: Lexer, t: FilterType, s: string): (r: Taken)
    ensures r.Take? ==> IsMatch(r.n, s)
    decreases |s|, 0
  {
    var c := lex.filter(t, s);
    if !IsMatch(c.len, s) then Miss
    else if t == CHILD then (if c.wrong then Throw else Take(c.len))
    else if t != PSEUDO then Take(c.len)
    else if c.isChild then Miss
    else if !(c.loose && 0 < c.start < c.len) then Take(c.len)
    else
      var unquoted := s[c.start..c.len-1];
      match Excess(lex, unquoted)
      case None => Throw
      case Some(0) => Take(c.len)
      case Some(excess) =>
        Take(c.len + IndexOf(unquoted, ')', |unquoted| - excess) - |unquoted|)
  }

  function FilterPass(lex: Lexer, types: seq<FilterType>, s: string, tokens: seq<Token>): (r: Pass)
    ensures r.Took? ==> |r.rest| <= |s| && |tokens| <= |r.tokens| && (|r.tokens| > |tokens| ==> |r.rest| < |s|)
    decreases |s|, 1, |types|
  {
    if types == [] then Took(tokens, s) else
    match FilterTakes(lex, types[0], s)
    case Miss => FilterPass(lex, types[1..], s, tokens)
    case Throw => Thrown
    case Take(n) => FilterPass(lex, types[1..], s[n..], tokens + [Token(s[..n], Filter(types[0]))])
  }

  /** One pass of the loop: at most one combinator, then every filter type in turn. */
  function OnePass(lex: Lexer, s: string): (r: Pass)
    ensures r.Took? ==> |r.rest| <= |s| && (r.tokens != [] ==> |r.rest| < |s|)
    decreases |s|, 2
  {
    var (n, c) := lex.combinator(s);
    if IsMatch(n, s) then FilterPass(lex, TYPES, s[n..], [Token(s[..n], Relative(c))])
    else FilterPass(lex, TYPES, s, [])
  }

  /** The comma step: the text consumed, which is empty when nothing would follow the comma. */
  function CommaStep(lex: Lexer, s: string): (r: Option<string>)
    ensures r.Some? ==> r.value <= s
  {
    var n := lex.comma(s);
    if !IsMatch(n, s) then None else if n == |s| then Some("") else Some(s[..n])
  }

  function WithLast(groups: seq<seq<Token>>, tokens: seq<Token>): seq<seq<Token>>
    requires groups != []
  {
    groups[..|groups|-1] + [groups[|groups|-1] + tokens]
  }

  datatype Cursor = Cursor(rest: string, groups: seq<seq<Token>>, commas: seq<string>)

  /** The first pass, and every comma, opens a group. */
  function OpenGroup(lex: Lexer, s: string, groups: seq<seq<Token>>, commas: seq<string>): (r: Cursor)
    ensures |r.rest| <= |s| && r.groups != []
  {
    if groups == [] then Cursor(s, [[]], commas) else
    match CommaStep(lex, s)
    case None => Cursor(s, groups, commas)
    case Some(comma) => Cursor(s[|comma|..], groups + [[]], commas + [comma])
  }

  function ScanFrom(lex: Lexer, s: string, groups: seq<seq<Token>>, commas: seq<string>): (r: Scan)
    ensures r.Scan? ==> |r.rest| <= |s|
    decreases |s|, 3
  {
    if s == "" then Scan(groups, commas, s) else
    var cur := OpenGroup(lex, s, groups, commas);
    match OnePass(lex, cur.rest)
    case Thrown => Failed
    case Took(tokens, rest) =>
      if tokens == [] then Scan(cur.groups, cur.commas, cur.rest)
      else ScanFrom(lex, rest, WithLast(cur.groups, tokens), cur.commas)
  }

  /** `tokenize( s, true )`: the length of the invalid excess, or None for a thrown error. */
  function Excess(lex: Lexer, s: string): (r: Option<nat>)
    ensures r.Some? ==> r.value <= |s|
    decreases |s|, 4
  {
    match ScanFrom(lex, s, [], [])
    case Failed => None
    case Scan(_, _, rest) => Some(|rest|)
  }

  /** `tokenize( s )`: the groups, or None for a thrown error. */
  function Fresh(lex: Lexer, s: string): Option<seq<seq<Token>>> {
    match ScanFrom(lex, s, [], [])
    case Failed => None
    case Scan(groups, _, rest) => if rest == "" then Some(groups) else None
  }

  // ---- Round trip ----

  function ToSelector(tokens: seq<Token>): string {
    if tokens == [] then "" else ToSelector(tokens[..|tokens|-1]) + tokens[|tokens|-1].value
  }

  /** The texts of the groups with the consumed commas between them. */
  function Text(groups: seq<seq<Token>>, commas: seq<string>): string
    requires |commas| + 1 == |groups| || (groups == [] && commas == [])
  {
    if groups == [] then ""
    else if |groups| == 1 then ToSelector(groups[0])
    else Text(groups[..|groups|-1], commas[..|commas|-1]) + commas[|commas|-1] + ToSelector(groups[|groups|-1])
  }

  lemma {:induction false} ToSelectorAppend(a: seq<Token>, b: seq<Token>)
    ensures ToSelector(a + b) == ToSelector(a) + ToSelector(b)
    decreases |b|
  {
    if b == [] {
      assert a + b == a;
    } else {
      var front, last := b[..|b|-1], b[|b|-1].value;
      ToSelectorAppend(a, front);
      assert (a + b)[..|a+b|-1] == a + front;
      assert ToSelector(a) + ToSelector(front) + last == ToSelector(a) + (ToSelector(front) + last);
    }
  }

  lemma {:induction false} FilterPassText(lex: Lexer, types: seq<FilterType>, s: string, tokens: seq<Token>)
    requires FilterPass(lex, types, s, tokens).Took?
    ensures var r := FilterPass(lex, types, s, tokens);
            ToSelector(tokens) + s == ToSelector(r.tokens) + r.rest
    decreases |types|
  {
    if types != [] {
      match FilterTakes(lex, types[0], s) {
        case Miss => FilterPassText(lex, types[1..], s, tokens);
        case Throw =>
        case Take(n) =>
          var token := Token(s[..n], Filter(types[0]));
          FilterPassText(lex, types[1..], s[n..], tokens + [token]);
          assert (tokens + [token])[..|tokens|] == tokens;
          assert ToSelector(tokens + [token]) + s[n..] == ToSelector(tokens) + (s[..n] + s[n..]);
      }
    }
  }

  lemma OnePassText(lex: Lexer, s: string)
    requires OnePass(lex, s).Took?
    ensures s == ToSelector(OnePass(lex, s).tokens) + OnePass(lex, s).rest
  {
    var (n, c) := lex.combinator(s);
    if IsMatch(n, s) {
      var token := Token(s[..n], Relative(c));
      FilterPassText(lex, TYPES, s[n..], [token]);
      assert [token][..0] == [];
      assert ToSelector([token]) == s[..n];
    } else {
      FilterPassText(lex, TYPES, s, []);
    }
  }

  predicate Matching(groups: seq<seq<Token>>, commas: seq<string>) {
    |commas| + 1 == |groups| || (groups == [] && commas == [])
  }

  lemma TextNewGroup(groups: seq<seq<Token>>, commas: seq<string>, comma: string)
    requires groups != [] && Matching(groups, commas)
    ensures Text(groups + [[]], commas + [comma]) == Text(groups, commas) + comma
  {
    var groups', commas' := groups + [[]], commas + [comma];
    assert groups'[..|groups|] == groups && commas'[..|commas|] == commas;
  }

  lemma TextWithLast(groups: seq<seq<Token>>, commas: seq<string>, tokens: seq<Token>)
    requires groups != [] && Matching(groups, commas)
    ensures Text(WithLast(groups, tokens), commas) == Text(groups, commas) + ToSelector(tokens)
  {
    var last := groups[|groups|-1];
    ToSelectorAppend(last, tokens);
    if |groups| > 1 {
      var before := Text(groups[..|groups|-1], commas[..|commas|-1]) + commas[|commas|-1];
      assert WithLast(groups, tokens)[..|groups|-1] == groups[..|groups|-1];
      assert before + (ToSelector(last) + ToSelector(tokens)) == before + ToSelector(last) + ToSelector(tokens);
    }
  }

  /** Text taken off the front of the rest goes behind what was read before. */
  lemma TakenOff(before: string, s: string, n: nat)
    requires n <= |s|
    ensures before + s == before + s[..n] + s[n..]
  {
    assert s == s[..n] + s[n..];
  }

  /** Opening a group, with or without a comma, moves no text. */
  lemma OpenGroupText(lex: Lexer, s: string, groups: seq<seq<Token>>, commas: seq<string>)
    requires Matching(groups, commas)
    ensures var cur := OpenGroup(lex, s, groups, commas);
            Matching(cur.groups, cur.commas) && Text(groups, commas) + s == Text(cur.groups, cur.commas) + cur.rest
  {
    if groups != [] && CommaStep(lex, s).Some? {
      var comma := CommaStep(lex, s).value;
      TextNewGroup(groups, commas, comma);
      TakenOff(Text(groups, commas), s, |comma|);
    }
  }

  /** A pass moves its tokens from the rest to the last group. */
  lemma PassText(lex: Lexer, cur: Cursor)
    requires cur.groups != [] && Matching(cur.groups, cur.commas) && OnePass(lex, cur.rest).Took?
    ensures var p := OnePass(lex, cur.rest);
            Text(cur.groups, cur.commas) + cur.rest == Text(WithLast(cur.groups, p.tokens), cur.commas) + p.rest
  {
    var p, before := OnePass(lex, cur.rest), Text(cur.groups, cur.commas);
    OnePassText(lex, cur.rest);
    TextWithLast(cur.groups, cur.commas, p.tokens);
    assert before + (ToSelector(p.tokens) + p.rest) == before + ToSelector(p.tokens) + p.rest;
  }

  /** Nothing is lost: the texts of all groups, the commas between them and the unconsumed rest make up
      the selector again, wherever scanning stops. */
  lemma {:induction false} ScanText(lex: Lexer, s: string, groups: seq<seq<Token>>, commas: seq<string>)
    requires Matching(groups, commas) && ScanFrom(lex, s, groups, commas).Scan?
    ensures var r := ScanFrom(lex, s, groups, commas);
            Matching(r.groups, r.commas) && Text(groups, commas) + s == Text(r.groups, r.commas) + r.rest
    decreases |s|
  {
    if s != "" {
      var cur := OpenGroup(lex, s, groups, commas);
      OpenGroupText(lex, s, groups, commas);
      var p := OnePass(lex, cur.rest);
      if p.tokens != [] {
        PassText(lex, cur);
        ScanText(lex, p.rest, WithLast(cur.groups, p.tokens), cur.commas);
      }
    }
  }

  /** Tokenizing and writing out again gives the selector back: group texts, commas and the rest. */
  lemma ScanRoundTrip(lex: Lexer, s: string)
    requires ScanFrom(lex, s, [], []).Scan?
    ensures var r := ScanFrom(lex, s, [], []);
            Matching(r.groups, r.commas) && Text(r.groups, r.commas) + r.rest == s
  {
    ScanText(lex, s, [], []);
    assert Text([], []) + s == s;
  }

  /** A selector without a comma is its one group written out. */
  lemma RoundTrip(lex: Lexer, s: string)
    requires Fresh(lex, s).Some? && |Fresh(lex, s).value| == 1
    ensures ToSelector(Fresh(lex, s).value[0]) == s
  {
    ScanRoundTrip(lex, s);
    var r := ScanFrom(lex, s, [], []);
    assert r.groups == Fresh(lex, s).value && r.rest == "";
    assert Text(r.groups, r.commas) + "" == Text(r.groups, r.commas);
  }

  // ---- Every token is what its expression matched where it stands ----

  /** The token is what the expression of its kind matches at the front of `s`. */
  predicate Fits(lex: Lexer, s: string, token: Token) {
    && token.value <= s
    && match token.kind
       case Relative(c) => lex.combinator(s) == (|token.value|, c) && IsMatch(|token.value|, s)
       case Filter(t) => FilterTakes(lex, t, s) == Take(|token.value|)
  }

  /** So are these tokens, one after the other. */
  predicate AllFit(lex: Lexer, s: string, tokens: seq<Token>) {
    tokens == [] || (Fits(lex, s, tokens[0]) && AllFit(lex, s[|tokens[0].value|..], tokens[1..]))
  }

  lemma ToSelectorFirst(tokens: seq<Token>)
    requires tokens != []
    ensures ToSelector(tokens) == tokens[0].value + ToSelector(tokens[1..])
  {
    assert tokens == [tokens[0]] + tokens[1..];
    ToSelectorAppend([tokens[0]], tokens[1..]);
    assert [tokens[0]][..0] == [] && ToSelector([tokens[0]]) == tokens[0].value;
  }

  lemma BehindOne(a: string, b: string, c: string)
    ensures (a + b + c)[|a|..] == b + c
  {
    assert a + b + c == a + (b + c);
  }

  lemma {:induction false} AllFitAppend(lex: Lexer, s: string, a: seq<Token>, b: seq<Token>, rest: string)
    requires AllFit(lex, s, a) && s == ToSelector(a) + rest && AllFit(lex, rest, b)
    ensures AllFit(lex, s, a + b)
    decreases |a|
  {
    if a == [] {
      assert a + b == b && s == rest;
    } else {
      var n := |a[0].value|;
      assert s[n..] == ToSelector(a[1..]) + rest by {
        ToSelectorFirst(a);
        BehindOne(a[0].value, ToSelector(a[1..]), rest);
      }
      AllFitAppend(lex, s[n..], a[1..], b, rest);
      assert (a + b)[1..] == a[1..] + b;
    }
  }

  /** The filter types of the tokens occur in `types` in this order. */
  predicate InOrder(types: seq<FilterType>, tokens: seq<Token>) {
    tokens == [] || (types != [] &&
      if tokens[0].kind == Filter(types[0]) then InOrder(types[1..], tokens[1..]) else InOrder(types[1..], tokens))
  }

  lemma {:induction false} FilterPassFits(lex: Lexer, types: seq<FilterType>, s: string, tokens: seq<Token>)
    requires FilterPass(lex, types, s, tokens).Took?
    requires forall i, j :: 0 <= i < j < |types| ==> types[i] != types[j]
    ensures var r := FilterPass(lex, types, s, tokens);
            && tokens <= r.tokens && AllFit(lex, s, r.tokens[|tokens|..]) && InOrder(types, r.tokens[|tokens|..])
            && forall k :: |tokens| <= k < |r.tokens| ==> r.tokens[k].kind.Filter? && r.tokens[k].kind.filter in types
    decreases |types|
  {
    if types != [] {
      var r := FilterPass(lex, types, s, tokens);
      match FilterTakes(lex, types[0], s) {
        case Miss =>
          FilterPassFits(lex, types[1..], s, tokens);
          OtherTypes(types, r.tokens[|tokens|..]);
        case Throw =>
        case Take(n) =>
          var token := Token(s[..n], Filter(types[0]));
          FilterPassFits(lex, types[1..], s[n..], tokens + [token]);
          var more := r.tokens[|tokens|..];
          assert more[0] == token && more[1..] == r.tokens[|tokens|+1..];
      }
    }
  }

  lemma OtherTypes(types: seq<FilterType>, tokens: seq<Token>)
    requires types != [] && InOrder(types[1..], tokens)
    requires forall i, j :: 0 <= i < j < |types| ==> types[i] != types[j]
    requires forall k :: 0 <= k < |tokens| ==> tokens[k].kind.Filter? && tokens[k].kind.filter in types[1..]
    ensures InOrder(types, tokens)
  {
    if tokens != [] { assert tokens[0].kind != Filter(types[0]); }
  }

  /** A pass reads a combinator if and only if one stands there, then filters, each type at most once and in the order
      of the types; and every token is what its expression matched. */
  lemma OnePassFits(lex: Lexer, s: string)
    requires OnePass(lex, s).Took?
    ensures var tokens := OnePass(lex, s).tokens;
            && AllFit(lex, s, tokens)
            && (IsMatch(lex.combinator(s).0, s) <==> tokens != [] && tokens[0].kind.Relative?)
            && InOrder(TYPES, if tokens != [] && tokens[0].kind.Relative? then tokens[1..] else tokens)
            && forall k :: 1 <= k < |tokens| ==> tokens[k].kind.Filter?
  {
    var (n, c) := lex.combinator(s);
    if IsMatch(n, s) {
      FilterPassFits(lex, TYPES, s[n..], [Token(s[..n], Relative(c))]);
    } else {
      FilterPassFits(lex, TYPES, s, []);
    }
  }

  /** `comma` is what the comma step consumes at the front of `s`: the match, unless nothing would follow. */
  predicate CommaFits(lex: Lexer, s: string, comma: string) {
    var n := lex.comma(s);
    IsMatch(n, s) && comma == if n == |s| then "" else s[..n]
  }

  /** Between two groups stands a comma, and each group is read where it stands in `w`. */
  predicate GroupsFit(lex: Lexer, w: string, groups: seq<seq<Token>>, commas: seq<string>)
    requires Matching(groups, commas)
  {
    if groups == [] then true
    else if |groups| == 1 then AllFit(lex, w, groups[0])
    else
      var front, gone := groups[..|groups|-1], commas[..|commas|-1];
      GroupsFit(lex, w, front, gone) && BehindComma(lex, w, |Text(front, gone)|, commas[|commas|-1], groups[|groups|-1])
  }

  /** At `n` stands a comma, and behind it this group. */
  predicate BehindComma(lex: Lexer, w: string, n: nat, comma: string, group: seq<Token>) {
    n + |comma| <= |w| && CommaFits(lex, w[n..], comma) && AllFit(lex, w[n + |comma|..], group)
  }

  lemma NewGroupFits(lex: Lexer, w: string, s: string, groups: seq<seq<Token>>, commas: seq<string>, comma: string)
    requires groups != [] && Matching(groups, commas) && GroupsFit(lex, w, groups, commas)
    requires w == Text(groups, commas) + s && CommaFits(lex, s, comma)
    ensures GroupsFit(lex, w, groups + [[]], commas + [comma])
  {
    assert w[|Text(groups, commas)|..] == s;
    LastGroupFits(lex, w, groups, commas, comma, []);
  }

  lemma PassFits(lex: Lexer, w: string, s: string, groups: seq<seq<Token>>, commas: seq<string>, tokens: seq<Token>)
    requires groups != [] && Matching(groups, commas) && GroupsFit(lex, w, groups, commas)
    requires w == Text(groups, commas) + s && AllFit(lex, s, tokens)
    ensures GroupsFit(lex, w, WithLast(groups, tokens), commas)
  {
    var last := groups[|groups|-1];
    if |groups| == 1 {
      AllFitAppend(lex, w, last, tokens, s);
      assert WithLast(groups, tokens) == [last + tokens];
    } else {
      LaterGroupFits(lex, w, s, groups, commas, tokens);
    }
  }

  lemma LaterGroupFits(lex: Lexer, w: string, s: string, groups: seq<seq<Token>>, commas: seq<string>, tokens: seq<Token>)
    requires |groups| > 1 && Matching(groups, commas) && GroupsFit(lex, w, groups, commas)
    requires w == Text(groups, commas) + s && AllFit(lex, s, tokens)
    ensures GroupsFit(lex, w, WithLast(groups, tokens), commas)
  {
    var front, gone := groups[..|groups|-1], commas[..|commas|-1];
    var comma, last := commas[|commas|-1], groups[|groups|-1];
    assert GroupsFit(lex, w, front, gone) && BehindComma(lex, w, |Text(front, gone)|, comma, last);
    assert Text(groups, commas) == Text(front, gone) + comma + ToSelector(last);
    LaterPassFits(lex, w, s, front, gone, comma, last, tokens);
    assert gone + [comma] == commas;
  }

  lemma LaterPassFits(lex: Lexer, w: string, s: string, front: seq<seq<Token>>, gone: seq<string>, comma: string,
                      last: seq<Token>, tokens: seq<Token>)
    requires front != [] && Matching(front, gone) && GroupsFit(lex, w, front, gone)
    requires BehindComma(lex, w, |Text(front, gone)|, comma, last) && AllFit(lex, s, tokens)
    requires w == Text(front, gone) + comma + ToSelector(last) + s
    ensures GroupsFit(lex, w, front + [last + tokens], gone + [comma])
  {
    var before := Text(front, gone);
    assert BehindComma(lex, w, |before|, comma, last + tokens) by {
      BehindTwo(before, comma, ToSelector(last), s);
      GroupGrows(lex, w, |before|, comma, last, tokens, s);
    }
    LastGroupFits(lex, w, front, gone, comma, last + tokens);
  }

  lemma BehindTwo(a: string, b: string, c: string, d: string)
    ensures (a + b + c + d)[|a| + |b|..] == c + d
  {
    assert a + b + c + d == (a + b) + (c + d);
  }

  lemma GroupGrows(lex: Lexer, w: string, n: nat, comma: string, group: seq<Token>, tokens: seq<Token>, s: string)
    requires BehindComma(lex, w, n, comma, group) && w[n + |comma|..] == ToSelector(group) + s && AllFit(lex, s, tokens)
    ensures BehindComma(lex, w, n, comma, group + tokens)
  {
    AllFitAppend(lex, w[n + |comma|..], group, tokens, s);
  }

  lemma LastGroupFits(lex: Lexer, w: string, front: seq<seq<Token>>, gone: seq<string>, comma: string, last: seq<Token>)
    requires front != [] && Matching(front, gone) && GroupsFit(lex, w, front, gone)
    requires BehindComma(lex, w, |Text(front, gone)|, comma, last)
    ensures GroupsFit(lex, w, front + [last], gone + [comma])
  {
    assert (front + [last])[..|front|] == front && (gone + [comma])[..|gone|] == gone;
  }

  lemma {:induction false} ScanFits(lex: Lexer, w: string, s: string, groups: seq<seq<Token>>, commas: seq<string>)
    requires Matching(groups, commas) && GroupsFit(lex, w, groups, commas) && w == Text(groups, commas) + s
    requires ScanFrom(lex, s, groups, commas).Scan?
    ensures var r := ScanFrom(lex, s, groups, commas);
            Matching(r.groups, r.commas) && GroupsFit(lex, w, r.groups, r.commas)
    decreases |s|
  {
    ScanText(lex, s, groups, commas);
    if s != "" {
      var cur := OpenGroup(lex, s, groups, commas);
      OpenGroupText(lex, s, groups, commas);
      if groups != [] && CommaStep(lex, s).Some? {
        NewGroupFits(lex, w, s, groups, commas, CommaStep(lex, s).value);
      }
      var p := OnePass(lex, cur.rest);
      if p.tokens != [] {
        OnePassFits(lex, cur.rest);
        PassFits(lex, w, cur.rest, cur.groups, cur.commas, p.tokens);
        PassText(lex, cur);
        ScanFits(lex, w, p.rest, WithLast(cur.groups, p.tokens), cur.commas);
      }
    }
  }

  /** What tokenizing returns: groups of tokens, each token what its expression matched where it stands, and between
      the groups what the comma expression matched. */
  lemma TokensFit(lex: Lexer, s: string)
    requires ScanFrom(lex, s, [], []).Scan?
    ensures var r := ScanFrom(lex, s, [], []);
            Matching(r.groups, r.commas) && GroupsFit(lex, s, r.groups, r.commas)
  {
    assert Text([], []) + s == s;
    ScanFits(lex, s, s, [], []);
  }

  lemma {:induction false} ScanGrows(lex: Lexer, s: string, groups: seq<seq<Token>>, commas: seq<string>)
    requires ScanFrom(lex, s, groups, commas).Scan?
    ensures var r := ScanFrom(lex, s, groups, commas);
            |groups| <= |r.groups| && commas <= r.commas
    decreases |s|
  {
    if s != "" {
      var cur := OpenGroup(lex, s, groups, commas);
      var p := OnePass(lex, cur.rest);
      if p.tokens != [] { ScanGrows(lex, p.rest, WithLast(cur.groups, p.tokens), cur.commas); }
    }
  }

  /** A comma at the start of a pass always opens another group. */
  lemma CommaOpens(lex: Lexer, s: string, groups: seq<seq<Token>>, commas: seq<string>)
    requires groups != [] && IsMatch(lex.comma(s), s) && ScanFrom(lex, s, groups, commas).Scan?
    ensures var r := ScanFrom(lex, s, groups, commas);
            |groups| < |r.groups| && |commas| < |r.commas| && CommaFits(lex, s, r.commas[|commas|])
  {
    var cur := OpenGroup(lex, s, groups, commas);
    var p := OnePass(lex, cur.rest);
    if p.tokens != [] { ScanGrows(lex, p.rest, WithLast(cur.groups, p.tokens), cur.commas); }
  }

  /** An argument that runs too far is cut right behind the first closing parenthesis that its own tokenizing leaves over. */
  lemma CutAtParenthesis(lex: Lexer, s: string)
    requires var c := lex.filter(PSEUDO, s);
             && IsMatch(c.len, s) && !c.isChild && c.loose && 0 < c.start < c.len
             && Excess(lex, s[c.start..c.len-1]).Some? && Excess(lex, s[c.start..c.len-1]).value > 0
    ensures var c, r := lex.filter(PSEUDO, s), FilterTakes(lex, PSEUDO, s);
            var from := c.len - 1 - Excess(lex, s[c.start..c.len-1]).value;
            && r.Take? && c.start <= from < c.len - 1
            && (if r.n == c.start then forall k :: from <= k < c.len - 1 ==> s[k] != ')'
                else from < r.n < c.len && s[r.n-1] == ')' && forall k :: from <= k < r.n - 1 ==> s[k] != ')')
  {
    var c := lex.filter(PSEUDO, s);
    var unquoted := s[c.start..c.len-1];
    assert forall k :: c.start <= k < c.len - 1 ==> s[k] == unquoted[k - c.start];
  }
}
