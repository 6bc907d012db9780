/** The argument of `:nth-child(...)`: what the CHILD prefilter makes of it. */
module NthArgument {
  import opened Dom
  import opened NthChild

  datatype Sign = NoSign | Plus | Minus

  /** What the CHILD expression can capture: a keyword (matched without regard to case), or the
      parts of `an+b`, each with a sign and digits. */
  datatype Argument =
    | Keyword(text: string)
    | Formula(xn: Option<(Sign, string)>, y: Option<(Sign, string)>)

  function LowerChar(c: char): char {
    if 'A' <= c <= 'Z' then (c as int + 32) as char else c
  }

  function Lower(s: string): string {
    if s == "" then "" else [LowerChar(s[0])] + Lower(s[1..])
  }

  predicate IsDigits(s: string) {
    forall i :: 0 <= i < |s| ==> '0' <= s[i] <= '9'
  }

  function Decimal(s: string): nat
    requires IsDigits(s)
  {
    if s == "" then 0 else 10 * Decimal(s[..|s|-1]) + (s[|s|-1] as int - '0' as int)
  }

  function Signed(sign: Sign, n: int): int {
    if sign == Minus then -n else n
  }

  predicate Captured(arg: Argument) {
    match arg
    case Keyword(text) => Lower(text) == "even" || Lower(text) == "odd"
    case Formula(xn, y) =>
      && (xn.Some? ==> IsDigits(xn.value.1))
      && (y.Some? ==> IsDigits(y.value.1) && y.value.1 != "")
  }

  /** `match[4]` and `match[5]`; an empty argument is a syntax error. */
  function Coefficients(arg: Argument): Option<(int, int)>
    requires Captured(arg)
  {
    match arg
    case Keyword(text) =>
      Some((2 * (if text == "even" || text == "odd" then 1 else 0), if text == "odd" then 1 else 0))
    case Formula(xn, y) =>
      if xn.None? && y.None? then None else
      Some((if xn.None? then 0 else if xn.value.1 == "" then Signed(xn.value.0, 1) else Signed(xn.value.0, Decimal(xn.value.1)),
            if y.None? then 0 else Signed(y.value.0, Decimal(y.value.1))))
  }

  /** Section 6.6.5.2 of Selectors Level 3: `even` is 2n, `odd` is 2n+1, keywords and `n` know no
      case, a missing number before `n` is 1. */
  ghost predicate Denotes(arg: Argument, position: int)
    requires Captured(arg)
  {
    match arg
    case Keyword(text) => Progression(position, 2, if Lower(text) == "even" then 0 else 1)
    case Formula(xn, y) =>
      var step := if xn.None? then 0 else Signed(xn.value.0, if xn.value.1 == "" then 1 else Decimal(xn.value.1));
      var offset := if y.None? then 0 else Signed(y.value.0, Decimal(y.value.1));
      Progression(position, step, offset)
  }

  /** The prefilter and the test select the right positions exactly when a keyword is in lower case. */
  lemma ArgumentIsRight(arg: Argument)
    requires Captured(arg) && Coefficients(arg).Some?
    ensures var (a, b) := Coefficients(arg).value;
            (forall p: int :: p >= 1 ==> (PassesTest(p, a, b) <==> Denotes(arg, p)))
            <==> (arg.Keyword? ==> arg.text == Lower(arg.text))
  {
    var (a, b) := Coefficients(arg).value;
    if arg.Keyword? && arg.text != Lower(arg.text) {
      var p := if Lower(arg.text) == "even" then 2 else 1;
      UpperCaseFails(arg, p);
      assert !(PassesTest(p, a, b) <==> Denotes(arg, p));
    } else {
      forall p: int | p >= 1 ensures PassesTest(p, a, b) <==> Denotes(arg, p) {
        LowerCaseHolds(arg, p);
      }
    }
  }

  lemma UpperCaseFails(arg: Argument, p: int)
    requires Captured(arg) && arg.Keyword? && arg.text != Lower(arg.text)
    requires p == if Lower(arg.text) == "even" then 2 else 1
    ensures Denotes(arg, p) && !PassesTest(p, Coefficients(arg).value.0, Coefficients(arg).value.1)
  {
    LowerOfLower(arg.text);
    assert Coefficients(arg) == Some((0, 0));
    assert p == 2 * (p - 1) + (if Lower(arg.text) == "even" then 0 else 1);
  }

  lemma LowerCaseHolds(arg: Argument, p: int)
    requires Captured(arg) && Coefficients(arg).Some? && (arg.Keyword? ==> arg.text == Lower(arg.text))
    ensures PassesTest(p, Coefficients(arg).value.0, Coefficients(arg).value.1) <==> Denotes(arg, p)
  {
    var (a, b) := Coefficients(arg).value;
    TestMeansProgression(p, a, b);
    if arg.Keyword? {
      assert a == 2 && b == if Lower(arg.text) == "even" then 0 else 1;
    }
  }

  lemma LowerOfLower(s: string)
    ensures s == "even" || s == "odd" ==> Lower(s) == s
  {
    if s == "even" {
      assert s[1..] == "ven" && s[1..][1..] == "en" && s[1..][1..][1..] == "n" && s[1..][1..][1..][1..] == "";
      assert Lower("n") == "n" && Lower("en") == "en" && Lower("ven") == "ven";
    }
    if s == "odd" {
      assert s[1..] == "dd" && s[1..][1..] == "d" && s[1..][1..][1..] == "";
      assert Lower("d") == "d" && Lower("dd") == "dd";
    }
  }

  /** Every keyword and every formula has coefficients; only an empty argument is refused. */
  lemma RefusedIffEmpty(arg: Argument)
    requires Captured(arg)
    ensures Coefficients(arg).None? <==> arg == Formula(None, None)
  {
  }

  /** `:nth-child(EVEN)` denotes the even positions and accepts none. */
  lemma EvenInCapitals(p: int)
    requires p >= 1
    ensures Captured(Keyword("EVEN"))
    ensures Denotes(Keyword("EVEN"), p) <==> p % 2 == 0
    ensures Coefficients(Keyword("EVEN")).Some?
            && !PassesTest(p, Coefficients(Keyword("EVEN")).value.0, Coefficients(Keyword("EVEN")).value.1)
  {
    var s := "EVEN";
    assert s[1..] == "VEN" && s[1..][1..] == "EN" && s[1..][1..][1..] == "N" && s[1..][1..][1..][1..] == "";
    assert Lower("N") == "n" && Lower("EN") == "en" && Lower("VEN") == "ven" && Lower(s) == "even";
    if p % 2 == 0 { assert p == 2 * (p / 2) + 0; }
    TestMeansProgression(p, 0, 0);
  }

  /** `odd` accepts exactly the odd positions. */
  lemma OddMeans(p: int)
    requires p >= 1
    ensures Captured(Keyword("odd")) && Coefficients(Keyword("odd")).Some?
    ensures PassesTest(p, Coefficients(Keyword("odd")).value.0, Coefficients(Keyword("odd")).value.1) <==> p % 2 == 1
  {
    LowerOfLower("odd");
    TestMeansProgression(p, 2, 1);
    if p % 2 == 1 { assert p == 2 * (p / 2) + 1; }
  }

  /** `:nth-child(-n+3)` accepts exactly the first three, `:nth-child(n+3)` all but the first two, and `:nth-child(3)` the
      third. */
  lemma FormulasMean(p: int)
    requires p >= 1
    ensures var least, most, only := Formula(Some((Minus, "")), Some((Plus, "3"))), Formula(Some((NoSign, "")), Some((Plus, "3"))),
                                     Formula(None, Some((NoSign, "3")));
            && Captured(least) && Captured(most) && Captured(only)
            && Coefficients(least).Some? && Coefficients(most).Some? && Coefficients(only).Some?
            && (PassesTest(p, Coefficients(least).value.0, Coefficients(least).value.1) <==> p <= 3)
            && (PassesTest(p, Coefficients(most).value.0, Coefficients(most).value.1) <==> p >= 3)
            && (PassesTest(p, Coefficients(only).value.0, Coefficients(only).value.1) <==> p == 3)
  {
    assert "3"[..0] == "" && Decimal("3") == 3;
    TestMeansProgression(p, -1, 3);
    TestMeansProgression(p, 1, 3);
    TestMeansProgression(p, 0, 3);
    if p <= 3 { assert p == -1 * (3 - p) + 3; }
    if p >= 3 { assert p == 1 * (p - 3) + 3; }
    if p == 3 { assert p == 0 * 0 + 3; }
  }

  /** The decimal digits of a number. */
  function Numeral(n: nat): (s: string)
    ensures s != ""
  {
    var last := ['0' + (n % 10) as char];
    if n < 10 then last else Numeral(n / 10) + last
  }

  /** Digits are read as the number they stand for. */
  lemma {:induction false} NumeralIsRead(n: nat)
    ensures IsDigits(Numeral(n)) && Decimal(Numeral(n)) == n
  {
    var last := ['0' + (n % 10) as char];
    if n < 10 {
      assert last[..0] == "" && Decimal(last) == n;
    } else {
      NumeralIsRead(n / 10);
      assert Numeral(n) == Numeral(n / 10) + last && Numeral(n)[..|Numeral(n)|-1] == Numeral(n / 10);
    }
  }
}
