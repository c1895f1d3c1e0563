/**
 * The duration parser of the mute command: one to three tokens such as "1d", "20h" or "45m"
 * become a total number of minutes, or -1 when any token is malformed.
 *
 * `ScanToken` and `ParseTotal` are the specification (one token, then the whole list);
 * `ParseDurations` is the imperative parser, proved to compute `ParseOutcome`.
 * `WellFormed` is an independent statement of the token grammar, and the lemmas below
 * connect it to the parser and prove the summation properties.
 */
module Duration {
  import opened Wrappers
  import opened Time

  const MaxDays: int := 365
  const MaxHours: int := 24
  const MaxMinutes: int := 60

  /** The largest number of minutes one accepted token can contribute (365 days). */
  const MaxTokenMinutes: int := 365 * 24 * 60

  // ---------------------------------------------------------------------------
  // Characters and strings, as the .NET library calls used by the parser see them
  // ---------------------------------------------------------------------------

  /** char.IsWhiteSpace: the Unicode separators and the control characters TAB..CR and NEL. */
  predicate IsWhiteSpace(c: char)
  {
    || c == ' ' || ('\t' <= c <= '\r') || c == '\U{0085}' || c == '\U{00A0}' || c == '\U{1680}'
    || ('\U{2000}' <= c <= '\U{200A}') || c == '\U{2028}' || c == '\U{2029}'
    || c == '\U{202F}' || c == '\U{205F}' || c == '\U{3000}'
  }

  /** string.IsNullOrWhiteSpace for a non-null string: empty, or white space only. */
  predicate IsBlank(s: string)
  {
    forall i :: 0 <= i < |s| ==> IsWhiteSpace(s[i])
  }

  predicate IsDigit(c: char)
  {
    '0' <= c <= '9'
  }

  predicate AllDigits(s: string)
  {
    forall i :: 0 <= i < |s| ==> IsDigit(s[i])
  }

  /** Lower-casing of one character, for the letters that matter to the parser. */
  function ToLower(c: char): (r: char)
    ensures IsDigit(r) <==> IsDigit(c)
  {
    if 'A' <= c <= 'Z' then (c as int + 32) as char else c
  }

  /** string.ToLowerInvariant: character by character, the length is kept. */
  function ToLowerInvariant(s: string): (r: string)
    ensures |r| == |s|
  {
    seq(|s|, i requires 0 <= i < |s| => ToLower(s[i]))
  }

  /**
   * What lower-casing does to the characters the parser looks at: digits are left alone and
   * no other character becomes one, and each unit letter comes out lower-case from either
   * case and from nothing else.
   */
  lemma LowerCaseKeeps(s: string, i: int)
    requires 0 <= i < |s|
    ensures IsDigit(ToLowerInvariant(s)[i]) <==> IsDigit(s[i])
    ensures IsDigit(s[i]) ==> ToLowerInvariant(s)[i] == s[i]
    ensures ToLowerInvariant(s)[i] == 'd' <==> s[i] == 'd' || s[i] == 'D'
    ensures ToLowerInvariant(s)[i] == 'h' <==> s[i] == 'h' || s[i] == 'H'
    ensures ToLowerInvariant(s)[i] == 'm' <==> s[i] == 'm' || s[i] == 'M'
  {
  }

  /** The length of the run of digits at the start of `s` (the parser's inner scan). */
  function DigitRun(s: string): (n: nat)
    ensures n <= |s|
    ensures AllDigits(s[..n])
    ensures n < |s| ==> !IsDigit(s[n])
  {
    if |s| > 0 && IsDigit(s[0]) then 1 + DigitRun(s[1..]) else 0
  }

  /** The number a string of decimal digits denotes (leading zeros allowed). */
  function DecimalValue(digits: string): nat
    requires AllDigits(digits)
  {
    if digits == [] then 0
    else DecimalValue(digits[..|digits| - 1]) * 10 + (digits[|digits| - 1] as int - '0' as int)
  }

  /**
   * int.TryParse on a run of digits: the empty string and numbers that do not fit an `int`
   * fail; any run of one to nine digits fits.
   */
  function ParseInt32(digits: string): (r: Option<int>)
    requires AllDigits(digits)
    ensures 1 <= |digits| <= 9 ==> r.Some?
    ensures r.Some? ==> digits != [] && 0 <= r.value <= Int32Max && r.value == DecimalValue(digits)
    ensures digits != [] && DecimalValue(digits) <= Int32Max ==> r.Some?
  {
    DecimalBound(digits);
    Pow10Grows(|digits|, 9);
    var v := DecimalValue(digits);
    if digits != [] && v <= Int32Max then Some(v) else None
  }

  function Pow10(n: nat): nat
  {
    if n == 0 then 1 else 10 * Pow10(n - 1)
  }

  /** A run of k digits denotes less than 10^k. */
  lemma {:induction false} DecimalBound(digits: string)
    requires AllDigits(digits)
    ensures DecimalValue(digits) < Pow10(|digits|)
    decreases |digits|
  {
    if digits != [] {
      var init := digits[..|digits| - 1];
      assert AllDigits(init) by {
        forall j | 0 <= j < |init| ensures IsDigit(init[j]) { assert init[j] == digits[j]; }
      }
      DecimalBound(init);
    }
  }

  lemma {:induction false} Pow10Grows(a: nat, b: nat)
    ensures a <= b ==> Pow10(a) <= Pow10(b)
    decreases if a <= b then b - a else 0
  {
    if a < b {
      Pow10Grows(a, b - 1);
    }
  }

  // ---------------------------------------------------------------------------
  // Units and tokens
  // ---------------------------------------------------------------------------

  datatype Unit = Day | Hour | Minute

  /** The `switch (unit)` of the parser, on the already lower-cased unit letter. */
  function UnitOf(c: char): Option<Unit>
  {
    if c == 'd' then Some(Day)
    else if c == 'h' then Some(Hour)
    else if c == 'm' then Some(Minute)
    else None
  }

  /** The inclusive cap of each unit. */
  function Cap(u: Unit): int
  {
    match u
    case Day => MaxDays
    case Hour => MaxHours
    case Minute => MaxMinutes
  }

  function MinutesPer(u: Unit): int
  {
    match u
    case Day => 24 * 60
    case Hour => 60
    case Minute => 1
  }

  /** What one token does to the total: nothing, add some minutes, or fail the whole parse. */
  datatype TokenResult = Skipped | Minutes(n: int) | Rejected

  /** One iteration of the parser's token loop, with the same checks in the same order. */
  function ScanToken(token: string): TokenResult
  {
    if IsBlank(token) then Skipped
    else
      var lower := ToLowerInvariant(token);
      var i := DigitRun(lower);
      if i == 0 || i >= |lower| then Rejected        // no digits, or no unit
      else if i + 1 != |lower| then Rejected         // something after the unit
      else match ParseInt32(lower[..i])
        case None => Rejected
        case Some(value) =>
          if value <= 0 then Rejected
          else match UnitOf(lower[i])
            case None => Rejected
            case Some(u) => if value > Cap(u) then Rejected else Minutes(value * MinutesPer(u))
  }

  /**
   * The token grammar stated on its own: one or more digits, then a single unit letter
   * d, h or m in either case, and a value from 1 to that unit's cap.
   */
  predicate WellFormed(token: string)
  {
    && |token| >= 2
    && AllDigits(token[..|token| - 1])
    && UnitOf(ToLower(token[|token| - 1])).Some?
    && 1 <= DecimalValue(token[..|token| - 1]) <= Cap(UnitOf(ToLower(token[|token| - 1])).value)
  }

  /** The minutes a well-formed token stands for. */
  function TokenMinutes(token: string): int
    requires WellFormed(token)
  {
    DecimalValue(token[..|token| - 1]) * MinutesPer(UnitOf(ToLower(token[|token| - 1])).value)
  }

  /**
   * The parser accepts exactly the grammar: a token is skipped iff it is blank, contributes
   * minutes iff it is well formed (and then its value times the unit's minutes), and otherwise
   * fails the parse (no digits, no unit, trailing characters, zero, unknown unit, over the cap).
   */
  lemma ScanTokenMatchesGrammar(token: string)
    ensures ScanToken(token) == Skipped <==> IsBlank(token)
    ensures ScanToken(token).Minutes? <==> WellFormed(token)
    ensures ScanToken(token) == Rejected <==> !IsBlank(token) && !WellFormed(token)
    ensures WellFormed(token) ==> ScanToken(token) == Minutes(TokenMinutes(token))
  {
    var n := |token|;
    if WellFormed(token) {
      assert !IsWhiteSpace(token[0]) by { assert IsDigit(token[..n - 1][0]); }
      var lower := ToLowerInvariant(token);
      assert lower[..n - 1] == token[..n - 1];
      DigitRunIs(lower, n - 1);
    } else if !IsBlank(token) {
      var lower := ToLowerInvariant(token);
      var i := DigitRun(lower);
      if 0 < i && i + 1 == n {
        assert lower[..i] == token[..i];
        assert lower[i] == ToLower(token[n - 1]);
      }
    }
  }

  /** A digit run followed by a non-digit has exactly that length. */
  lemma {:induction false} DigitRunIs(s: string, k: nat)
    requires k < |s| && AllDigits(s[..k]) && !IsDigit(s[k])
    ensures DigitRun(s) == k
  {
    if k > 0 {
      assert IsDigit(s[..k][0]);
      assert s[1..][..k - 1] == s[1..k];
      DigitRunIs(s[1..], k - 1);
    }
  }

  /** Every accepted token adds between 1 and 365 days' worth of minutes. */
  lemma ScanTokenBounds(token: string)
    ensures ScanToken(token).Minutes? ==> 1 <= ScanToken(token).n <= MaxTokenMinutes
  {
  }

  // ---------------------------------------------------------------------------
  // The token list
  // ---------------------------------------------------------------------------

  function Contribution(r: TokenResult): Option<int>
  {
    match r
    case Skipped => Some(0)
    case Minutes(n) => Some(n)
    case Rejected => None
  }

  /** Sums two partial results; a failure on either side fails the whole. */
  function Combine(a: Option<int>, b: Option<int>): Option<int>
  {
    if a.Some? && b.Some? then Some(a.value + b.value) else None
  }

  /** The total of a token list, accumulated in list order; None when any token is rejected. */
  function ParseTotal(tokens: seq<string>): Option<int>
  {
    if tokens == [] then Some(0)
    else Combine(ParseTotal(tokens[..|tokens| - 1]), Contribution(ScanToken(tokens[|tokens| - 1])))
  }

  /** What ParseDurations returns: -1 on failure, otherwise the total in wrapping `int` arithmetic. */
  function ParseOutcome(tokens: seq<string>): int
  {
    match ParseTotal(tokens)
    case None => -1
    case Some(n) => Wrap32(n)
  }

  /**
   * The parser: a loop over the tokens that returns -1 as soon as a token is rejected.
   * The accumulator is a C# `int` and wraps like one.
   */
  method ParseDurations(durationStrings: seq<string>) returns (totalMinutes: int)
    ensures totalMinutes == ParseOutcome(durationStrings)
  {
    totalMinutes := 0;
    var k := 0;
    while k < |durationStrings|
      invariant 0 <= k <= |durationStrings|
      invariant ParseTotal(durationStrings[..k]).Some?
      invariant totalMinutes == Wrap32(ParseTotal(durationStrings[..k]).value)
    {
      assert durationStrings[..k + 1][..k] == durationStrings[..k];
      var token := ScanDuration(durationStrings[k]);
      match token {
        case Rejected =>
          RejectedFailsAll(durationStrings, k);
          return -1;
        case Skipped =>
        case Minutes(add) =>
          WrapAdd(ParseTotal(durationStrings[..k]).value, add);
          totalMinutes := Wrap32(totalMinutes + add);
      }
      k := k + 1;
    }
    assert durationStrings[..k] == durationStrings;
  }

  /**
   * The body of the parser's token loop: skip a blank token, scan the leading digits,
   * then check for a unit, trailing characters, the number, the unit letter and its cap.
   */
  method ScanDuration(durationString: string) returns (result: TokenResult)
    ensures result == ScanToken(durationString)
  {
    if IsBlank(durationString) {
      return Skipped;
    }
    var lower := ToLowerInvariant(durationString);
    var i := 0;
    while i < |lower| && IsDigit(lower[i])
      invariant 0 <= i <= |lower|
      invariant AllDigits(lower[..i])
    {
      i := i + 1;
    }
    if i < |lower| {
      DigitRunIs(lower, i);
    } else {
      assert lower[..i] == lower;
      DigitRunAll(lower);
    }
    if i == 0 || i >= |lower| {
      return Rejected;  // no digits, or no unit
    }
    var numberPart := lower[..i];
    var unit := lower[i];
    if i + 1 != |lower| {
      return Rejected;  // something after the unit
    }
    var parsed := ParseInt32(numberPart);
    if parsed.None? || parsed.value <= 0 {
      return Rejected;
    }
    var value := parsed.value;
    if unit == 'd' {
      if value > MaxDays {
        return Rejected;
      }
      result := Minutes(value * 24 * 60);
    } else if unit == 'h' {
      if value > MaxHours {
        return Rejected;
      }
      result := Minutes(value * 60);
    } else if unit == 'm' {
      if value > MaxMinutes {
        return Rejected;
      }
      result := Minutes(value);
    } else {
      result := Rejected;
    }
  }

  /** A string made only of digits is one digit run. */
  lemma {:induction false} DigitRunAll(s: string)
    requires AllDigits(s)
    ensures DigitRun(s) == |s|
  {
    if |s| > 0 {
      assert AllDigits(s[1..]) by { forall j | 0 <= j < |s| - 1 ensures IsDigit(s[1..][j]) { assert s[1..][j] == s[j + 1]; } }
      DigitRunAll(s[1..]);
    }
  }

  // ---------------------------------------------------------------------------
  // Properties of the total
  // ---------------------------------------------------------------------------

  /** Combine is commutative and associative, with Some(0) as unit. */
  lemma CombineLaws(a: Option<int>, b: Option<int>, c: Option<int>)
    ensures Combine(a, b) == Combine(b, a)
    ensures Combine(Combine(a, b), c) == Combine(a, Combine(b, c))
    ensures Combine(a, Some(0)) == a
  {
  }

  /** The total of a concatenation combines the totals of its parts. */
  lemma {:induction false} ParseTotalConcat(a: seq<string>, b: seq<string>)
    ensures ParseTotal(a + b) == Combine(ParseTotal(a), ParseTotal(b))
    decreases |b|
  {
    if b == [] {
      assert a + b == a;
      CombineLaws(ParseTotal(a), Some(0), None);
    } else {
      var b' := b[..|b| - 1];
      assert (a + b)[..|a + b| - 1] == a + b';
      assert (a + b)[|a + b| - 1] == b[|b| - 1];
      ParseTotalConcat(a, b');
      CombineLaws(ParseTotal(a), ParseTotal(b'), Contribution(ScanToken(b[|b| - 1])));
    }
  }

  /** All or nothing: the parse fails iff some token is rejected. */
  lemma {:induction false} ParseTotalFails(tokens: seq<string>)
    ensures ParseTotal(tokens).None? <==> exists i :: 0 <= i < |tokens| && ScanToken(tokens[i]) == Rejected
    decreases |tokens|
  {
    if tokens != [] {
      var init := tokens[..|tokens| - 1];
      ParseTotalFails(init);
      if exists i :: 0 <= i < |init| && ScanToken(init[i]) == Rejected {
        var i :| 0 <= i < |init| && ScanToken(init[i]) == Rejected;
        assert tokens[i] == init[i];
      }
      if exists i :: 0 <= i < |tokens| && ScanToken(tokens[i]) == Rejected {
        var i :| 0 <= i < |tokens| && ScanToken(tokens[i]) == Rejected;
        if i < |init| { assert init[i] == tokens[i]; }
      }
    }
  }

  /** A rejected token anywhere fails the whole list, whatever came before or after it. */
  lemma RejectedFailsAll(tokens: seq<string>, k: nat)
    requires k < |tokens| && ScanToken(tokens[k]) == Rejected
    ensures ParseTotal(tokens) == None
  {
    ParseTotalFails(tokens);
  }

  /** Token order does not matter: any rearrangement of the list has the same total. */
  lemma {:induction false} ParseTotalPermutation(a: seq<string>, b: seq<string>)
    requires multiset(a) == multiset(b)
    ensures ParseTotal(a) == ParseTotal(b)
    decreases |a|
  {
    if a == [] {
      assert |b| == |multiset(b)| == 0;
    } else {
      var x := a[0];
      assert x in multiset(b);
      var j :| 0 <= j < |b| && b[j] == x;
      var rest := b[..j] + b[j + 1..];
      assert b == b[..j] + [x] + b[j + 1..];
      assert a == [x] + a[1..];
      assert multiset(a[1..]) == multiset(rest) by {
        calc {
          multiset(a[1..]);
          multiset(a) - multiset{x};
          multiset(b) - multiset{x};
          multiset(b[..j]) + multiset(b[j + 1..]);
          multiset(rest);
        }
      }
      ParseTotalPermutation(a[1..], rest);
      var p, q, s := ParseTotal(b[..j]), ParseTotal([x]), ParseTotal(b[j + 1..]);
      ParseTotalConcat([x], a[1..]);
      ParseTotalConcat(b[..j] + [x], b[j + 1..]);
      ParseTotalConcat(b[..j], [x]);
      ParseTotalConcat(b[..j], b[j + 1..]);
      CombineLaws(p, q, s);
      CombineLaws(q, p, s);
    }
  }

  /** Any two tokens give the same total in either order. */
  lemma ParseTotalSwap(x: string, y: string)
    ensures ParseTotal([x, y]) == ParseTotal([y, x])
  {
    assert multiset([x, y]) == multiset([y, x]);
    ParseTotalPermutation([x, y], [y, x]);
  }

  /** The total is zero exactly when every token is blank (so an all-blank list gives 0). */
  lemma {:induction false} ParseTotalZero(tokens: seq<string>)
    ensures ParseTotal(tokens) == Some(0) <==> forall i :: 0 <= i < |tokens| ==> IsBlank(tokens[i])
    decreases |tokens|
  {
    if tokens != [] {
      var init := tokens[..|tokens| - 1];
      ParseTotalZero(init);
      ParseTotalBounds(init);
      ScanTokenBounds(tokens[|tokens| - 1]);
      forall i | 0 <= i < |init| ensures init[i] == tokens[i] { }
    }
  }

  /** An accepted list totals between 0 and 365 days per token. */
  lemma {:induction false} ParseTotalBounds(tokens: seq<string>)
    ensures ParseTotal(tokens).Some? ==> 0 <= ParseTotal(tokens).value <= |tokens| * MaxTokenMinutes
    decreases |tokens|
  {
    if tokens != [] {
      ParseTotalBounds(tokens[..|tokens| - 1]);
      ScanTokenBounds(tokens[|tokens| - 1]);
    }
  }

  /**
   * With at most three tokens (all the mute command passes) the `int` accumulator never wraps:
   * the result is -1 on failure and the exact total otherwise.
   */
  lemma ParseOutcomeExact(tokens: seq<string>)
    requires |tokens| <= 3
    ensures ParseTotal(tokens).None? ==> ParseOutcome(tokens) == -1
    ensures ParseTotal(tokens).Some? ==> ParseOutcome(tokens) == ParseTotal(tokens).value <= 3 * MaxTokenMinutes
  {
    var total := ParseTotal(tokens);
    if total.Some? {
      var n := total.value;
      assert 0 <= n <= 3 * MaxTokenMinutes by {
        ParseTotalBounds(tokens);
        assert MaxTokenMinutes == 525600;
        assert |tokens| == 0 || |tokens| == 1 || |tokens| == 2 || |tokens| == 3;
      }
      assert Wrap32(n) == n by {
        assert Int32Min <= n <= Int32Max;
      }
    }
  }
}

/** Worked cases of the parser: mixed units in either order, the caps, and malformed tokens. */
module DurationExamples {
  import opened Wrappers
  import opened Duration

  lemma OneToken(t: string, digits: string, value: nat, unit: char)
    requires t == digits + [unit] && digits != [] && AllDigits(digits) && DecimalValue(digits) == value
    requires UnitOf(ToLower(unit)).Some? && 1 <= value <= Cap(UnitOf(ToLower(unit)).value)
    ensures ParseTotal([t]) == Some(value * MinutesPer(UnitOf(ToLower(unit)).value))
  {
    assert t[..|t| - 1] == digits;
    ScanTokenMatchesGrammar(t);
    assert [t][..0] == [];
  }

  lemma Rejected1(t: string)
    requires |t| > 0 && !IsWhiteSpace(t[0]) && !WellFormed(t)
    ensures ParseTotal([t]) == None
  {
    ScanTokenMatchesGrammar(t);
    RejectedFailsAll([t], 0);
  }

  lemma MixedUnits()
    ensures ParseTotal(["1d", "2h"]) == ParseTotal(["2h", "1d"]) == Some(1560)
    ensures ParseTotal(["1d", "12h"]) == Some(2160)
  {
    assert DecimalValue("1") == 1;
    assert DecimalValue("2") == 2;
    assert DecimalValue("12") == 12 by { assert "12"[..1] == "1"; }
    OneToken("1d", "1", 1, 'd');
    OneToken("2h", "2", 2, 'h');
    OneToken("12h", "12", 12, 'h');
    ParseTotalConcat(["1d"], ["2h"]);
    ParseTotalConcat(["1d"], ["12h"]);
    assert ["1d"] + ["2h"] == ["1d", "2h"];
    assert ["1d"] + ["12h"] == ["1d", "12h"];
    ParseTotalSwap("1d", "2h");
  }

  lemma Caps()
    ensures ParseTotal(["365d"]) == Some(525600)
    ensures ParseTotal(["24H"]) == Some(1440)
    ensures ParseTotal(["60m"]) == Some(60)
  {
    assert DecimalValue("365") == 365 by { assert "365"[..2] == "36"; assert "36"[..1] == "3"; }
    assert DecimalValue("24") == 24 by { assert "24"[..1] == "2"; }
    assert DecimalValue("60") == 60 by { assert "60"[..1] == "6"; }
    OneToken("365d", "365", 365, 'd');
    OneToken("24H", "24", 24, 'H');
    OneToken("60m", "60", 60, 'm');
  }

  lemma OverCapToken(t: string, digits: string, value: nat, unit: char)
    requires t == digits + [unit] && digits != [] && AllDigits(digits) && DecimalValue(digits) == value
    requires UnitOf(ToLower(unit)).Some? && value > Cap(UnitOf(ToLower(unit)).value)
    ensures ParseTotal([t]) == None
  {
    assert t[..|t| - 1] == digits;
    Rejected1(t);
  }

  lemma OverCap()
    ensures ParseTotal(["400d"]) == None && ParseTotal(["25h"]) == None && ParseTotal(["61m"]) == None
  {
    assert DecimalValue("400") == 400 by { assert "400"[..2] == "40"; assert "40"[..1] == "4"; }
    OverCapToken("400d", "400", 400, 'd');
    assert DecimalValue("25") == 25 by { assert "25"[..1] == "2"; }
    OverCapToken("25h", "25", 25, 'h');
    assert DecimalValue("61") == 61 by { assert "61"[..1] == "6"; }
    OverCapToken("61m", "61", 61, 'm');
  }

  lemma Malformed()
    ensures ParseTotal(["10x"]) == None && ParseTotal(["d"]) == None && ParseTotal(["10"]) == None
  {
    assert ToLower('x') == 'x' && ToLower('0') == '0';
    Rejected1("10x");
    Rejected1("d");
    Rejected1("10");
  }
}
