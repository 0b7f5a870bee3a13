/**
  The affinity specification parser: a comma-separated list of CPU core
  indices such as "0,2,4" becomes the list [0, 2, 4].

  The source splits on ',' exactly as Python's `str.split(',')` does (an
  empty string gives one empty token, every comma separates two tokens) and
  converts every token with `int(_)` from left to right, so the first token
  that is not an integer raises and no partial list is ever produced.

  Token grammar: this model accepts exactly the non-empty strings of ASCII
  digits '0'..'9'. This is a deliberate subset of Python's `int()`, which
  also accepts surrounding whitespace, a leading sign, and underscores
  between digits.
 */
module AffinityCsv {
  import opened Wrappers

  /** The error `int()` raises: the first token that is not a decimal literal,
      and its position among the tokens. */
  datatype ParseError = InvalidLiteral(index: nat, token: string)

  // ---------------------------------------------------------------------------
  // Splitting on commas
  // ---------------------------------------------------------------------------

  /** Number of occurrences of `c` in `s`. */
  function Occurrences(s: string, c: char): nat
  {
    if |s| == 0 then 0
    else (if s[0] == c then 1 else 0) + Occurrences(s[1..], c)
  }

  /** Joins tokens with a comma between each pair; the inverse of `Split`. */
  function Join(tokens: seq<string>): string
    requires |tokens| >= 1
  {
    if |tokens| == 1 then tokens[0]
    else tokens[0] + "," + Join(tokens[1..])
  }

  /** Python's `s.split(',')`: the maximal comma-free pieces of `s`, in order. */
  function Split(s: string): (tokens: seq<string>)
    ensures |tokens| == Occurrences(s, ',') + 1
    ensures forall i :: 0 <= i < |tokens| ==> ',' !in tokens[i]
    ensures Join(tokens) == s
  {
    if |s| == 0 then [""]
    else
      var rest := Split(s[1..]);
      if s[0] == ',' then
        assert ([""] + rest)[1..] == rest;
        [""] + rest
      else
        var tokens := [[s[0]] + rest[0]] + rest[1..];
        assert tokens[1..] == rest[1..];
        assert s == [s[0]] + s[1..];
        tokens
  }

  /** A comma-free string is a single token. */
  lemma {:induction false} SplitCommaFree(t: string)
    requires ',' !in t
    ensures Split(t) == [t]
    decreases |t|
  {
    if |t| > 0 {
      assert ',' !in t[1..] by {
        forall i | 0 <= i < |t[1..]| ensures t[1..][i] != ',' {
          assert t[1..][i] == t[i + 1];
        }
      }
      SplitCommaFree(t[1..]);
      assert [t[0]] + t[1..] == t;
    }
  }

  /** Splitting `t + "," + u` with a comma-free `t` yields `t` and then the
      tokens of `u`. */
  lemma {:induction false} SplitFirstToken(t: string, u: string)
    requires ',' !in t
    ensures Split(t + "," + u) == [t] + Split(u)
    decreases |t|
  {
    if |t| == 0 {
      assert t + "," + u == [','] + u;
      assert ([','] + u)[1..] == u;
    } else {
      var s := t + "," + u;
      assert s[1..] == t[1..] + "," + u;
      assert ',' !in t[1..] by {
        forall i | 0 <= i < |t[1..]| ensures t[1..][i] != ',' {
          assert t[1..][i] == t[i + 1];
        }
      }
      SplitFirstToken(t[1..], u);
      assert [t[0]] + t[1..] == t;
    }
  }

  /** `Split` inverts `Join`: joining comma-free tokens and splitting the
      result gives the tokens back. */
  lemma {:induction false} SplitJoin(tokens: seq<string>)
    requires |tokens| >= 1
    requires forall i :: 0 <= i < |tokens| ==> ',' !in tokens[i]
    ensures Split(Join(tokens)) == tokens
    decreases |tokens|
  {
    if |tokens| == 1 {
      SplitCommaFree(tokens[0]);
    } else {
      SplitFirstToken(tokens[0], Join(tokens[1..]));
      SplitJoin(tokens[1..]);
      assert [tokens[0]] + tokens[1..] == tokens;
    }
  }

  /** A trailing comma always leaves an empty last token. */
  lemma {:induction false} SplitTrailingComma(s: string)
    ensures Split(s + ",") == Split(s) + [""]
    decreases |s|
  {
    if |s| == 0 {
      assert "" + "," == [','];
    } else {
      assert (s + ",")[1..] == s[1..] + ",";
      SplitTrailingComma(s[1..]);
    }
  }

  // ---------------------------------------------------------------------------
  // Decimal tokens
  // ---------------------------------------------------------------------------

  predicate IsDigit(c: char)
  {
    '0' <= c <= '9'
  }

  predicate AllDigits(t: string)
  {
    forall i :: 0 <= i < |t| ==> IsDigit(t[i])
  }

  /** A token that the parser converts: one or more ASCII digits. */
  predicate IsDecimal(t: string)
  {
    |t| > 0 && AllDigits(t)
  }

  function DigitValue(c: char): (d: nat)
    requires IsDigit(c)
    ensures d < 10
  {
    (c as int) - ('0' as int)
  }

  function DigitChar(d: nat): (c: char)
    requires d < 10
    ensures IsDigit(c) && DigitValue(c) == d
  {
    (('0' as int) + d) as char
  }

  /** 10 to the power `k`. */
  function Pow10(k: nat): (p: nat)
    ensures p >= 1
  {
    if k == 0 then 1 else 10 * Pow10(k - 1)
  }

  /** Base-10 value of a digit string, most significant digit first, as
      `int()` computes it. An n-digit string denotes a value below 10^n, and
      one of at least 10^(n-1) unless it starts with '0' (leading zeros are
      allowed, as in `int("007") == 7`). */
  function DecimalValue(t: string): (v: nat)
    requires AllDigits(t)
    ensures v < Pow10(|t|)
    ensures |t| > 0 && t[0] != '0' ==> Pow10(|t| - 1) <= v
  {
    if |t| == 0 then 0
    else DecimalValue(t[..|t| - 1]) * 10 + DigitValue(t[|t| - 1])
  }

  /** Leading zeros do not change the value. */
  lemma {:induction false} LeadingZero(t: string)
    requires AllDigits(t)
    ensures AllDigits("0" + t) && DecimalValue("0" + t) == DecimalValue(t)
    decreases |t|
  {
    var z := "0" + t;
    if |t| > 0 {
      assert z[..|z| - 1] == "0" + t[..|t| - 1];
      LeadingZero(t[..|t| - 1]);
    }
  }

  /** Canonical decimal rendering of `n`, as Python's `str(n)`; the partner of
      `DecimalValue`. */
  function Decimal(n: nat): (t: string)
    ensures IsDecimal(t)
    ensures DecimalValue(t) == n
    ensures ',' !in t
    ensures t[0] == '0' ==> t == "0"
  {
    if n < 10 then [DigitChar(n)]
    else
      var prefix := Decimal(n / 10);
      var t := prefix + [DigitChar(n % 10)];
      assert t[..|t| - 1] == prefix;
      t
  }

  // ---------------------------------------------------------------------------
  // Parsing
  // ---------------------------------------------------------------------------

  /** Converts every token left to right; the first token that is not a
      decimal literal aborts the whole conversion. */
  function ParseTokens(tokens: seq<string>): (r: Result<seq<nat>, ParseError>)
    ensures r.Success? <==> forall i :: 0 <= i < |tokens| ==> IsDecimal(tokens[i])
    ensures r.Success? ==>
      && |r.value| == |tokens|
      && forall i :: 0 <= i < |tokens| ==> r.value[i] == DecimalValue(tokens[i])
    ensures r.Failure? ==>
      && r.error.index < |tokens|
      && r.error.token == tokens[r.error.index]
      && !IsDecimal(r.error.token)
      && forall i :: 0 <= i < r.error.index ==> IsDecimal(tokens[i])
  {
    if |tokens| == 0 then Success([])
    else if !IsDecimal(tokens[0]) then Failure(InvalidLiteral(0, tokens[0]))
    else
      match ParseTokens(tokens[1..])
      case Failure(e) => Failure(InvalidLiteral(e.index + 1, e.token))
      case Success(values) => Success([DecimalValue(tokens[0])] + values)
  }

  /** The input is accepted: every comma-separated token is a decimal literal. */
  predicate WellFormed(csv: string)
  {
    forall i :: 0 <= i < |Split(csv)| ==> IsDecimal(Split(csv)[i])
  }

  /** `parse_cpu_affinity` of the platform-backed variant. On success the list
      holds one core index per token, in token order, each the token's base-10
      value, with no sorting, deduplication or bounds check; otherwise the
      error names the first offending token. */
  function ParseCpuAffinity(csv: string): (r: Result<seq<nat>, ParseError>)
    ensures r.Success? <==> WellFormed(csv)
    ensures r.Success? ==>
      && |r.value| == Occurrences(csv, ',') + 1
      && forall i :: 0 <= i < |r.value| ==> r.value[i] == DecimalValue(Split(csv)[i])
    ensures r.Failure? ==>
      && r.error.index <= Occurrences(csv, ',')
      && r.error.token == Split(csv)[r.error.index]
      && !IsDecimal(r.error.token)
      && forall i :: 0 <= i < r.error.index ==> IsDecimal(Split(csv)[i])
  {
    ParseTokens(Split(csv))
  }

  // ---------------------------------------------------------------------------
  // Rendering, the inverse of parsing
  // ---------------------------------------------------------------------------

  function DecimalTokens(cpus: seq<nat>): (tokens: seq<string>)
    ensures |tokens| == |cpus|
    ensures forall i :: 0 <= i < |cpus| ==> tokens[i] == Decimal(cpus[i])
  {
    if |cpus| == 0 then [] else [Decimal(cpus[0])] + DecimalTokens(cpus[1..])
  }

  /** The canonical affinity specification of a non-empty core list,
      e.g. [0, 2, 4] becomes "0,2,4". */
  function Render(cpus: seq<nat>): string
    requires |cpus| >= 1
  {
    Join(DecimalTokens(cpus))
  }

  /** Parsing the rendering of any non-empty core list gives the list back,
      duplicates and order included. */
  lemma ParseRender(cpus: seq<nat>)
    requires |cpus| >= 1
    ensures ParseCpuAffinity(Render(cpus)) == Success(cpus)
  {
    var tokens := DecimalTokens(cpus);
    SplitJoin(tokens);
    var r := ParseCpuAffinity(Render(cpus));
    assert r.Success?;
    assert r.value == cpus;
  }

  /** A successful parse never yields the empty list: `split` always returns at
      least one token. */
  lemma ParsedListNonEmpty(csv: string)
    requires ParseCpuAffinity(csv).Success?
    ensures |ParseCpuAffinity(csv).value| >= 1
  {
  }

  /** A trailing comma makes the last token empty, so the whole input fails
      and no prefix of it is returned. */
  lemma TrailingCommaFails(csv: string)
    ensures ParseCpuAffinity(csv + ",").Failure?
  {
    SplitTrailingComma(csv);
    var tokens := Split(csv + ",");
    assert !IsDecimal(tokens[|tokens| - 1]);
  }

  /** Worked examples of success: order and duplicates are kept, and a
      single index is a one-element list. */
  lemma ExamplesAccepted()
    ensures ParseCpuAffinity("0,2,4") == Success([0, 2, 4])
    ensures ParseCpuAffinity("2,2,0") == Success([2, 2, 0])
    ensures ParseCpuAffinity("1") == Success([1])
  {
    assert Render([0, 2, 4]) == "0,2,4";
    ParseRender([0, 2, 4]);
    assert Render([2, 2, 0]) == "2,2,0";
    ParseRender([2, 2, 0]);
    assert Render([1]) == "1";
    ParseRender([1]);
  }

  /** Worked examples of failure: "", "0," and "a,b" fail as a whole, each
      on its first offending token. */
  lemma ExamplesRejected()
    ensures ParseCpuAffinity("") == Failure(InvalidLiteral(0, ""))
    ensures ParseCpuAffinity("0,") == Failure(InvalidLiteral(1, ""))
    ensures ParseCpuAffinity("a,b") == Failure(InvalidLiteral(0, "a"))
  {
    SplitTrailingComma("0");
    assert "0" + "," == "0,";
    SplitCommaFree("0");
    SplitFirstToken("a", "b");
    assert "a" + "," + "b" == "a,b";
    SplitCommaFree("b");
  }
}
