/**
 * Number fields: `int(token)` and `str(i)` for the integer fields, and the
 * float text conversion, which stays a parameter of the model.
 */
module Numbers {
  import opened Options
  import opened Text

  predicate IsDigit(c: char) {
    '0' <= c <= '9'
  }

  predicate AllDigits(s: string) {
    forall i | 0 <= i < |s| :: IsDigit(s[i])
  }

  /**
   * The digit part Python's `int()` accepts, as a grammar: ASCII digits, with
   * single underscores allowed only between two digits.
   */
  ghost predicate IsDecimal(s: string) {
    && |s| > 0
    && IsDigit(s[0]) && IsDigit(s[|s| - 1])
    && (forall i | 0 <= i < |s| :: IsDigit(s[i]) || s[i] == '_')
    && (forall i, j | 0 <= i < j < |s| && j == i + 1 :: !(s[i] == '_' && s[j] == '_'))
  }

  /** The digits of `s` without its underscores. */
  ghost function DropUnderscores(s: string): (r: string)
    ensures (forall i | 0 <= i < |s| :: IsDigit(s[i]) || s[i] == '_') ==> AllDigits(r)
  {
    if s == [] then []
    else DropUnderscores(s[..|s| - 1]) + (if s[|s| - 1] == '_' then [] else [s[|s| - 1]])
  }

  /** The value of a string of decimal digits, most significant first. */
  function DigitsValue(s: string): nat
    requires AllDigits(s)
  {
    if s == [] then 0
    else DigitsValue(s[..|s| - 1]) * 10 + (s[|s| - 1] as int - '0' as int)
  }

  /**
   * The value of a digit string as `int()` reads it, or `None` where it raises:
   * the last digit, then, past at most one underscore, the digits before it.
   */
  function DecimalValue(s: string): Option<nat>
    decreases |s|
  {
    if s == [] || !IsDigit(s[|s| - 1]) then None
    else
      var d := s[|s| - 1] as int - '0' as int;
      if |s| == 1 then Some(d)
      else
        var init := if s[|s| - 2] == '_' then s[..|s| - 2] else s[..|s| - 1];
        match DecimalValue(init)
        case Some(v) => Some(v * 10 + d)
        case None => None
  }

  /** `int(token)` on a token without a sign. */
  function ParseNat(s: string): Option<nat> {
    DecimalValue(s)
  }

  /** Python's `int(token)` on a whitespace-free token; `None` stands for the `ValueError` it raises. */
  function ParseInt(s: string): Option<int> {
    if s != [] && (s[0] == '-' || s[0] == '+') then
      match ParseNat(s[1..])
      case Some(n) =>
        var v: int := if s[0] == '-' then -(n as int) else n;
        Some(v)
      case None => None
    else
      match ParseNat(s)
      case Some(n) => Some(n)
      case None => None
  }

  /** Dropping the last digit of a decimal string, and the underscore before it, keeps it decimal, and back. */
  lemma IsDecimalInit(s: string)
    requires |s| >= 2 && IsDigit(s[|s| - 1])
    ensures var init := if s[|s| - 2] == '_' then s[..|s| - 2] else s[..|s| - 1];
            IsDecimal(s) <==> IsDecimal(init)
  {
    var init := if s[|s| - 2] == '_' then s[..|s| - 2] else s[..|s| - 1];
    assert forall i | 0 <= i < |init| :: init[i] == s[i];
    if s[|s| - 2] == '_' {
      if IsDecimal(s) {
        assert s[|s| - 3] != '_';
      }
      if IsDecimal(init) {
        forall i, j | 0 <= i < j < |s| && j == i + 1
          ensures !(s[i] == '_' && s[j] == '_')
        {
          if j < |init| {
            assert init[i] == s[i] && init[j] == s[j];
          }
        }
      }
    }
  }

  /** `DigitsValue` read from the last digit. */
  lemma DigitsValueSnoc(ds: string, c: char)
    requires AllDigits(ds) && IsDigit(c)
    ensures AllDigits(ds + [c])
    ensures DigitsValue(ds + [c]) == DigitsValue(ds) * 10 + (c as int - '0' as int)
  {
    assert (ds + [c])[..|ds|] == ds;
  }

  /** The digits of a string ending in a digit: those of the string without it (and without an underscore before it), then it. */
  lemma DropUnderscoresInit(s: string)
    requires |s| >= 2 && IsDigit(s[|s| - 1])
    ensures var init := if s[|s| - 2] == '_' then s[..|s| - 2] else s[..|s| - 1];
            DropUnderscores(s) == DropUnderscores(init) + [s[|s| - 1]]
  {
    assert s[..|s| - 1][..|s| - 2] == s[..|s| - 2];
  }

  /** `DecimalValue` accepts exactly the grammar. */
  lemma {:induction false} DecimalValueAccepts(s: string)
    ensures DecimalValue(s).Some? <==> IsDecimal(s)
    decreases |s|
  {
    if s != [] && IsDigit(s[|s| - 1]) && |s| > 1 {
      var init := if s[|s| - 2] == '_' then s[..|s| - 2] else s[..|s| - 1];
      DecimalValueAccepts(init);
      IsDecimalInit(s);
      assert DecimalValue(s).Some? <==> DecimalValue(init).Some?;
    }
  }

  /** On a string of the grammar, `DecimalValue` is the value of the digits without the underscores. */
  lemma {:induction false} DecimalValueOfDecimal(s: string)
    requires IsDecimal(s)
    ensures DecimalValue(s) == Some(DigitsValue(DropUnderscores(s)))
    decreases |s|
  {
    var c := s[|s| - 1];
    if |s| == 1 {
      assert DropUnderscores(s) == [] + [c];
      DigitsValueSnoc([], c);
      assert DecimalValue(s) == Some(DigitsValue(DropUnderscores(s)));
    } else {
      var init := if s[|s| - 2] == '_' then s[..|s| - 2] else s[..|s| - 1];
      IsDecimalInit(s);
      DecimalValueOfDecimal(init);
      var ds := DropUnderscores(init);
      assert DecimalValue(s) == Some(DigitsValue(ds) * 10 + (c as int - '0' as int));
      DropUnderscoresInit(s);
      DigitsValueSnoc(ds, c);
      assert DecimalValue(s) == Some(DigitsValue(DropUnderscores(s)));
    }
  }

  /** `DecimalValue` accepts exactly the grammar, and its value is that of the digits without the underscores. */
  lemma DecimalValueSpec(s: string)
    ensures DecimalValue(s).Some? <==> IsDecimal(s)
    ensures IsDecimal(s) ==> DecimalValue(s) == Some(DigitsValue(DropUnderscores(s)))
  {
    DecimalValueAccepts(s);
    if IsDecimal(s) {
      DecimalValueOfDecimal(s);
    }
  }

  function DigitChar(d: nat): (c: char)
    requires d < 10
    ensures IsDigit(c) && c as int - '0' as int == d
  {
    ('0' as int + d) as char
  }

  /** Decimal digits of `n` without leading zeros, as `str(n)`. */
  function FormatNat(n: nat): (s: string)
    ensures |s| > 0 && AllDigits(s)
  {
    if n < 10 then [DigitChar(n)] else FormatNat(n / 10) + [DigitChar(n % 10)]
  }

  /** Python's `str(i)` for an `int`. */
  function FormatInt(i: int): (s: string)
    ensures IsToken(s)
  {
    if i < 0 then "-" + FormatNat(-i) else FormatNat(i)
  }

  lemma {:induction false} FormatNatValue(n: nat)
    ensures DigitsValue(FormatNat(n)) == n
  {
    if n >= 10 {
      var s := FormatNat(n);
      assert s[..|s| - 1] == FormatNat(n / 10);
      FormatNatValue(n / 10);
    }
  }

  /** A non-empty string of digits alone is read digit by digit. */
  lemma {:induction false} DecimalValueOfDigits(s: string)
    requires s != [] && AllDigits(s)
    ensures DecimalValue(s) == Some(DigitsValue(s))
    decreases |s|
  {
    if |s| > 1 {
      DecimalValueOfDigits(s[..|s| - 1]);
    }
  }

  /** `int(str(i)) == i`: the integer fields survive export and re-parsing. */
  lemma IntRoundTrip(i: int)
    ensures ParseInt(FormatInt(i)) == Some(i)
  {
    var n: nat := if i < 0 then -i else i;
    NatRoundTrip(n);
    if i < 0 {
      assert FormatInt(i)[0] == '-' && FormatInt(i)[1..] == FormatNat(n);
    } else {
      assert FormatInt(i)[0] != '-' && FormatInt(i)[0] != '+';
    }
  }

  lemma NatRoundTrip(n: nat)
    ensures ParseNat(FormatNat(n)) == Some(n)
  {
    FormatNatValue(n);
    DecimalValueOfDigits(FormatNat(n));
  }

  /** Different integers are written differently. */
  lemma FormatIntInjective(i: int, j: int)
    requires FormatInt(i) == FormatInt(j)
    ensures i == j
  {
    IntRoundTrip(i);
    IntRoundTrip(j);
  }

  /**
   * Python's `float(token)` and the formatting an f-string applies to a float.
   * Neither is modelled: a parser or exporter takes them as a parameter, and a
   * statement that needs them to agree takes `RoundTrips` of the values involved as a hypothesis.
   */
  datatype FloatSyntax = FloatSyntax(parse: string -> Option<real>, format: real -> string)

  /** Formatting `v` gives one token that parses back to `v`. */
  predicate RoundTrips(fs: FloatSyntax, v: real) {
    fs.parse(fs.format(v)) == Some(v) && IsToken(fs.format(v))
  }
}
