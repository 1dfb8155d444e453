/** The two cell converters the index builder applies to each catalogue row: `safe`,
    which turns a missing cell into the empty string, and `safe_int`, a total parser
    that reads a cell as an integer or falls back to 0.

    A cell is modelled by its string form (`str(x)`), or `None` when pandas reports it
    missing (NaN or None). */
module VectorDb {
  import opened Basics
  import opened Text

  /** `safe`: the empty string for a missing cell, its string form otherwise. */
  function Safe(x: Option<string>): (r: string)
    ensures x.None? ==> r == ""
    ensures x.Some? ==> r == x.value
  {
    x.GetOr("")
  }

  /** What the pattern `\d` matches (ASCII digits). */
  predicate IsDigit(c: char) {
    '0' <= c <= '9'
  }

  predicate AllDigits(s: string) {
    forall i :: 0 <= i < |s| ==> IsDigit(s[i])
  }

  /** The value of a digit character (meaningful for digits only). */
  function DigitValue(c: char): int {
    c as int - '0' as int
  }

  /** The number a run of decimal digits denotes (meaningful for digits only). */
  function DigitsValue(s: string): int {
    if s == [] then 0 else 10 * DigitsValue(s[..|s| - 1]) + DigitValue(s[|s| - 1])
  }

  /** The length of the run of digits that starts `s`. */
  function DigitRun(s: string): (n: nat)
    ensures n <= |s|
  {
    if s != [] && IsDigit(s[0]) then 1 + DigitRun(s[1..]) else 0
  }

  /** `DigitRun` stops at the first character that is not a digit. */
  lemma {:induction false} DigitRunSpec(s: string)
    ensures AllDigits(s[..DigitRun(s)])
    ensures DigitRun(s) < |s| ==> !IsDigit(s[DigitRun(s)])
  {
    if s != [] && IsDigit(s[0]) {
      DigitRunSpec(s[1..]);
      var n := DigitRun(s);
      forall i | 0 <= i < n
        ensures IsDigit(s[..n][i])
      {
        if i > 0 {
          assert s[..n][i] == s[1..][..n - 1][i - 1];
        }
      }
    }
  }

  /** A run of digits followed by a non-digit (or nothing) is exactly that run long. */
  lemma {:induction false} DigitRunAppend(a: string, t: string)
    requires AllDigits(a)
    requires t == [] || !IsDigit(t[0])
    ensures DigitRun(a + t) == |a|
  {
    if a == [] {
      assert a + t == t;
    } else {
      assert (a + t)[1..] == a[1..] + t;
      DigitRunAppend(a[1..], t);
    }
  }

  /** The unsigned part of `\d+(\.\d+)?`, as `int(float(...))` reads it: the integer
      digits, with any fraction dropped. */
  function ParseUnsigned(body: string): Option<int> {
    var n := DigitRun(body);
    if n == 0 then None
    else if n == |body| then Some(DigitsValue(body[..n]))
    else if body[n] == '.' && n + 1 < |body| && AllDigits(body[n + 1..]) then Some(DigitsValue(body[..n]))
    else None
  }

  predicate IsSign(c: char) {
    c == '+' || c == '-'
  }

  /** The unsigned result with its sign applied. */
  function Signed(negative: bool, v: Option<int>): Option<int> {
    match v
    case None => None
    case Some(n) => Some(if negative then -n else n)
  }

  /** `int(float(s))` when `s` fully matches `[+-]?\d+(\.\d+)?`, and `None` when it does
      not. */
  function ParseDecimal(s: string): Option<int> {
    if s != [] && IsSign(s[0]) then Signed(s[0] == '-', ParseUnsigned(s[1..]))
    else Signed(false, ParseUnsigned(s))
  }

  /** `"." + frac` when there is a fraction. */
  function FractionText(frac: string): string {
    if frac == "" then "" else "." + frac
  }

  /** `s` is the sign `sign`, the digits `whole` and the fraction digits `frac` of a
      full match of `[+-]?\d+(\.\d+)?`; an empty `frac` means no fraction. */
  predicate IsDecimal(s: string, sign: string, whole: string, frac: string) {
    && (sign == "" || sign == "+" || sign == "-")
    && |whole| > 0 && AllDigits(whole) && AllDigits(frac)
    && s == sign + (whole + FractionText(frac))
  }

  /** The value `int(float(s))` gives such a match: the integer part, negated after a
      minus sign, i.e. the decimal truncated toward zero. */
  function DecimalValue(sign: string, whole: string): int {
    if sign == "-" then -DigitsValue(whole) else DigitsValue(whole)
  }

  lemma ParseUnsignedComplete(body: string, whole: string, frac: string)
    requires |whole| > 0 && AllDigits(whole) && AllDigits(frac)
    requires body == whole + FractionText(frac)
    ensures ParseUnsigned(body) == Some(DigitsValue(whole))
  {
    DigitRunAppend(whole, FractionText(frac));
    assert body[..|whole|] == whole;
    if frac != "" {
      assert body[|whole|] == '.';
      assert body[|whole| + 1..] == frac;
    }
  }

  /** Every full match of the pattern parses, to its truncated value. */
  lemma {:induction false} ParseDecimalComplete(s: string, sign: string, whole: string, frac: string)
    requires IsDecimal(s, sign, whole, frac)
    ensures ParseDecimal(s) == Some(DecimalValue(sign, whole))
  {
    if sign == "" {
      UnsignedComplete(s, whole, frac);
    } else {
      SignedComplete(s, sign, whole, frac);
    }
  }

  lemma UnsignedComplete(s: string, whole: string, frac: string)
    requires IsDecimal(s, "", whole, frac)
    ensures ParseDecimal(s) == Some(DigitsValue(whole))
  {
    ParseUnsignedComplete(s, whole, frac);
    UnsignedDecimal(s, whole[0], DigitsValue(whole));
  }

  lemma SignedComplete(s: string, sign: string, whole: string, frac: string)
    requires IsDecimal(s, sign, whole, frac) && sign != ""
    ensures ParseDecimal(s) == Some(DecimalValue(sign, whole))
  {
    var body := whole + FractionText(frac);
    ParseUnsignedComplete(body, whole, frac);
    SignedDecimal(s, sign, body, DigitsValue(whole));
  }

  /** Text that starts with a digit is parsed without a sign. */
  lemma UnsignedDecimal(s: string, first: char, v: int)
    requires s != [] && s[0] == first && IsDigit(first)
    requires ParseUnsigned(s) == Some(v)
    ensures ParseDecimal(s) == Some(v)
  {
  }

  /** After a sign, the rest is parsed unsigned and the sign applied. */
  lemma SignedDecimal(s: string, sign: string, body: string, v: int)
    requires sign == "+" || sign == "-"
    requires s == sign + body
    requires ParseUnsigned(body) == Some(v)
    ensures ParseDecimal(s) == Some(if sign == "-" then -v else v)
  {
    assert s[1..] == body;
  }

  /** The integer digits at the front of `body`. */
  function WholeOf(body: string): string {
    body[..DigitRun(body)]
  }

  /** The fraction digits of `body`: what follows the point after the integer digits. */
  function FracOf(body: string): string {
    var n := DigitRun(body);
    if n + 1 <= |body| then body[n + 1..] else ""
  }

  lemma UnsignedSound(body: string, v: int)
    requires ParseUnsigned(body) == Some(v)
    ensures IsDecimal(body, "", WholeOf(body), FracOf(body)) && v == DigitsValue(WholeOf(body))
  {
    var n := DigitRun(body);
    DigitRunSpec(body);
    var whole, frac := WholeOf(body), FracOf(body);
    if n < |body| {
      assert body == whole + ("." + frac);
    }
    assert body == "" + (whole + FractionText(frac));
  }

  lemma SignedSound(s: string, n: int)
    requires s != [] && IsSign(s[0]) && ParseDecimal(s) == Some(n)
    ensures var body := s[1..];
            IsDecimal(s, s[..1], WholeOf(body), FracOf(body)) && n == DecimalValue(s[..1], WholeOf(body))
  {
    var body := s[1..];
    UnsignedSound(body, ParseUnsigned(body).value);
    assert s == s[..1] + body;
    assert s[..1] == [s[0]];
  }

  /** Everything that parses is a full match of the pattern, and parses to its
      truncated value. */
  lemma {:induction false} ParseDecimalSound(s: string, n: int)
    requires ParseDecimal(s) == Some(n)
    ensures exists sign, whole, frac :: IsDecimal(s, sign, whole, frac) && n == DecimalValue(sign, whole)
  {
    if s != [] && IsSign(s[0]) {
      SignedSound(s, n);
      var body := s[1..];
      assert IsDecimal(s, s[..1], WholeOf(body), FracOf(body));
    } else {
      UnsignedSound(s, n);
      assert IsDecimal(s, "", WholeOf(s), FracOf(s));
    }
  }

  /** `safe_int`: 0 for a missing cell; otherwise the trimmed text read as
      `int(float(...))` when it fully matches `[+-]?\d+(\.\d+)?`, and 0 when it does
      not. */
  function SafeInt(x: Option<string>): int {
    match x
    case None => 0
    case Some(t) => ParseDecimal(Strip(t)).GetOr(0)
  }

  /** `safe_int` in terms of the pattern: a trimmed cell matching it gives its
      truncated value; a missing cell, or one that does not match, gives 0. */
  lemma SafeIntSpec(x: Option<string>, sign: string, whole: string, frac: string)
    ensures x.None? ==> SafeInt(x) == 0
    ensures x.Some? && IsDecimal(Strip(x.value), sign, whole, frac) ==> SafeInt(x) == DecimalValue(sign, whole)
    ensures x.Some? && (forall sg, w, f :: !IsDecimal(Strip(x.value), sg, w, f)) ==> SafeInt(x) == 0
  {
    if x.Some? {
      var s := Strip(x.value);
      if IsDecimal(s, sign, whole, frac) {
        ParseDecimalComplete(s, sign, whole, frac);
      }
      if ParseDecimal(s).Some? {
        ParseDecimalSound(s, ParseDecimal(s).value);
      }
    }
  }

  /** Whitespace around the cell is ignored. */
  lemma SafeIntIgnoresPadding(ws1: string, t: string, ws2: string)
    requires AllSpace(ws1) && AllSpace(ws2)
    ensures SafeInt(Some(ws1 + t + ws2)) == SafeInt(Some(t))
  {
    StripPadding(ws1, t, ws2);
  }

  /** Reading back what `safe` produced gives the same integer as reading the cell. */
  lemma SafeIntOfSafe(x: Option<string>)
    ensures SafeInt(Some(Safe(x))) == SafeInt(x)
  {
    if x.None? {
      StrippedIsFixed("");
    }
  }

  function DigitChar(d: nat): (c: char)
    requires d < 10
    ensures IsDigit(c) && DigitValue(c) == d
  {
    ('0' as int + d) as char
  }

  /** The decimal numeral of `n`, as `str(n)` writes it. */
  function ShowNat(n: nat): (r: string)
    ensures |r| > 0
  {
    if n < 10 then [DigitChar(n)] else ShowNat(n / 10) + [DigitChar(n % 10)]
  }

  /** A numeral consists of digits and denotes its number. */
  lemma {:induction false} ShowNatValue(n: nat)
    ensures AllDigits(ShowNat(n)) && DigitsValue(ShowNat(n)) == n
  {
    if n >= 10 {
      ShowNatValue(n / 10);
      var r := ShowNat(n);
      assert r[..|r| - 1] == ShowNat(n / 10);
    }
  }

  /** `str(n)` for an integer. */
  function ShowInt(n: int): (r: string)
    ensures |r| > 0
  {
    if n < 0 then "-" + ShowNat(-n) else ShowNat(n)
  }

  /** An integer's numeral, with or without a fraction, matches the pattern with the
      integer's sign and digits. */
  lemma ShowIntDecimal(n: int, frac: string)
    requires AllDigits(frac)
    ensures IsDecimal(ShowInt(n) + FractionText(frac), if n < 0 then "-" else "", ShowNat(if n < 0 then -n else n), frac)
  {
    var m: nat := if n < 0 then -n else n;
    var sign := if n < 0 then "-" else "";
    ShowNatValue(m);
    assert ShowInt(n) == sign + ShowNat(m);
    SignedNumeral(sign, ShowNat(m), frac);
  }

  lemma SignedNumeral(sign: string, whole: string, frac: string)
    requires sign == "" || sign == "-"
    requires |whole| > 0 && AllDigits(whole) && AllDigits(frac)
    ensures IsDecimal(sign + whole + FractionText(frac), sign, whole, frac)
  {
    assert sign + whole + FractionText(frac) == sign + (whole + FractionText(frac));
  }

  /** A numeral starts with a sign or a digit and ends with a digit. */
  lemma ShowIntEnds(n: int)
    ensures Stripped(ShowInt(n))
  {
    var m: nat := if n < 0 then -n else n;
    ShowNatValue(m);
    var a := ShowNat(m);
    assert IsDigit(a[0]) && IsDigit(a[|a| - 1]);
    if n < 0 {
      assert ShowInt(n)[|ShowInt(n)| - 1] == a[|a| - 1];
    }
  }

  /** Such a numeral has no whitespace to trim. */
  lemma ShowIntStripped(n: int, frac: string)
    requires AllDigits(frac)
    ensures Stripped(ShowInt(n) + FractionText(frac))
  {
    ShowIntEnds(n);
    if frac != "" {
      assert IsDigit(frac[|frac| - 1]);
      assert FractionText(frac)[|FractionText(frac)| - 1] == frac[|frac| - 1];
    }
    StrippedAppend(ShowInt(n), FractionText(frac));
  }

  /** Round trip: an integer written out is read back as itself. */
  lemma SafeIntShowInt(n: int)
    ensures SafeInt(Some(ShowInt(n))) == n
  {
    var m: nat := if n < 0 then -n else n;
    ShowIntDecimal(n, "");
    ShowIntStripped(n, "");
    assert ShowInt(n) + FractionText("") == ShowInt(n);
    StrippedIsFixed(ShowInt(n));
    ParseDecimalComplete(ShowInt(n), if n < 0 then "-" else "", ShowNat(m), "");
    ShowNatValue(m);
  }

  /** A fraction is dropped: the integer part is kept with its sign, so negative values
      are truncated toward zero. */
  lemma SafeIntTruncates(n: int, frac: string)
    requires |frac| > 0 && AllDigits(frac)
    ensures SafeInt(Some(ShowInt(n) + "." + frac)) == n
  {
    var m: nat := if n < 0 then -n else n;
    var s := ShowInt(n) + FractionText(frac);
    assert s == ShowInt(n) + "." + frac;
    ShowIntDecimal(n, frac);
    ShowIntStripped(n, frac);
    StrippedIsFixed(s);
    ParseDecimalComplete(s, if n < 0 then "-" else "", ShowNat(m), frac);
    ShowNatValue(m);
  }

  /** "-3.9" reads as -3, toward zero and not down to -4. */
  lemma SafeIntNegativeDecimal()
    ensures SafeInt(Some("-3.9")) == -3
  {
    assert ShowNat(3) == "3";
    assert ShowInt(-3) + "." + "9" == "-3.9";
    SafeIntTruncates(-3, "9");
  }

  /** A missing cell and text without digits read as 0. */
  lemma SafeIntMissingOrWord()
    ensures SafeInt(None) == 0
    ensures SafeInt(Some("")) == 0
    ensures SafeInt(Some("abc")) == 0
  {
    StrippedIsFixed("");
    StrippedIsFixed("abc");
  }

  /** Exponent notation is not accepted. */
  lemma SafeIntRejectsExponent()
    ensures SafeInt(Some("1e3")) == 0
  {
    StrippedIsFixed("1e3");
    DigitRunAppend("1", "e3");
    assert "1e3" == "1" + "e3";
  }

  /** A fraction needs digits on both sides of the point. */
  lemma SafeIntRejectsBareFraction()
    ensures SafeInt(Some(".5")) == 0
    ensures SafeInt(Some("1.")) == 0
  {
    StrippedIsFixed(".5");
    StrippedIsFixed("1.");
    DigitRunAppend("1", ".");
    assert "1." == "1" + ".";
  }
}
