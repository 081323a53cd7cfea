// Reading a recognised value text: the decimal number it spells, its flat
// and percent readings, and the ordered list of distinct readings of a
// multi-part value that the matcher tries in turn.

module OcrValues {
  import opened Base
  import opened OcrText

  /**
   * The readings of one value text: the integer it spells when it is
   * integral, ten times it rounded half up (the tenths of a percent the
   * tables store), and whether a `%` sign was seen.
   */
  datatype ValueCandidates = ValueCandidates(flat: Option<int>, percent: Option<int>, explicitPercent: bool)

  function Pow10(n: nat): (r: nat)
    ensures r >= 1
  {
    if n == 0 then 1 else 10 * Pow10(n - 1)
  }

  /** The position of the first `.`, or the length when there is none. */
  function DotIndex(s: string): (r: nat)
    ensures r <= |s| && (r < |s| ==> s[r] == '.')
    ensures forall i :: 0 <= i < r ==> s[i] != '.'
  {
    if s == [] || s[0] == '.' then 0 else 1 + DotIndex(s[1..])
  }

  /** The value of the digits after the decimal point. */
  function FractionValue(fraction: string): real
    requires AllDigits(fraction)
  {
    DigitsValue(fraction) as real / Pow10(|fraction|) as real
  }

  /** Some character of the text is a digit. */
  predicate HasDigit(s: string) { exists i :: 0 <= i < |s| && IsDigit(s[i]) }

  /** A digit among characters that all occur in `s` is a digit of `s`. */
  lemma DigitWithin(t: string, s: string)
    requires HasDigit(t) && forall c :: c in t ==> c in s
    ensures HasDigit(s)
  {
    var i :| 0 <= i < |t| && IsDigit(t[i]);
    assert t[i] in t;
    var j :| 0 <= j < |s| && s[j] == t[i];
  }

  /** The value of unsigned digits with at most one `.`, and at least one digit. */
  function Magnitude(body: string): (r: Option<real>)
    ensures r.Some? ==> HasDigit(body)
  {
    var dot := DotIndex(body);
    if dot == |body| then
      if body != [] && AllDigits(body) then
        assert IsDigit(body[0]);
        Some(DigitsValue(body) as real)
      else None
    else
      var whole := body[..dot];
      var fraction := body[dot + 1..];
      if AllDigits(whole) && AllDigits(fraction) && |whole| + |fraction| > 0 then
        assert |whole| > 0 ==> whole[0] == body[0] && IsDigit(body[0]);
        assert |whole| == 0 ==> fraction[0] == body[dot + 1] && IsDigit(body[dot + 1]);
        Some(DigitsValue(whole) as real + FractionValue(fraction))
      else None
  }

  /** The position of the first exponent mark `e` or `E`, or the length when there is none. */
  function ExponentIndex(s: string): (r: nat)
    ensures r <= |s| && (r < |s| ==> s[r] == 'e' || s[r] == 'E')
    ensures forall i :: 0 <= i < r ==> s[i] != 'e' && s[i] != 'E'
  {
    if s == [] || s[0] == 'e' || s[0] == 'E' then 0 else 1 + ExponentIndex(s[1..])
  }

  /** An exponent: an optional sign, then at least one digit. */
  function ExponentValue(s: string): (r: Option<int>)
    ensures r.Some? && AllDigits(s) ==> r.value == DigitsValue(s)
  {
    if |s| > 0 && (s[0] == '-' || s[0] == '+') then
      var digits := s[1..];
      if digits != [] && AllDigits(digits) then
        var n: int := DigitsValue(digits);
        Some(if s[0] == '-' then -n else n)
      else None
    else if s != [] && AllDigits(s) then Some(DigitsValue(s))
    else None
  }

  /** `m·10^x`. */
  function Scale(m: real, x: int): real
  {
    if x >= 0 then m * Pow10(x) as real else m / Pow10(-x) as real
  }

  /** An unsigned mantissa, then an optional exponent. */
  function Scientific(body: string): (r: Option<real>)
    ensures r.Some? ==> HasDigit(body)
  {
    var e := ExponentIndex(body);
    if e == |body| then Magnitude(body)
    else
      match Magnitude(body[..e])
      case None => None
      case Some(m) =>
        assert forall c :: c in body[..e] ==> c in body;
        DigitWithin(body[..e], body);
        match ExponentValue(body[e + 1..])
        case None => None
        case Some(x) => Some(Scale(m, x))
  }

  /**
   * `Decimal(text)` for a finite literal: the text is stripped of white
   * space at both ends, then its underscores are dropped, then an optional
   * sign, digits with at most one `.` and at least one digit, and an
   * optional exponent.
   */
  function ParseDecimal(s: string): (r: Option<real>)
    ensures r.Some? ==> HasDigit(s)
  {
    var u := Strip(s);
    var r := ParseNumeral(RemoveChar(u, '_'));
    if r.Some? then RemovedDigit(u, '_'); StrippedDigit(s); r else r
  }

  /** The numeral once stripped and without underscores: an optional sign, then the number. */
  function ParseNumeral(t: string): (r: Option<real>)
    ensures r.Some? ==> HasDigit(t)
  {
    if |t| > 0 && (t[0] == '-' || t[0] == '+') then
      match Scientific(t[1..])
      case None => None
      case Some(m) => SignedDigit(t); if t[0] == '-' then Some(-m) else Some(m)
    else Scientific(t)
  }

  /** A clean numeral, already stripped and without underscores, is parsed as it stands. */
  lemma CleanNumeral(s: string)
    requires s == [] || (!IsSpace(s[0]) && !IsSpace(s[|s| - 1]))
    requires RemoveChar(s, '_') == s
    ensures ParseDecimal(s) == ParseNumeral(s)
  {
    StripStripped(s);
  }

  /** A digit of the stripped text is a digit of the text. */
  lemma StrippedDigit(s: string)
    requires HasDigit(Strip(s))
    ensures HasDigit(s)
  {
    var u := Strip(s);
    forall c | c in u ensures c in s {
      var i :| 0 <= i < |u| && u[i] == c;
    }
    DigitWithin(u, s);
  }

  /** White space around the text does not change the number. */
  lemma SurroundingSpaceIgnored(s: string)
    ensures ParseDecimal(Strip(s)) == ParseDecimal(s)
  {
    StripStripped(Strip(s));
  }

  /** A digit of the text with a character removed is a digit of the text. */
  lemma RemovedDigit(s: string, a: char)
    requires HasDigit(RemoveChar(s, a))
    ensures HasDigit(s)
  {
    RemoveCharWithin(s, a);
    DigitWithin(RemoveChar(s, a), s);
  }

  /** A digit after the sign is a digit of the text. */
  lemma SignedDigit(t: string)
    requires |t| > 0 && HasDigit(t[1..])
    ensures HasDigit(t)
  {
    var i :| 0 <= i < |t| - 1 && IsDigit(t[1..][i]);
    assert t[i + 1] == t[1..][i];
  }

  /** In a text without white space, underscores do not change the number. */
  lemma UnderscoresIgnored(s: string)
    requires forall i :: 0 <= i < |s| ==> !IsSpace(s[i])
    ensures ParseDecimal(s) == ParseDecimal(RemoveChar(s, '_'))
  {
    var t := RemoveChar(s, '_');
    RemoveCharWithin(s, '_');
    if t != [] {
      assert t[0] in t && t[|t| - 1] in t;
    }
    if s != [] {
      assert !IsSpace(s[0]) && !IsSpace(s[|s| - 1]);
    }
    StripStripped(s);
    StripStripped(t);
    RemoveCharTwice(s, '_');
  }

  /** `Decimal` strips before it drops underscores, so `"_ 5"` is no number although `"5"` is. */
  lemma StripBeforeUnderscores()
    ensures ParseDecimal("_ 5") == None && ParseDecimal(RemoveChar("_ 5", '_')) == Some(5.0)
  {
    SpacedNumeralUnread();
    UnderscoreDropped();
    SpacedFiveRead();
  }

  lemma SpacedFiveRead()
    ensures ParseDecimal(" 5") == Some(5.0)
  {
    var t := " 5";
    OneSpaceStripped(t);
    assert t[1..] == "5";
    SurroundingSpaceIgnored(t);
    DigitsAreNumber("5");
    assert DigitsValue("5") == 5;
  }

  /** One leading space before a text with no white space at its ends is all that strip removes. */
  lemma OneSpaceStripped(t: string)
    requires |t| >= 2 && IsSpace(t[0]) && !IsSpace(t[1]) && !IsSpace(t[|t| - 1])
    ensures Strip(t) == t[1..]
  {
    var u := t[1..];
    assert LeadingSpaces(u) == 0;
    assert LeadingSpaces(t) == 1;
    assert KeptLength(u) == |u|;
    assert u[..|u|] == u;
  }

  lemma SpacedNumeralUnread()
    ensures ParseDecimal("_ 5") == None
  {
    var s := "_ 5";
    assert !IsSpace(s[0]) && !IsSpace(s[|s| - 1]);
    StripStripped(s);
    UnderscoreDropped();
    var t := " 5";
    SpaceLedUnread(t);
  }

  /** A numeral that starts with white space is no number. */
  lemma SpaceLedUnread(t: string)
    requires |t| > 0 && IsSpace(t[0])
    ensures ParseNumeral(t) == None
  {
    assert t[0] != '-' && t[0] != '+';
    var e := ExponentIndex(t);
    if e == |t| {
      SpaceLedMagnitude(t);
    } else {
      assert e > 0;
      assert t[..e][0] == t[0];
      SpaceLedMagnitude(t[..e]);
    }
  }

  /** A mantissa that starts with white space has no magnitude. */
  lemma SpaceLedMagnitude(b: string)
    requires |b| > 0 && IsSpace(b[0])
    ensures Magnitude(b) == None
  {
    var dot := DotIndex(b);
    assert !IsDigit(b[0]) && b[0] != '.';
    if dot < |b| {
      assert b[..dot][0] == b[0];
    }
  }

  lemma UnderscoreDropped()
    ensures RemoveChar("_ 5", '_') == " 5" && RemoveChar(" 5", '_') == " 5"
  {
    var s := "_ 5";
    assert s[..2] == "_ " && "_ "[..1] == "_" && "_"[..0] == [];
    assert RemoveChar("_", '_') == [];
    assert RemoveChar("_ ", '_') == " ";
    var t := " 5";
    assert t[..1] == " " && " "[..0] == [];
  }

  lemma {:induction false} RemoveCharTwice(s: string, a: char)
    ensures RemoveChar(RemoveChar(s, a), a) == RemoveChar(s, a)
  {
    if s != [] {
      RemoveCharTwice(s[..|s| - 1], a);
      var t := RemoveChar(s[..|s| - 1], a);
      if s[|s| - 1] != a {
        var u := t + [s[|s| - 1]];
        assert RemoveChar(s, a) == u;
        assert u[..|u| - 1] == t && u[|u| - 1] == s[|s| - 1];
        assert RemoveChar(u, a) == RemoveChar(t, a) + [s[|s| - 1]];
      } else {
        assert RemoveChar(s, a) == t + [];
        assert t + [] == t;
      }
    }
  }

  /** Digits, `e`, digits: the first number scaled by ten to the second. */
  lemma ExponentForm(w: string, x: string)
    requires w != [] && AllDigits(w) && x != [] && AllDigits(x)
    ensures ParseDecimal(w + "e" + x) == Some(Scale(DigitsValue(w) as real, DigitsValue(x)))
  {
    ExponentEnds(w, x);
    CleanNumeral(w + "e" + x);
    ExponentNumeral(w, x);
  }

  /** `w + "e" + x` is a clean numeral without a sign. */
  lemma ExponentEnds(w: string, x: string)
    requires w != [] && AllDigits(w) && x != [] && AllDigits(x)
    ensures var s := w + "e" + x;
      && RemoveChar(s, '_') == s && s[0] != '-' && s[0] != '+' && !IsSpace(s[0]) && !IsSpace(s[|s| - 1])
  {
    var s := w + "e" + x;
    ExponentText(w, x);
    assert IsDigit(s[0]) && s[|s| - 1] == x[|x| - 1] && IsDigit(x[|x| - 1]);
  }

  lemma ExponentNumeral(w: string, x: string)
    requires w != [] && AllDigits(w) && x != [] && AllDigits(x)
    ensures ParseNumeral(w + "e" + x) == Some(Scale(DigitsValue(w) as real, DigitsValue(x)))
  {
    var s := w + "e" + x;
    ExponentText(w, x);
    assert s[0] != '-' && s[0] != '+';
    assert ParseNumeral(s) == Scientific(s);
    DotFree(w);
    assert Magnitude(w) == Some(DigitsValue(w) as real);
    assert ExponentValue(x) == Some(DigitsValue(x));
  }

  /** How `w + "e" + x` splits: no underscore, a digit first, the mark between the two parts. */
  lemma ExponentText(w: string, x: string)
    requires w != [] && AllDigits(w) && AllDigits(x)
    ensures var s := w + "e" + x;
      && RemoveChar(s, '_') == s && s[0] == w[0] && ExponentIndex(s) == |w|
      && s[..|w|] == w && s[|w| + 1..] == x
  {
    var s := w + "e" + x;
    assert '_' !in s by {
      forall i | 0 <= i < |s| ensures s[i] != '_' {
        if i < |w| {
          assert s[i] == w[i];
        } else if i > |w| {
          assert s[i] == x[i - |w| - 1];
        }
      }
    }
    RemoveCharAbsent(s, '_');
    ExponentAt(w, x);
    assert s[..|w|] == w && s[|w| + 1..] == x;
  }

  lemma ExponentAt(w: string, x: string)
    requires AllDigits(w)
    ensures ExponentIndex(w + "e" + x) == |w|
    decreases |w|
  {
    if w != [] {
      assert (w + "e" + x)[1..] == w[1..] + "e" + x;
      ExponentAt(w[1..], x);
    }
  }

  lemma DotFree(w: string)
    requires AllDigits(w)
    ensures DotIndex(w) == |w|
  {
    assert forall i :: 0 <= i < |w| ==> w[i] != '.';
  }

  /** A text of digits and points has neither underscores nor an exponent. */
  lemma PlainNumeral(s: string)
    requires forall i :: 0 <= i < |s| ==> IsDigit(s[i]) || s[i] == '.'
    ensures RemoveChar(s, '_') == s && ExponentIndex(s) == |s|
  {
    assert '_' !in s;
    RemoveCharAbsent(s, '_');
    forall i | 0 <= i < |s| ensures s[i] != 'e' && s[i] != 'E' {
      assert IsDigit(s[i]) || s[i] == '.';
    }
    ExponentFree(s);
  }

  lemma ExponentFree(s: string)
    requires forall i :: 0 <= i < |s| ==> s[i] != 'e' && s[i] != 'E'
    ensures ExponentIndex(s) == |s|
  {
  }

  function IsIntegral(v: real): (r: bool)
    ensures r <==> Round(v) as real == v
  {
    RoundWhole(v.Floor);
    v == v.Floor as real
  }

  lemma RoundWhole(n: int)
    ensures Round(n as real) == n
  {
  }

  /** The readings of a parsed number (or of none). */
  function Readings(number: Option<real>, explicitPercent: bool): (r: ValueCandidates)
    ensures r.explicitPercent == explicitPercent
    ensures r.flat.Some? ==> r.percent == Some(10 * r.flat.value)
  {
    match number
    case None => ValueCandidates(None, None, explicitPercent)
    case Some(v) =>
      var flat := if IsIntegral(v) then Some(v.Floor) else None;
      if IsIntegral(v) then
        assert v * 10.0 == (10 * v.Floor) as real;
        RoundWhole(10 * v.Floor);
        ValueCandidates(flat, Some(Round(v * 10.0)), explicitPercent)
      else
        ValueCandidates(flat, Some(Round(v * 10.0)), explicitPercent)
  }

  /**
   * `_parse_single_value`. An integral reading is always accompanied by
   * the percent reading ten times as large.
   */
  function ParseSingleValue(text: string): (r: ValueCandidates)
    ensures r.explicitPercent <==> '%' in CleanupValueToken(text)
    ensures r.flat.Some? ==> r.percent == Some(10 * r.flat.value)
  {
    var cleaned := CleanupValueToken(text);
    var explicitPercent := '%' in cleaned;
    var numeric := RemoveChar(cleaned, '%');
    if numeric == [] then ValueCandidates(None, None, explicitPercent)
    else Readings(ParseDecimal(numeric), explicitPercent)
  }

  function ParsedNumber(text: string): Option<real>
  {
    var numeric := RemoveChar(CleanupValueToken(text), '%');
    if numeric == [] then None else ParseDecimal(numeric)
  }

  /**
   * Both directions of the reading rule: a percent reading exists exactly
   * when the number parses, and it is ten times the number rounded half
   * up; a flat reading exists exactly when the number is integral.
   */
  lemma ReadingsOfNumber(text: string)
    ensures ParseSingleValue(text).percent.Some? <==> ParsedNumber(text).Some?
    ensures ParsedNumber(text).Some? ==> ParseSingleValue(text).percent == Some(Round(ParsedNumber(text).value * 10.0))
    ensures ParseSingleValue(text).flat.Some? <==> ParsedNumber(text).Some? && IsIntegral(ParsedNumber(text).value)
    ensures ParseSingleValue(text).flat.Some? ==> ParseSingleValue(text).flat.value as real == ParsedNumber(text).value
  {
    ReadsParsedNumber(text);
    ReadingsFacts(ParsedNumber(text), '%' in CleanupValueToken(text));
  }

  /** The readings of a text are those of the number it parses to. */
  lemma ReadsParsedNumber(text: string)
    ensures ParseSingleValue(text) == Readings(ParsedNumber(text), '%' in CleanupValueToken(text))
  {
  }

  lemma ReadingsFacts(number: Option<real>, explicitPercent: bool)
    ensures Readings(number, explicitPercent).percent.Some? <==> number.Some?
    ensures number.Some? ==> Readings(number, explicitPercent).percent == Some(Round(number.value * 10.0))
    ensures Readings(number, explicitPercent).flat.Some? <==> number.Some? && IsIntegral(number.value)
    ensures Readings(number, explicitPercent).flat.Some? ==> Readings(number, explicitPercent).flat.value as real == number.value
  {
  }

  lemma DigitsSettled(s: string)
    requires AllDigits(s)
    ensures CleanupValueToken(s) == s && '%' !in s && '.' !in s
  {
    assert forall i :: 0 <= i < |s| ==> Settled(s[i]);
    CleanCharsSettled(s);
    DigitsUnspaced(s);
    StripStripped(s);
  }

  lemma DigitsUnspaced(s: string)
    requires AllDigits(s)
    ensures s == [] || (!IsSpace(s[0]) && !IsSpace(s[|s| - 1]))
  {
    if s != [] {
      assert IsDigit(s[0]) && IsDigit(s[|s| - 1]);
    }
  }

  lemma DigitsAreNumber(s: string)
    requires s != [] && AllDigits(s)
    ensures ParseDecimal(s) == Some(DigitsValue(s) as real)
  {
    DigitsClean(s);
    CleanNumeral(s);
  }

  /** A text of digits is a clean numeral without sign or exponent. */
  lemma DigitsClean(s: string)
    requires s != [] && AllDigits(s)
    ensures RemoveChar(s, '_') == s && ExponentIndex(s) == |s|
    ensures s[0] != '-' && s[0] != '+' && !IsSpace(s[0]) && !IsSpace(s[|s| - 1])
  {
    PlainNumeral(s);
    DigitsUnspaced(s);
    assert IsDigit(s[0]);
  }

  /** The digits of a natural number read as that number, flat and as ten times it in tenths. */
  lemma ReadNat(n: nat)
    ensures ParseSingleValue(ShowNat(n)) == ValueCandidates(Some(n), Some(10 * n), false)
  {
    var s := ShowNat(n);
    DigitsSettled(s);
    DigitsAreNumber(s);
    ShowNatValue(n);
    ReadCleaned(s, n as real, false);
    RoundWhole(10 * n);
  }

  /**
   * `1eN` reads as 10^N flat and 10^(N+1) tenths for every `N`: the readings
   * have no precision limit. From `N = 27` on, `quantize` in the 28-digit
   * decimal context refuses the tenths instead.
   */
  lemma PowerOfTenRead(n: nat)
    ensures ParseSingleValue("1e" + ShowNat(n)) == ValueCandidates(Some(Pow10(n)), Some(Pow10(n + 1)), false)
  {
    var x := ShowNat(n);
    var s := "1e" + x;
    var p := Pow10(n);
    PowerOfTenCleaned(x);
    PowerOfTenParsed(x);
    ShowNatValue(n);
    ReadCleaned(s, p as real, false);
    RoundWhole(p);
    RoundWhole(10 * p);
    assert (p as real) * 10.0 == (10 * p) as real;
  }

  lemma PowerOfTenCleaned(x: string)
    requires x != [] && AllDigits(x)
    ensures CleanupValueToken("1e" + x) == "1e" + x && '%' !in "1e" + x
  {
    var s := "1e" + x;
    assert forall i :: 0 <= i < |s| ==> Settled(s[i]) by {
      forall i | 0 <= i < |s| ensures Settled(s[i]) {
        if i >= 2 {
          assert s[i] == x[i - 2] && IsDigit(x[i - 2]);
        }
      }
    }
    assert s[|s| - 1] == x[|x| - 1] && IsDigit(x[|x| - 1]);
    SettledToken(s);
    assert '%' !in s by {
      forall i | 0 <= i < |s| ensures s[i] != '%' {
        assert Settled(s[i]);
      }
    }
  }

  lemma PowerOfTenParsed(x: string)
    requires x != [] && AllDigits(x)
    ensures ParseDecimal("1e" + x) == Some(Pow10(DigitsValue(x)) as real)
  {
    var w := "1";
    assert w + "e" + x == "1e" + x;
    assert DigitsValue(w) == 1;
    ScaleOne(DigitsValue(x));
    ExponentForm(w, x);
  }

  lemma ScaleOne(k: nat)
    ensures Scale(1.0, k) == Pow10(k) as real
  {
  }

  /** A token of kept characters with no space at either end is already clean. */
  lemma SettledToken(s: string)
    requires forall i :: 0 <= i < |s| ==> Settled(s[i])
    requires s == [] || (!IsSpace(s[0]) && !IsSpace(s[|s| - 1]))
    ensures CleanupValueToken(s) == s
  {
    CleanCharsSettled(s);
    StripStripped(s);
  }

  /** Settled characters followed by `%` are a cleaned token again. */
  lemma PercentSettled(s: string)
    requires AllDigits(s) && s != []
    ensures CleanupValueToken(s + "%") == s + "%"
    ensures '%' in CleanupValueToken(s + "%") && RemoveChar(s + "%", '%') == s
  {
    var t := s + "%";
    assert forall i :: 0 <= i < |t| ==> Settled(t[i]);
    CleanCharsSettled(t);
    StripStripped(t);
    assert t[..|t| - 1] == s;
    assert '%' !in s;
    RemoveCharAbsent(s, '%');
    assert t[|t| - 1] == '%';
  }

  /** "n%" reads as n, flat, and as 10·n tenths of a percent, with the percent sign seen. */
  lemma ReadNatPercent(n: nat)
    ensures ParseSingleValue(ShowNat(n) + "%") == ValueCandidates(Some(n), Some(10 * n), true)
  {
    var s := ShowNat(n);
    var t := s + "%";
    PercentSettled(s);
    assert t[..|t| - 1] == s;
    DigitsSettled(s);
    DigitsAreNumber(s);
    ShowNatValue(n);
    ReadCleaned(t, n as real, true);
    RoundWhole(10 * n);
  }

  /**
   * `n`, a tab, then `%` reads as `n` flat and `10n` tenths with the percent
   * sign seen: the cleanup keeps the tab before the sign, and `Decimal`
   * strips it off the numeral.
   */
  lemma ReadNatTabPercent(n: nat)
    ensures ParseSingleValue(ShowNat(n) + "\t%") == ValueCandidates(Some(n), Some(10 * n), true)
  {
    var s := ShowNat(n);
    var w := s + "\t";
    var t := w + "%";
    assert t == ShowNat(n) + "\t%";
    TabPercentSettled(s);
    DigitsAreNumber(s);
    TrailingTabIgnored(s);
    ShowNatValue(n);
    ReadCleaned(t, n as real, true);
    RoundWhole(10 * n);
  }

  lemma TabPercentSettled(s: string)
    requires AllDigits(s) && s != []
    ensures var t := s + "\t" + "%";
      && CleanupValueToken(t) == t && t[..|t| - 1] == s + "\t" && t[|t| - 1] == '%'
      && '%' !in s + "\t"
  {
    var w := s + "\t";
    var t := w + "%";
    assert forall i :: 0 <= i < |t| ==> Settled(t[i]) by {
      forall i | 0 <= i < |t| ensures Settled(t[i]) {
        if i < |s| {
          assert t[i] == s[i] && IsDigit(s[i]);
        }
      }
    }
    assert IsDigit(t[0]) by { assert t[0] == s[0]; }
    SettledToken(t);
    assert t[..|t| - 1] == w;
    assert '%' !in w by {
      forall i | 0 <= i < |w| ensures w[i] != '%' {
        if i < |s| {
          assert w[i] == s[i] && IsDigit(s[i]);
        }
      }
    }
  }

  /** A tab after the digits is stripped before they are read. */
  lemma TrailingTabIgnored(s: string)
    requires AllDigits(s) && s != []
    ensures ParseDecimal(s + "\t") == ParseDecimal(s)
  {
    var w := s + "\t";
    assert w[0] == s[0] && IsDigit(s[0]);
    assert LeadingSpaces(w) == 0;
    assert w[..|w| - 1] == s;
    assert IsDigit(s[|s| - 1]);
    assert KeptLength(s) == |s|;
    assert KeptLength(w) == |s|;
    assert Strip(w) == s;
    DigitsUnspaced(s);
    StripStripped(s);
  }

  lemma DecimalSettled(a: nat, fraction: string)
    requires AllDigits(fraction) && fraction != []
    ensures CleanupValueToken(ShowNat(a) + "." + fraction) == ShowNat(a) + "." + fraction
    ensures '%' !in ShowNat(a) + "." + fraction
    ensures DotIndex(ShowNat(a) + "." + fraction) == |ShowNat(a)|
    ensures RemoveChar(ShowNat(a) + "." + fraction, '_') == ShowNat(a) + "." + fraction
    ensures ExponentIndex(ShowNat(a) + "." + fraction) == |ShowNat(a) + "." + fraction|
  {
    var s := ShowNat(a) + "." + fraction;
    DecimalChars(ShowNat(a), fraction);
    assert '%' !in s;
    CleanCharsSettled(s);
    StripStripped(s);
    DotAt(ShowNat(a), fraction);
    PlainNumeral(s);
  }

  /** Every character of `w.fraction` is a digit or the point. */
  lemma DecimalChars(w: string, fraction: string)
    requires AllDigits(w) && AllDigits(fraction)
    ensures var s := w + "." + fraction; forall i :: 0 <= i < |s| ==> IsDigit(s[i]) || s[i] == '.'
  {
    var s := w + "." + fraction;
    forall i | 0 <= i < |s| ensures IsDigit(s[i]) || s[i] == '.' {
      if i < |w| {
        assert s[i] == w[i];
      } else if i > |w| {
        assert s[i] == fraction[i - |w| - 1];
      }
    }
  }

  lemma MagnitudeOf(w: string, fraction: string)
    requires AllDigits(w) && AllDigits(fraction) && w != []
    ensures Magnitude(w + "." + fraction) == Some(DigitsValue(w) as real + FractionValue(fraction))
  {
    var s := w + "." + fraction;
    DotAt(w, fraction);
    assert s[..|w|] == w;
    assert s[|w| + 1..] == fraction;
  }

  lemma DotAt(w: string, fraction: string)
    requires AllDigits(w)
    ensures DotIndex(w + "." + fraction) == |w|
    decreases |w|
  {
    if w != [] {
      assert (w + "." + fraction)[1..] == w[1..] + "." + fraction;
      DotAt(w[1..], fraction);
    }
  }

  lemma DecimalValue(a: nat, fraction: string, v: real)
    requires AllDigits(fraction) && fraction != []
    requires v == a as real + FractionValue(fraction)
    ensures ParseSingleValue(ShowNat(a) + "." + fraction) == Readings(Some(v), false)
  {
    DecimalParses(a, fraction, v);
    ReadCleaned(ShowNat(a) + "." + fraction, v, false);
  }

  /** `a.fraction` is a cleaned token that parses to its value. */
  lemma DecimalParses(a: nat, fraction: string, v: real)
    requires AllDigits(fraction) && fraction != []
    requires v == a as real + FractionValue(fraction)
    ensures CleanupValueToken(ShowNat(a) + "." + fraction) == ShowNat(a) + "." + fraction
    ensures '%' !in ShowNat(a) + "." + fraction
    ensures ParseDecimal(ShowNat(a) + "." + fraction) == Some(v)
  {
    var w := ShowNat(a);
    var s := w + "." + fraction;
    DecimalSettled(a, fraction);
    assert s[0] == w[0] && IsDigit(w[0]);
    assert s[|s| - 1] == fraction[|fraction| - 1] && IsDigit(fraction[|fraction| - 1]);
    PlainParse(s);
    DecimalMagnitude(a, fraction, v);
  }

  /** Without white space at either end, underscores, exponent or sign, the number is the magnitude of the text. */
  lemma PlainParse(s: string)
    requires s != [] && RemoveChar(s, '_') == s && ExponentIndex(s) == |s|
    requires s[0] != '-' && s[0] != '+' && !IsSpace(s[0]) && !IsSpace(s[|s| - 1])
    ensures ParseDecimal(s) == Magnitude(s)
  {
    CleanNumeral(s);
    NumeralIsMagnitude(s);
  }

  lemma NumeralIsMagnitude(s: string)
    requires s != [] && ExponentIndex(s) == |s| && s[0] != '-' && s[0] != '+'
    ensures ParseNumeral(s) == Magnitude(s)
  {
    assert ParseNumeral(s) == Scientific(s);
  }

  lemma DecimalMagnitude(a: nat, fraction: string, v: real)
    requires AllDigits(fraction)
    requires v == a as real + FractionValue(fraction)
    ensures Magnitude(ShowNat(a) + "." + fraction) == Some(v)
  {
    var w := ShowNat(a);
    ShowNatValue(a);
    MagnitudeOf(w, fraction);
    SameSum(Magnitude(w + "." + fraction), DigitsValue(w), a, FractionValue(fraction), v);
  }

  lemma SameSum(m: Option<real>, d: nat, a: nat, f: real, v: real)
    requires m == Some(d as real + f) && d == a && v == a as real + f
    ensures m == Some(v)
  {
  }

  /** A cleaned text without `%` is read by parsing it as it stands. */
  lemma ReadCleaned(s: string, v: real, explicitPercent: bool)
    requires CleanupValueToken(s) == s && s != []
    requires explicitPercent ==> s[|s| - 1] == '%' && '%' !in s[..|s| - 1] && s[..|s| - 1] != []
    requires !explicitPercent ==> '%' !in s
    requires ParseDecimal(if explicitPercent then s[..|s| - 1] else s) == Some(v)
    ensures ParseSingleValue(s) == Readings(Some(v), explicitPercent)
  {
    var numeric := if explicitPercent then s[..|s| - 1] else s;
    if explicitPercent {
      RemoveCharAbsent(s[..|s| - 1], '%');
      assert RemoveChar(s, '%') == numeric;
      assert s[|s| - 1] in s;
    } else {
      RemoveCharAbsent(s, '%');
    }
    assert RemoveChar(CleanupValueToken(s), '%') == numeric;
    assert ('%' in CleanupValueToken(s)) == explicitPercent;
    assert ParseSingleValue(s) == Readings(ParseDecimal(numeric), explicitPercent);
  }

  lemma OneDecimalReadings(a: nat, d: nat, v: real)
    requires d < 10 && v == a as real + d as real / 10.0
    ensures Readings(Some(v), false) == ValueCandidates(if d == 0 then Some(a) else None, Some(10 * a + d), false)
  {
    assert v * 10.0 == (10 * a + d) as real;
    RoundWhole(10 * a + d);
    if d == 0 {
      assert v == a as real;
    } else {
      assert a as real < v < (a + 1) as real;
      assert v.Floor == a;
    }
  }

  /** "a.d" reads as a + d/10: 10·a + d tenths, and flat only when d is 0. */
  lemma ReadOneDecimal(a: nat, d: nat)
    requires d < 10
    ensures ParseSingleValue(ShowNat(a) + "." + [DigitChar(d)])
      == ValueCandidates(if d == 0 then Some(a) else None, Some(10 * a + d), false)
  {
    var f := [DigitChar(d)];
    assert f[..0] == [];
    assert DigitsValue(f) == d;
    assert FractionValue(f) == d as real / 10.0 by {
      assert Pow10(|f|) == 10;
    }
    var v := a as real + d as real / 10.0;
    DecimalValue(a, f, v);
    OneDecimalReadings(a, d, v);
  }

  lemma TwoDecimalsReadings(a: nat, d: nat, e: nat, v: real)
    requires d < 10 && e < 10 && v == a as real + (10 * d + e) as real / 100.0
    ensures Readings(Some(v), false).percent == Some(10 * a + d + (if e >= 5 then 1 else 0))
  {
    var x := v * 10.0;
    assert x == (10 * a + d) as real + e as real / 10.0;
    var n := 10 * a + d + (if e >= 5 then 1 else 0);
    assert n as real <= x + 0.5 < n as real + 1.0;
    assert Round(x) == n;
  }

  /** "a.de" is rounded half up to tenths: the second decimal rounds up from 5. */
  lemma ReadTwoDecimals(a: nat, d: nat, e: nat)
    requires d < 10 && e < 10
    ensures ParseSingleValue(ShowNat(a) + "." + [DigitChar(d), DigitChar(e)]).percent
      == Some(10 * a + d + (if e >= 5 then 1 else 0))
  {
    var f := [DigitChar(d), DigitChar(e)];
    assert f[..1] == [DigitChar(d)] && f[..1][..0] == [];
    assert DigitsValue(f[..1]) == d;
    assert DigitsValue(f) == 10 * d + e;
    assert FractionValue(f) == (10 * d + e) as real / 100.0 by {
      assert Pow10(|f|) == 100;
    }
    var v := a as real + (10 * d + e) as real / 100.0;
    DecimalValue(a, f, v);
    TwoDecimalsReadings(a, d, e, v);
  }

  // ---------------------------------------------------------------------
  // _value_candidate_list

  /** The parts one line contributes: its white-space separated words. */
  function LineParts(line: string): seq<string>
  {
    var stripped := Strip(line);
    if stripped == [] then []
    else
      var segments := Words(stripped);
      if segments != [] then segments else [stripped]
  }

  function RawParts(lines: seq<string>): seq<string>
  {
    if lines == [] then [] else RawParts(lines[..|lines| - 1]) + LineParts(lines[|lines| - 1])
  }

  /** The cleaned parts, empty ones dropped. */
  function CleanedParts(raw: seq<string>): (r: seq<string>)
    ensures forall k :: 0 <= k < |r| ==> r[k] != []
  {
    if raw == [] then []
    else
      var c := CleanupValueToken(raw[|raw| - 1]);
      CleanedParts(raw[..|raw| - 1]) + (if c != [] then [c] else [])
  }

  /** The line-feed form of the text the candidate list splits. */
  function Normalized(text: string): string
  {
    ReplaceChar(text, '\r', '\n')
  }

  /** The cleaned parts of a value text, or its whole cleaned text when no part survives. */
  function Parts(text: string): seq<string>
  {
    var cleaned := CleanedParts(RawParts(Lines(Normalized(text))));
    if cleaned != [] then cleaned
    else
      var fallback := CleanupValueToken(RemoveChar(Normalized(text), '\n'));
      if fallback != [] then [fallback] else []
  }

  /** Each part joined with the one after it. */
  function AdjacentPairs(parts: seq<string>): (r: seq<string>)
    ensures |r| == if |parts| < 2 then 0 else |parts| - 1
  {
    if |parts| < 2 then []
    else AdjacentPairs(parts[..|parts| - 1]) + [parts[|parts| - 2] + parts[|parts| - 1]]
  }

  /** The texts tried, in order: all parts joined, each part, then each adjacent pair. */
  function Variants(parts: seq<string>): seq<string>
  {
    if parts == [] then [""] else [Concat(parts)] + parts + AdjacentPairs(parts)
  }

  /** The non-empty texts, each at its first occurrence only. */
  function KeepFirst(vs: seq<string>): seq<string>
  {
    if vs == [] then []
    else
      var x := vs[|vs| - 1];
      var before := vs[..|vs| - 1];
      KeepFirst(before) + (if x == [] || x in before then [] else [x])
  }

  predicate Parses(text: string)
  {
    var parsed := ParseSingleValue(text);
    !(parsed.flat.None? && parsed.percent.None?)
  }

  /** The texts that yield a reading, each paired with it. */
  function Interpretations(vs: seq<string>): seq<(string, ValueCandidates)>
  {
    if vs == [] then []
    else
      var x := vs[|vs| - 1];
      Interpretations(vs[..|vs| - 1]) + (if Parses(x) then [(x, ParseSingleValue(x))] else [])
  }

  /** What `_value_candidate_list` returns for a value text. */
  function ValueCandidatesOf(text: string): seq<(string, ValueCandidates)>
  {
    CandidatesOfParts(Parts(text))
  }

  /** The readings of the variants of the given parts, each text once. */
  function CandidatesOfParts(parts: seq<string>): seq<(string, ValueCandidates)>
  {
    Interpretations(KeepFirst(Variants(parts)))
  }

  /**
   * `_value_candidate_list`: every distinct non-empty variant that yields a
   * reading, paired with that reading, in the order of first appearance
   * among the variants.
   */
  method ValueCandidateList(text: string) returns (interpretations: seq<(string, ValueCandidates)>)
    ensures interpretations == ValueCandidatesOf(text)
    ensures forall i :: 0 <= i < |interpretations| ==>
      interpretations[i].0 != [] && interpretations[i].0 in Variants(Parts(text))
      && interpretations[i].1 == ParseSingleValue(interpretations[i].0) && interpretations[i].1.percent.Some?
    ensures InOrderOf(Variants(Parts(text)), interpretations)
  {
    var cleanedParts := SplitParts(text);
    var variants := BuildVariants(cleanedParts);
    var ordered := KeepFirstLoop(variants);
    interpretations := InterpretLoop(ordered);
    CandidatesSound(Parts(text));
    CandidatesOrdered(Parts(text));
  }

  /** The line loop of the candidate list, then the fallback to the whole cleaned text. */
  method SplitParts(text: string) returns (cleanedParts: seq<string>)
    ensures cleanedParts == Parts(text)
  {
    var normalized := ReplaceChar(text, '\r', '\n');
    var lines := Lines(normalized);
    var rawParts: seq<string> := [];
    var k := 0;
    while k < |lines|
      invariant 0 <= k <= |lines|
      invariant rawParts == RawParts(lines[..k])
    {
      rawParts := AppendLine(rawParts, lines[k]);
      PrefixStep(lines, k);
      k := k + 1;
    }
    assert lines[..k] == lines;
    cleanedParts := CleanedParts(rawParts);
    if cleanedParts == [] {
      var fallback := CleanupValueToken(RemoveChar(normalized, '\n'));
      if fallback != [] {
        cleanedParts := [fallback];
      }
    }
  }

  /** One line's parts appended to the parts so far. */
  method AppendLine(rawParts: seq<string>, line: string) returns (r: seq<string>)
    ensures r == rawParts + LineParts(line)
  {
    r := rawParts;
    var stripped := Strip(line);
    if stripped != [] {
      var segments := Words(stripped);
      if segments != [] {
        r := r + segments;
      } else {
        r := r + [stripped];
      }
    }
  }

  /** The loop keeping the variants that yield a reading. */
  method InterpretLoop(ordered: seq<string>) returns (interpretations: seq<(string, ValueCandidates)>)
    ensures interpretations == Interpretations(ordered)
  {
    interpretations := [];
    var j := 0;
    while j < |ordered|
      invariant 0 <= j <= |ordered|
      invariant interpretations == Interpretations(ordered[..j])
    {
      InterpretationsStep(ordered, j);
      if Parses(ordered[j]) {
        interpretations := interpretations + [(ordered[j], ParseSingleValue(ordered[j]))];
      }
      j := j + 1;
    }
    assert ordered[..j] == ordered;
  }

  lemma InterpretationsStep(vs: seq<string>, j: nat)
    requires j < |vs|
    ensures Interpretations(vs[..j + 1])
            == Interpretations(vs[..j]) + (if Parses(vs[j]) then [(vs[j], ParseSingleValue(vs[j]))] else [])
  {
    PrefixStep(vs, j);
    assert vs[..j + 1][..j] == vs[..j];
  }

  /** The variants list, built the way the source extends it. */
  method BuildVariants(cleanedParts: seq<string>) returns (variants: seq<string>)
    ensures variants == Variants(cleanedParts)
  {
    variants := [];
    if cleanedParts != [] {
      variants := variants + [Concat(cleanedParts)];
      variants := variants + cleanedParts;
      var idx := 0;
      while idx < |cleanedParts| - 1
        invariant 0 <= idx <= |cleanedParts| - 1
        invariant variants == [Concat(cleanedParts)] + cleanedParts + AdjacentPairs(cleanedParts[..idx + 1])
      {
        assert cleanedParts[..idx + 2][..idx + 1] == cleanedParts[..idx + 1];
        variants := variants + [cleanedParts[idx] + cleanedParts[idx + 1]];
        idx := idx + 1;
      }
      assert cleanedParts[..idx + 1] == cleanedParts;
    } else {
      variants := variants + [""];
    }
  }

  /** The de-duplication loop with its `seen` set. */
  method KeepFirstLoop(variants: seq<string>) returns (ordered: seq<string>)
    ensures ordered == KeepFirst(variants)
  {
    ordered := [];
    var seen: set<string> := {};
    var k := 0;
    while k < |variants|
      invariant 0 <= k <= |variants|
      invariant ordered == KeepFirst(variants[..k])
      invariant forall x :: x in seen <==> x in variants[..k] && x != []
    {
      var variant := variants[k];
      PrefixStep(variants, k);
      assert variants[..k + 1][..k] == variants[..k];
      if variant == [] || variant in seen {
      } else {
        seen := seen + {variant};
        ordered := ordered + [variant];
      }
      k := k + 1;
    }
    assert variants[..k] == variants;
  }

  // ---------------------------------------------------------------------
  // What the candidate list holds

  /** The position of the first occurrence of `x`. */
  ghost function FirstIndex<T>(vs: seq<T>, x: T): (r: nat)
    requires x in vs
    ensures r < |vs| && vs[r] == x && x !in vs[..r]
  {
    if vs[0] == x then 0
    else
      var r := FirstIndex(vs[1..], x);
      assert vs[..r + 1] == [vs[0]] + vs[1..][..r];
      r + 1
  }

  lemma {:induction false} FirstIndexIs<T>(vs: seq<T>, x: T, r: nat)
    requires r < |vs| && vs[r] == x && forall i :: 0 <= i < r ==> vs[i] != x
    ensures FirstIndex(vs, x) == r
  {
    if r > 0 {
      FirstIndexIs(vs[1..], x, r - 1);
    }
  }

  lemma FirstIndexExtend<T>(b: seq<T>, y: T, x: T)
    requires x in b
    ensures FirstIndex(b + [y], x) == FirstIndex(b, x)
  {
    var r := FirstIndex(b, x);
    assert forall i :: 0 <= i < r ==> b[..r][i] == b[i];
    FirstIndexIs(b + [y], x, r);
  }

  lemma FirstIndexLast<T>(b: seq<T>, x: T)
    requires x !in b
    ensures FirstIndex(b + [x], x) == |b|
  {
    FirstIndexIs(b + [x], x, |b|);
  }

  /** The de-duplicated variants: exactly the non-empty ones, once each, in order of first appearance. */
  lemma {:induction false} KeepFirstFacts(vs: seq<string>)
    ensures forall x :: x in KeepFirst(vs) <==> x in vs && x != []
    ensures Distinct(KeepFirst(vs))
    ensures forall i, j :: 0 <= i < j < |KeepFirst(vs)| ==>
      FirstIndex(vs, KeepFirst(vs)[i]) < FirstIndex(vs, KeepFirst(vs)[j])
  {
    if vs != [] {
      var b := vs[..|vs| - 1];
      var x := vs[|vs| - 1];
      assert vs == b + [x];
      KeepFirstFacts(b);
      var kb := KeepFirst(b);
      forall y | y in kb ensures FirstIndex(vs, y) == FirstIndex(b, y) {
        FirstIndexExtend(b, x, y);
      }
      if !(x == [] || x in b) {
        FirstIndexLast(b, x);
        assert x !in kb;
        assert forall i :: 0 <= i < |kb| ==> FirstIndex(b, kb[i]) < |b|;
      }
    }
  }

  /** Every kept variant comes from the input, yields a reading and carries it. */
  lemma {:induction false} InterpretationsSound(vs: seq<string>)
    ensures forall i :: 0 <= i < |Interpretations(vs)| ==>
      Interpretations(vs)[i].0 in vs && Parses(Interpretations(vs)[i].0)
      && Interpretations(vs)[i].1 == ParseSingleValue(Interpretations(vs)[i].0)
  {
    if vs != [] {
      var b := vs[..|vs| - 1];
      InterpretationsSound(b);
      assert forall y :: y in b ==> y in vs;
    }
  }

  /** Every input variant that yields a reading is kept, with that reading. */
  lemma {:induction false} InterpretationsComplete(vs: seq<string>)
    ensures forall x :: x in vs && Parses(x) ==> (x, ParseSingleValue(x)) in Interpretations(vs)
  {
    if vs != [] {
      var b := vs[..|vs| - 1];
      var x := vs[|vs| - 1];
      assert vs == b + [x];
      InterpretationsComplete(b);
    }
  }

  predicate Distinct<T(==)>(vs: seq<T>)
  {
    forall i, j :: 0 <= i < j < |vs| ==> vs[i] != vs[j]
  }

  /** The texts of `rs` occur in `vs`, in the order of their first occurrence there. */
  ghost predicate InOrderOf(vs: seq<string>, rs: seq<(string, ValueCandidates)>)
  {
    forall i, j :: 0 <= i < j < |rs| ==>
      rs[i].0 in vs && rs[j].0 in vs && FirstIndex(vs, rs[i].0) < FirstIndex(vs, rs[j].0)
  }

  lemma OrderAppend(b: seq<string>, x: string, rs: seq<(string, ValueCandidates)>, tail: seq<(string, ValueCandidates)>)
    requires InOrderOf(b, rs) && (forall i :: 0 <= i < |rs| ==> rs[i].0 in b) && x !in b
    requires tail == [] || (|tail| == 1 && tail[0].0 == x)
    ensures InOrderOf(b + [x], rs + tail)
  {
    forall i | 0 <= i < |rs| ensures FirstIndex(b + [x], rs[i].0) == FirstIndex(b, rs[i].0) < |b| {
      FirstIndexExtend(b, x, rs[i].0);
    }
    FirstIndexLast(b, x);
  }

  /** From an input without repeats, the kept variants keep their input order. */
  lemma {:induction false} InterpretationsOrdered(vs: seq<string>)
    requires Distinct(vs)
    ensures InOrderOf(vs, Interpretations(vs))
  {
    if vs != [] {
      var b := vs[..|vs| - 1];
      var x := vs[|vs| - 1];
      assert vs == b + [x];
      assert Distinct(b) by {
        forall i, j | 0 <= i < j < |b| ensures b[i] != b[j] {
          assert b[i] == vs[i] && b[j] == vs[j];
        }
      }
      assert x !in b by {
        assert forall k :: 0 <= k < |b| ==> b[k] == vs[k] != vs[|vs| - 1];
      }
      InterpretationsOrdered(b);
      InterpretationsSound(b);
      OrderAppend(b, x, Interpretations(b), if Parses(x) then [(x, ParseSingleValue(x))] else []);
    }
  }

  /** Each entry of the candidate list is a non-empty variant paired with its reading. */
  lemma CandidatesSound(parts: seq<string>)
    ensures forall i :: 0 <= i < |CandidatesOfParts(parts)| ==>
      CandidatesOfParts(parts)[i].0 != [] && CandidatesOfParts(parts)[i].0 in Variants(parts)
      && CandidatesOfParts(parts)[i].1 == ParseSingleValue(CandidatesOfParts(parts)[i].0)
      && CandidatesOfParts(parts)[i].1.percent.Some?
  {
    var vs := Variants(parts);
    var r := CandidatesOfParts(parts);
    KeepFirstFacts(vs);
    InterpretationsSound(KeepFirst(vs));
    forall i | 0 <= i < |r| ensures r[i].1.percent.Some? {
      ReadingsOfNumber(r[i].0);
    }
  }

  /** Every non-empty variant that yields a reading is in the candidate list. */
  lemma CandidatesComplete(parts: seq<string>)
    ensures forall x :: x in Variants(parts) && x != [] && Parses(x) ==>
      (x, ParseSingleValue(x)) in CandidatesOfParts(parts)
  {
    KeepFirstFacts(Variants(parts));
    InterpretationsComplete(KeepFirst(Variants(parts)));
  }

  /** The candidate list follows the order in which its texts first appear among the variants. */
  lemma CandidatesOrdered(parts: seq<string>)
    ensures InOrderOf(Variants(parts), CandidatesOfParts(parts))
  {
    var vs := Variants(parts);
    var kf := KeepFirst(vs);
    var r := Interpretations(kf);
    KeepFirstFacts(vs);
    InterpretationsSound(kf);
    InterpretationsOrdered(kf);
    forall i, j | 0 <= i < j < |r|
      ensures r[i].0 in vs && r[j].0 in vs && FirstIndex(vs, r[i].0) < FirstIndex(vs, r[j].0)
    {
      var p := FirstIndex(kf, r[i].0);
      var q := FirstIndex(kf, r[j].0);
      assert kf[p] == r[i].0 && kf[q] == r[j].0;
    }
  }

  /** The empty text yields no reading. */
  lemma EmptyUnread()
    ensures !Parses([])
  {
    assert CleanupValueToken([]) == [];
  }

  /** The whole joined text is tried first: when it yields a reading it heads the list. */
  lemma JoinedTriedFirst(parts: seq<string>)
    requires parts != [] && Parses(Concat(parts))
    ensures |CandidatesOfParts(parts)| > 0 && CandidatesOfParts(parts)[0].0 == Concat(parts)
  {
    var vs := Variants(parts);
    var r := CandidatesOfParts(parts);
    var joined := Concat(parts);
    assert vs[0] == joined;
    EmptyUnread();
    CandidatesComplete(parts);
    CandidatesOrdered(parts);
    var i :| 0 <= i < |r| && r[i] == (joined, ParseSingleValue(joined));
    assert FirstIndex(vs, joined) == 0;
  }
}
