// Text handling of the OCR workflow: the token cleanups, the label keys,
// Python's `strip`/`split`/`splitlines`, and the two status patterns that
// mark a slot still to be tuned or locked behind a level requirement.
// Every text is taken to be in Unicode NFKC form already.

module OcrText {
  import opened Base

  /** Python's `str.isspace`: the characters `strip`, `split` and `\s` treat as white space. */
  predicate IsSpace(c: char)
  {
    c == ' ' || ('\t' <= c <= '\r') || ('\U{1C}' <= c <= '\U{1F}')
    || c == '\U{85}' || c == '\U{A0}' || c == '\U{1680}'
    || ('\U{2000}' <= c <= '\U{200A}') || c == '\U{2028}' || c == '\U{2029}'
    || c == '\U{202F}' || c == '\U{205F}' || c == '\U{3000}'
  }

  /** The line boundaries of `str.splitlines`. */
  predicate IsLineBreak(c: char)
  {
    ('\n' <= c <= '\r') || ('\U{1C}' <= c <= '\U{1E}')
    || c == '\U{85}' || c == '\U{2028}' || c == '\U{2029}'
  }

  predicate IsDigit(c: char) { '0' <= c <= '9' }

  predicate AllDigits(s: string) { forall i :: 0 <= i < |s| ==> IsDigit(s[i]) }

  function DigitValue(c: char): nat
    requires IsDigit(c)
  {
    (c as int - '0' as int) as nat
  }

  /** The number a run of decimal digits spells, most significant first. */
  function DigitsValue(s: string): nat
    requires AllDigits(s)
  {
    if s == [] then 0 else DigitsValue(s[..|s| - 1]) * 10 + DigitValue(s[|s| - 1])
  }

  function DigitChar(d: nat): (c: char)
    requires d < 10
    ensures IsDigit(c) && DigitValue(c) == d
  {
    ('0' as int + d) as char
  }

  /** The decimal digits of `n`, as Python's `str(n)` writes them. */
  function ShowNat(n: nat): (s: string)
    ensures |s| > 0 && AllDigits(s)
  {
    if n < 10 then [DigitChar(n)] else ShowNat(n / 10) + [DigitChar(n % 10)]
  }

  lemma {:induction false} ShowNatValue(n: nat)
    ensures DigitsValue(ShowNat(n)) == n
  {
    if n >= 10 {
      var s := ShowNat(n);
      assert s[..|s| - 1] == ShowNat(n / 10);
      ShowNatValue(n / 10);
    }
  }

  // ---------------------------------------------------------------------
  // strip, replace

  /** The number of white-space characters `s` starts with. */
  function LeadingSpaces(s: string): (n: nat)
    ensures n <= |s| && (n < |s| ==> !IsSpace(s[n]))
    ensures forall i :: 0 <= i < n ==> IsSpace(s[i])
  {
    if s != [] && IsSpace(s[0]) then 1 + LeadingSpaces(s[1..]) else 0
  }

  /** The length of `s` without the white space it ends with. */
  function KeptLength(s: string): (n: nat)
    ensures n <= |s| && (n > 0 ==> !IsSpace(s[n - 1]))
    ensures forall i :: n <= i < |s| ==> IsSpace(s[i])
  {
    if s != [] && IsSpace(s[|s| - 1]) then KeptLength(s[..|s| - 1]) else |s|
  }

  /** `str.strip()`: white space removed from both ends, nothing else. */
  function Strip(s: string): (r: string)
    ensures r == [] || (!IsSpace(r[0]) && !IsSpace(r[|r| - 1]))
    ensures forall i :: 0 <= i < |r| ==> r[i] in s
  {
    var t := s[LeadingSpaces(s)..];
    var r := t[..KeptLength(t)];
    assert forall i :: 0 <= i < |r| ==> r[i] == s[LeadingSpaces(s) + i];
    r
  }

  /** A text without white space at either end is its own strip. */
  lemma {:induction false} StripStripped(s: string)
    requires s == [] || (!IsSpace(s[0]) && !IsSpace(s[|s| - 1]))
    ensures Strip(s) == s
  {
  }

  function ReplaceChar(s: string, a: char, b: char): (r: string)
    ensures |r| == |s|
    ensures forall i :: 0 <= i < |s| ==> r[i] == (if s[i] == a then b else s[i])
  {
    if s == [] then [] else ReplaceChar(s[..|s| - 1], a, b) + [if s[|s| - 1] == a then b else s[|s| - 1]]
  }

  function RemoveChar(s: string, a: char): string
  {
    if s == [] then [] else RemoveChar(s[..|s| - 1], a) + (if s[|s| - 1] == a then [] else [s[|s| - 1]])
  }

  /** Removing a character keeps only other characters of the text. */
  lemma {:induction false} RemoveCharWithin(s: string, a: char)
    ensures forall c :: c in RemoveChar(s, a) ==> c in s && c != a
  {
    if s != [] {
      RemoveCharWithin(s[..|s| - 1], a);
      forall c | c in RemoveChar(s[..|s| - 1], a) ensures c in s {
        assert c in s[..|s| - 1];
      }
    }
  }

  lemma {:induction false} RemoveCharAbsent(s: string, a: char)
    requires a !in s
    ensures RemoveChar(s, a) == s
  {
    if s != [] {
      assert s[|s| - 1] in s;
      assert a !in s[..|s| - 1];
      RemoveCharAbsent(s[..|s| - 1], a);
    }
  }

  // ---------------------------------------------------------------------
  // _cleanup_value_token, _cleanup_buff_type, _normalize_label_key

  /**
   * What the value-token cleanup does with one character: full-width percent
   * to `%`, the letter O to zero, spaces, line breaks and thousands
   * separators dropped, full-width and ideographic full stops to `.`, and
   * the full-width plus to `+`.
   */
  function CleanChar(c: char): Option<char>
  {
    if c == '％' then Some('%')
    else if c == 'O' || c == 'o' then Some('0')
    else if c == ' ' || c == '　' || c == '\n' || c == '\r' || c == ',' || c == '，' then None
    else if c == '．' || c == '。' then Some('.')
    else if c == '＋' then Some('+')
    else Some(c)
  }

  /** A character the cleanup leaves as it is. */
  predicate Settled(c: char) { CleanChar(c) == Some(c) }

  function CleanChars(s: string): (r: string)
    ensures forall i :: 0 <= i < |r| ==> Settled(r[i])
  {
    if s == [] then []
    else
      var c := CleanChar(s[|s| - 1]);
      CleanChars(s[..|s| - 1]) + (if c.Some? then [c.value] else [])
  }

  lemma {:induction false} CleanCharsSettled(s: string)
    requires forall i :: 0 <= i < |s| ==> Settled(s[i])
    ensures CleanChars(s) == s
  {
    if s != [] {
      CleanCharsSettled(s[..|s| - 1]);
    }
  }

  /**
   * `_cleanup_value_token`. The result is stripped, and every character
   * left in it is one the cleanup keeps unchanged.
   */
  function CleanupValueToken(s: string): (r: string)
    ensures r == [] || (!IsSpace(r[0]) && !IsSpace(r[|r| - 1]))
    ensures forall i :: 0 <= i < |r| ==> Settled(r[i])
  {
    Strip(CleanChars(s))
  }

  /** Cleaning a cleaned token changes nothing. */
  lemma CleanupIdempotent(s: string)
    ensures CleanupValueToken(CleanupValueToken(s)) == CleanupValueToken(s)
  {
    var t := CleanupValueToken(s);
    CleanCharsSettled(t);
    StripStripped(t);
  }

  /** `_cleanup_buff_type`: ideographic spaces become spaces, then strip. */
  function CleanupBuffType(s: string): (r: string)
    ensures r == [] || (!IsSpace(r[0]) && !IsSpace(r[|r| - 1]))
  {
    Strip(ReplaceChar(s, '　', ' '))
  }

  /** The characters the label-key pattern removes: white space and `·•:_：／/|\-`. */
  predicate IsKeySeparator(c: char)
  {
    IsSpace(c) || c == '·' || c == '•' || c == ':' || c == '_' || c == '：'
    || c == '／' || c == '/' || c == '|' || c == '\\' || c == '-'
  }

  function RemoveSeparators(s: string): (r: string)
    ensures forall i :: 0 <= i < |r| ==> !IsKeySeparator(r[i])
    ensures forall c :: c in r <==> c in s && !IsKeySeparator(c)
  {
    if s == [] then []
    else RemoveSeparators(s[..|s| - 1]) + (if IsKeySeparator(s[|s| - 1]) then [] else [s[|s| - 1]])
  }

  lemma {:induction false} RemoveSeparatorsKeeps(s: string)
    requires forall i :: 0 <= i < |s| ==> !IsKeySeparator(s[i])
    ensures RemoveSeparators(s) == s
  {
    if s != [] {
      RemoveSeparatorsKeeps(s[..|s| - 1]);
    }
  }

  /**
   * `_normalize_label_key`: ideographic spaces to spaces, strip, then every
   * run of separators removed. The key keeps exactly the non-separator
   * characters of the label.
   */
  function NormalizeLabelKey(s: string): (r: string)
    ensures forall i :: 0 <= i < |r| ==> !IsKeySeparator(r[i])
  {
    RemoveSeparators(Strip(ReplaceChar(s, '　', ' ')))
  }

  lemma NormalizeLabelKeyIdempotent(s: string)
    ensures NormalizeLabelKey(NormalizeLabelKey(s)) == NormalizeLabelKey(s)
  {
    var k := NormalizeLabelKey(s);
    var t := ReplaceChar(k, '　', ' ');
    assert t == k;
    if k != [] {
      assert !IsKeySeparator(k[0]) && !IsKeySeparator(k[|k| - 1]);
    }
    StripStripped(k);
    RemoveSeparatorsKeeps(k);
  }

  // ---------------------------------------------------------------------
  // splitlines, split, join

  /** The length of the longest prefix without a line break. */
  function LineLength(s: string): (n: nat)
    ensures n <= |s| && (n < |s| ==> IsLineBreak(s[n]))
    ensures forall i :: 0 <= i < n ==> !IsLineBreak(s[i])
  {
    if s == [] || IsLineBreak(s[0]) then 0 else 1 + LineLength(s[1..])
  }

  /** `str.splitlines()` on a text without carriage returns. */
  function Lines(s: string): (r: seq<string>)
    ensures forall k, i :: 0 <= k < |r| && 0 <= i < |r[k]| ==> !IsLineBreak(r[k][i])
    decreases |s|
  {
    if s == [] then []
    else
      var n := LineLength(s);
      if n == |s| then [s] else [s[..n]] + Lines(s[n + 1..])
  }

  /** The length of the longest prefix without white space. */
  function WordLength(s: string): (n: nat)
    ensures n <= |s| && (n < |s| ==> IsSpace(s[n]))
    ensures forall i :: 0 <= i < n ==> !IsSpace(s[i])
  {
    if s == [] || IsSpace(s[0]) then 0 else 1 + WordLength(s[1..])
  }

  /** `str.split()`: the maximal runs of non-white-space characters. */
  function Words(s: string): (r: seq<string>)
    ensures forall k :: 0 <= k < |r| ==> r[k] != []
    ensures forall k, i :: 0 <= k < |r| && 0 <= i < |r[k]| ==> !IsSpace(r[k][i])
    decreases |s|
  {
    if s == [] then []
    else if IsSpace(s[0]) then Words(s[1..])
    else
      var n := WordLength(s);
      [s[..n]] + Words(s[n..])
  }

  /** `"".join(parts)`. */
  function Concat(parts: seq<string>): string
  {
    if parts == [] then [] else Concat(parts[..|parts| - 1]) + parts[|parts| - 1]
  }

  lemma ConcatAppend(a: seq<string>, b: string)
    ensures Concat(a + [b]) == Concat(a) + b
  {
    assert (a + [b])[..|a|] == a;
  }

  function ConcatFront(parts: seq<string>): string
  {
    if parts == [] then [] else parts[0] + ConcatFront(parts[1..])
  }

  lemma {:induction false} ConcatFrontIsConcat(parts: seq<string>)
    ensures ConcatFront(parts) == Concat(parts)
  {
    if parts != [] {
      var n := |parts|;
      ConcatFrontIsConcat(parts[1..]);
      if n > 1 {
        ConcatFrontIsConcat(parts[1..][..n - 2]);
        ConcatFrontIsConcat(parts[..n - 1]);
        assert parts[..n - 1][1..] == parts[1..][..n - 2];
        assert parts[1..][n - 2] == parts[n - 1];
      }
    }
  }

  /** The text with every white-space character removed. */
  function WithoutSpaces(s: string): string
  {
    if s == [] then [] else (if IsSpace(s[0]) then [] else [s[0]]) + WithoutSpaces(s[1..])
  }

  lemma {:induction false} WithoutSpacesSplit(s: string, n: nat)
    requires n <= |s| && forall i :: 0 <= i < n ==> !IsSpace(s[i])
    ensures WithoutSpaces(s) == s[..n] + WithoutSpaces(s[n..])
  {
    if n > 0 {
      WithoutSpacesSplit(s[1..], n - 1);
      assert s[1..][n - 1..] == s[n..];
      assert s[..n] == [s[0]] + s[1..][..n - 1];
    }
  }

  /** Splitting on white space loses exactly the white space: the words joined are the text without it. */
  lemma {:induction false} WordsCoverText(s: string)
    ensures Concat(Words(s)) == WithoutSpaces(s)
    decreases |s|
  {
    if s != [] {
      if IsSpace(s[0]) {
        WordsCoverText(s[1..]);
      } else {
        var n := WordLength(s);
        var rest := Words(s[n..]);
        WordsCoverText(s[n..]);
        WithoutSpacesSplit(s, n);
        ConcatFrontIsConcat([s[..n]] + rest);
        ConcatFrontIsConcat(rest);
        assert ([s[..n]] + rest)[1..] == rest;
      }
    }
  }

  // ---------------------------------------------------------------------
  // The status patterns

  predicate IsTuneSecond(c: char) { c == '调' || c == '調' }

  predicate IsTuneThird(c: char) { c == '谐' || c == '諧' }

  /** `待[调調][谐諧]` occurs at position `p`. */
  predicate PendingAt(s: string, p: nat)
  {
    p + 3 <= |s| && s[p] == '待' && IsTuneSecond(s[p + 1]) && IsTuneThird(s[p + 2])
  }

  function PendingFrom(s: string, p: nat): (r: bool)
    requires p <= |s|
    ensures r <==> exists q :: p <= q <= |s| && PendingAt(s, q)
    decreases |s| - p
  {
    if p == |s| then false else PendingAt(s, p) || PendingFrom(s, p + 1)
  }

  /** The "still to be tuned" pattern is found somewhere in the text. */
  function HasPendingMarker(s: string): (r: bool)
    ensures r <==> exists q :: 0 <= q <= |s| && PendingAt(s, q)
  {
    PendingFrom(s, 0)
  }

  /** The length of the run of ASCII digits starting at `p`. */
  function DigitRun(s: string, p: nat): (n: nat)
    requires p <= |s|
    ensures p + n <= |s| && AllDigits(s[p..p + n])
    ensures p + n < |s| ==> !IsDigit(s[p + n])
    decreases |s| - p
  {
    if p == |s| || !IsDigit(s[p]) then 0
    else
      var n := DigitRun(s, p + 1);
      assert s[p..p + 1 + n] == [s[p]] + s[p + 1..p + 1 + n];
      1 + n
  }

  /** The length of the run of white space starting at `p`. */
  function SpaceRun(s: string, p: nat): (n: nat)
    requires p <= |s|
    ensures p + n <= |s|
    decreases |s| - p
  {
    if p == |s| || !IsSpace(s[p]) then 0 else 1 + SpaceRun(s, p + 1)
  }

  /**
   * The level requirement of the lock pattern `强化至\+?(\d+)\s*可[调調][谐諧]`
   * when a match starts at `p`. Every quantifier of the pattern is followed
   * by a character it cannot consume, so the greedy match is the only one.
   */
  function LockAt(s: string, p: nat): Option<nat>
  {
    if p + 3 <= |s| && s[p] == '强' && s[p + 1] == '化' && s[p + 2] == '至' then
      var q := if p + 3 < |s| && s[p + 3] == '+' then p + 4 else p + 3;
      var d := DigitRun(s, q);
      var e := q + d + SpaceRun(s, q + d);
      if d > 0 && e + 3 <= |s| && s[e] == '可' && IsTuneSecond(s[e + 1]) && IsTuneThird(s[e + 2]) then
        Some(DigitsValue(s[q..q + d]))
      else None
    else None
  }

  function LockFrom(s: string, p: nat): (r: Option<nat>)
    requires p <= |s|
    ensures r.None? <==> forall q :: p <= q <= |s| ==> LockAt(s, q).None?
    ensures r.Some? ==> exists q :: (p <= q <= |s| && LockAt(s, q) == r
      && forall q' :: p <= q' < q ==> LockAt(s, q').None?)
    decreases |s| - p
  {
    if p == |s| then LockAt(s, p)
    else if LockAt(s, p).Some? then LockFoundAt(s, p); LockAt(s, p)
    else
      var r := LockFrom(s, p + 1);
      LockFoundLater(s, p, r);
      r
  }

  /** A match at `p` is the leftmost one from `p` on. */
  lemma LockFoundAt(s: string, p: nat)
    requires p <= |s|
    ensures exists q :: (p <= q <= |s| && LockAt(s, q) == LockAt(s, p)
      && forall q' :: p <= q' < q ==> LockAt(s, q').None?)
  {
    assert p <= p <= |s| && LockAt(s, p) == LockAt(s, p) && forall q': nat :: p <= q' < p ==> LockAt(s, q').None?;
  }

  /** Without a match at `p`, the leftmost match from `p + 1` on is the leftmost one from `p` on. */
  lemma LockFoundLater(s: string, p: nat, r: Option<nat>)
    requires p < |s| && LockAt(s, p).None?
    requires r.Some? ==> exists q :: (p + 1 <= q <= |s| && LockAt(s, q) == r
      && forall q' :: p + 1 <= q' < q ==> LockAt(s, q').None?)
    ensures r.Some? ==> exists q :: (p <= q <= |s| && LockAt(s, q) == r
      && forall q' :: p <= q' < q ==> LockAt(s, q').None?)
  {
    if r.Some? {
      var q :| p + 1 <= q <= |s| && LockAt(s, q) == r && forall q' :: p + 1 <= q' < q ==> LockAt(s, q').None?;
      assert forall q' :: p <= q' < q ==> LockAt(s, q').None?;
    }
  }

  /** `_LOCK_PATTERN.search`: the requirement of the leftmost lock match, if any. */
  function LockRequirement(s: string): (r: Option<nat>)
    ensures r.None? <==> forall q :: 0 <= q <= |s| ==> LockAt(s, q).None?
    ensures r.Some? ==> exists q :: (0 <= q <= |s| && LockAt(s, q) == r
      && forall q' :: 0 <= q' < q ==> LockAt(s, q').None?)
  {
    LockFrom(s, 0)
  }

  /** The lock message for level `n`, with a `+` before the level, is read as requirement `n`. */
  lemma LockMessageRead(n: nat)
    ensures LockRequirement("强化至+" + ShowNat(n) + "可调谐") == Some(n)
  {
    var s := "强化至+" + ShowNat(n) + "可调谐";
    var digits := ShowNat(n);
    assert s[4..4 + |digits|] == digits;
    DigitRunAll(s, 4, |digits|);
    assert LockAt(s, 0) == Some(DigitsValue(digits));
    ShowNatValue(n);
  }

  lemma DigitRunAll(s: string, p: nat, n: nat)
    requires p + n <= |s| && AllDigits(s[p..p + n]) && (p + n == |s| || !IsDigit(s[p + n]))
    ensures DigitRun(s, p) == n
    decreases n
  {
    if n > 0 {
      assert IsDigit(s[p..p + n][0]);
      assert s[p + 1..p + n] == s[p..p + n][1..];
      DigitRunAll(s, p + 1, n - 1);
    }
  }

  /** "ends with `_Flat`", the marker of a flat-valued buff type. */
  predicate IsFlatName(name: string)
  {
    |name| >= 5 && name[|name| - 5..] == "_Flat"
  }

  predicate OccursAt(a: string, b: string, p: nat)
  {
    p + |a| <= |b| && b[p..p + |a|] == a
  }

  /** `a in b` on two strings. */
  predicate IsSubstring(a: string, b: string)
  {
    exists p :: 0 <= p <= |b| && OccursAt(a, b, p)
  }
}
