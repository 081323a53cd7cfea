// Matching read values against a buff's allowed values, and choosing among
// the matches of several candidate buffs.

module OcrMatch {
  import opened Base
  import opened OcrText
  import opened OcrValues

  /** A buff type as the recogniser knows it; `allowedValues` lists the set in its iteration order. */
  datatype BuffDefinition = BuffDefinition(typeName: string, displayLabel: string, allowedValues: seq<int>, counts: map<int, int>)

  /** A candidate value text and its readings, as `_value_candidate_list` lists them. */
  type Candidate = (string, ValueCandidates)

  /** One value tried against a definition, with the text and readings it came from. */
  datatype ValueMatch = ValueMatch(value: int, text: string, meta: ValueCandidates)

  /** The values of one reading in the order they are tried: the percent reading, then the flat one. */
  function PossibleValues(c: ValueCandidates): (r: seq<int>)
    ensures forall v :: v in r <==> c.percent == Some(v) || c.flat == Some(v)
    ensures c.percent.Some? ==> |r| > 0 && r[0] == c.percent.value
    ensures |r| <= 2
  {
    (if c.percent.Some? then [c.percent.value] else []) + (if c.flat.Some? then [c.flat.value] else [])
  }

  function TriesOf(c: Candidate): (r: seq<ValueMatch>)
    ensures |r| == |PossibleValues(c.1)|
    ensures forall i :: 0 <= i < |r| ==> r[i] == ValueMatch(PossibleValues(c.1)[i], c.0, c.1)
  {
    var vs := PossibleValues(c.1);
    seq(|vs|, i requires 0 <= i < |vs| => ValueMatch(vs[i], c.0, c.1))
  }

  /** Every value tried, candidate by candidate. */
  function Tries(cs: seq<Candidate>): seq<ValueMatch>
  {
    if cs == [] then [] else Tries(cs[..|cs| - 1]) + TriesOf(cs[|cs| - 1])
  }

  function Dist(a: int, b: int): nat
  {
    if a >= b then a - b else b - a
  }

  /** Python's `min(allowed, key=distance to v)`: the first allowed value at the least distance. */
  function NearestIndex(allowed: seq<int>, v: int): (k: nat)
    requires allowed != []
    ensures k < |allowed|
    ensures forall i :: 0 <= i < |allowed| ==> Dist(allowed[k], v) <= Dist(allowed[i], v)
    ensures forall i :: 0 <= i < k ==> Dist(allowed[i], v) > Dist(allowed[k], v)
  {
    if |allowed| == 1 then 0
    else
      var k := NearestIndex(allowed[..|allowed| - 1], v);
      if Dist(allowed[|allowed| - 1], v) < Dist(allowed[k], v) then |allowed| - 1 else k
  }

  function Nearest(allowed: seq<int>, v: int): int
    requires allowed != []
  {
    allowed[NearestIndex(allowed, v)]
  }

  /** How far `v` is from the nearest allowed value. */
  function NearestDist(allowed: seq<int>, v: int): nat
    requires allowed != []
  {
    Dist(Nearest(allowed, v), v)
  }

  /** The first try whose value is allowed. */
  function FirstExact(allowed: seq<int>, ts: seq<ValueMatch>): (r: Option<nat>)
    ensures r.Some? ==> r.value < |ts| && ts[r.value].value in allowed
    ensures r.Some? ==> forall j :: 0 <= j < r.value ==> ts[j].value !in allowed
    ensures r.None? ==> forall j :: 0 <= j < |ts| ==> ts[j].value !in allowed
  {
    if ts == [] then None
    else match FirstExact(allowed, ts[..|ts| - 1])
      case Some(k) => Some(k)
      case None => if ts[|ts| - 1].value in allowed then Some(|ts| - 1) else None
  }

  /** The first position of the least distance, among the distances of at most 2. */
  function BestWithinTwo(ds: seq<nat>): (r: Option<nat>)
    ensures r.Some? ==> r.value < |ds| && ds[r.value] <= 2
    ensures r.Some? ==> forall j :: 0 <= j < |ds| ==> ds[r.value] <= ds[j]
    ensures r.Some? ==> forall j :: 0 <= j < r.value ==> ds[j] > ds[r.value]
    ensures r.None? ==> forall j :: 0 <= j < |ds| ==> ds[j] > 2
  {
    if ds == [] then None
    else
      var n := |ds| - 1;
      var b := BestWithinTwo(ds[..n]);
      if ds[n] <= 2 && (b.None? || ds[n] < ds[b.value]) then Some(n) else b
  }

  /** How far each value tried is from the nearest allowed value. */
  function Distances(allowed: seq<int>, ts: seq<ValueMatch>): (ds: seq<nat>)
    requires allowed != []
    ensures |ds| == |ts| && forall j :: 0 <= j < |ts| ==> ds[j] == NearestDist(allowed, ts[j].value)
  {
    seq(|ts|, j requires 0 <= j < |ts| => NearestDist(allowed, ts[j].value))
  }

  /** The fallback as `_match_value` keeps it: distance, nearest value, text and readings. */
  function Fallback(allowed: seq<int>, ts: seq<ValueMatch>): Option<(int, int, string, ValueCandidates)>
  {
    if allowed == [] then None
    else match BestWithinTwo(Distances(allowed, ts))
      case Some(k) => Some((NearestDist(allowed, ts[k].value), Nearest(allowed, ts[k].value), ts[k].text, ts[k].meta))
      case None => None
  }

  /** The outcome of trying `ts` in order: the first exact hit, else the best fallback, else nothing. */
  function MatchOf(allowed: seq<int>, ts: seq<ValueMatch>): (r: Option<ValueMatch>)
    ensures r.Some? ==> r.value.value in allowed
  {
    match FirstExact(allowed, ts)
    case Some(k) => Some(ts[k])
    case None =>
      match Fallback(allowed, ts)
      case Some(f) => Some(ValueMatch(f.1, f.2, f.3))
      case None => None
  }

  /** What `_match_value` returns for a list of candidates. */
  function MatchSpec(allowed: seq<int>, cs: seq<Candidate>): (r: Option<ValueMatch>)
    ensures r.Some? ==> r.value.value in allowed
  {
    MatchOf(allowed, Tries(cs))
  }

  /**
   * `_match_value`: candidates in order, percent before flat; the first
   * allowed value wins at once, otherwise the nearest allowed value within 2,
   * where only a strictly closer one replaces the current best.
   */
  method MatchValue(definition: BuffDefinition, candidates: seq<Candidate>) returns (r: Option<ValueMatch>)
    ensures r == MatchSpec(definition.allowedValues, candidates)
  {
    var allowed := definition.allowedValues;
    if |candidates| == 0 {
      return None;
    }
    var best: Option<(int, int, string, ValueCandidates)> := None;
    var c := 0;
    while c < |candidates|
      invariant 0 <= c <= |candidates|
      invariant FirstExact(allowed, Tries(candidates[..c])) == None
      invariant best == Fallback(allowed, Tries(candidates[..c]))
    {
      var hit;
      PrefixStep(candidates, c);
      hit, best := TryCandidate(allowed, candidates[c], best, Tries(candidates[..c]));
      if hit.Some? {
        TriesSplit(candidates, c);
        ExactPrefix(allowed, Tries(candidates[..c + 1]), Tries(candidates[c + 1..]));
        return hit;
      }
      c := c + 1;
    }
    assert candidates[..c] == candidates;
    if best.Some? {
      r := Some(ValueMatch(best.value.1, best.value.2, best.value.3));
    } else {
      r := None;
    }
  }

  /** The inner loop of `_match_value`: the values of one candidate, percent before flat. */
  method TryCandidate(allowed: seq<int>, candidate: Candidate, best0: Option<(int, int, string, ValueCandidates)>,
                      ghost before: seq<ValueMatch>)
    returns (hit: Option<ValueMatch>, best: Option<(int, int, string, ValueCandidates)>)
    requires FirstExact(allowed, before) == None && best0 == Fallback(allowed, before)
    ensures hit.None? ==> FirstExact(allowed, before + TriesOf(candidate)) == None
    ensures hit.None? ==> best == Fallback(allowed, before + TriesOf(candidate))
    ensures hit.Some? ==> FirstExact(allowed, before + TriesOf(candidate)).Some?
    ensures hit.Some? ==> hit == MatchOf(allowed, before + TriesOf(candidate))
  {
    best := best0;
    var text := candidate.0;
    var possible := PossibleValues(candidate.1);
    ghost var here := TriesOf(candidate);
    ghost var seen := before;
    var k := 0;
    while k < |possible|
      invariant 0 <= k <= |possible|
      invariant seen == before + here[..k]
      invariant FirstExact(allowed, seen) == None
      invariant best == Fallback(allowed, seen)
    {
      var candidateValue := possible[k];
      assert here[k] == ValueMatch(candidateValue, text, candidate.1);
      if candidateValue in allowed {
        ExactHit(allowed, before, here, k, seen);
        return Some(ValueMatch(candidateValue, text, candidate.1)), best;
      }
      best := TryFallback(allowed, ValueMatch(candidateValue, text, candidate.1), best, seen);
      Snoc(before, here, k, seen);
      seen := seen + [here[k]];
      k := k + 1;
    }
    assert here[..k] == here;
    hit := None;
  }

  /** A value that is not allowed: it becomes the fallback when within 2 and strictly closer than the current one. */
  method TryFallback(allowed: seq<int>, t: ValueMatch, best0: Option<(int, int, string, ValueCandidates)>,
                     ghost seen: seq<ValueMatch>)
    returns (best: Option<(int, int, string, ValueCandidates)>)
    requires FirstExact(allowed, seen) == None && best0 == Fallback(allowed, seen) && t.value !in allowed
    ensures FirstExact(allowed, seen + [t]) == None && best == Fallback(allowed, seen + [t])
  {
    best := best0;
    if |allowed| > 0 {
      var nearest := Nearest(allowed, t.value);
      var diff := Dist(nearest, t.value);
      if diff <= 2 && (best.None? || diff < best.value.0) {
        best := Some((diff, nearest, t.text, t.meta));
      }
    }
    TryStep(allowed, seen, t);
  }

  // ---------------------------------------------------------------------
  // Proof of the matching loop

  lemma Snoc<T>(a: seq<T>, b: seq<T>, k: nat, s: seq<T>)
    requires k < |b| && s == a + b[..k]
    ensures s + [b[k]] == a + b[..k + 1]
  {
    assert b[..k + 1] == b[..k] + [b[k]];
  }

  lemma SliceAt<T>(a: seq<T>, b: seq<T>, c: seq<T>, k: nat)
    requires k < |b|
    ensures (a + b + c)[..|a| + k] == a + b[..k] && (a + b + c)[|a| + k] == b[k]
  {
  }

  lemma PrefixStep(cs: seq<Candidate>, c: nat)
    requires c < |cs|
    ensures Tries(cs[..c + 1]) == Tries(cs[..c]) + TriesOf(cs[c])
  {
    assert cs[..c + 1][..c] == cs[..c];
  }

  lemma {:induction false} TriesAppend(a: seq<Candidate>, b: seq<Candidate>)
    ensures Tries(a + b) == Tries(a) + Tries(b)
    decreases |b|
  {
    if b == [] {
      assert a + b == a;
    } else {
      var n := |b| - 1;
      assert (a + b)[..|a + b| - 1] == a + b[..n];
      assert (a + b)[|a + b| - 1] == b[n];
      assert Tries(a + b) == Tries(a + b[..n]) + TriesOf(b[n]);
      TriesAppend(a, b[..n]);
    }
  }

  lemma TriesSplit(cs: seq<Candidate>, c: nat)
    requires c < |cs|
    ensures Tries(cs) == Tries(cs[..c]) + TriesOf(cs[c]) + Tries(cs[c + 1..])
  {
    var a := cs[..c + 1];
    var b := cs[c + 1..];
    assert cs == a + b;
    TriesAppend(a, b);
    PrefixStep(cs, c);
  }

  /** One more value tried, not allowed: no exact hit yet, and the fallback moves only to a strictly closer value. */
  lemma TryStep(allowed: seq<int>, seen: seq<ValueMatch>, t: ValueMatch)
    requires FirstExact(allowed, seen) == None && t.value !in allowed
    ensures FirstExact(allowed, seen + [t]) == None
    ensures Fallback(allowed, seen + [t]) ==
      if allowed == [] then None
      else
        var f := Fallback(allowed, seen);
        var d := NearestDist(allowed, t.value);
        if d <= 2 && (f.None? || d < f.value.0) then Some((d, Nearest(allowed, t.value), t.text, t.meta)) else f
  {
    var ts := seen + [t];
    assert forall j :: 0 <= j < |seen| ==> ts[j] == seen[j];
    assert ts[|seen|] == t;
    if allowed != [] {
      DistancesSnoc(allowed, seen, t);
      BestSnoc(Distances(allowed, seen), NearestDist(allowed, t.value));
    }
  }

  lemma DistancesSnoc(allowed: seq<int>, seen: seq<ValueMatch>, t: ValueMatch)
    requires allowed != []
    ensures Distances(allowed, seen + [t]) == Distances(allowed, seen) + [NearestDist(allowed, t.value)]
  {
    var ts := seen + [t];
    assert forall j :: 0 <= j < |seen| ==> ts[j] == seen[j];
  }

  lemma BestSnoc(ds: seq<nat>, d: nat)
    ensures BestWithinTwo(ds + [d]) ==
      var b := BestWithinTwo(ds);
      if d <= 2 && (b.None? || d < ds[b.value]) then Some(|ds|) else b
  {
    assert (ds + [d])[..|ds|] == ds;
  }

  lemma FirstExactAt(allowed: seq<int>, ts: seq<ValueMatch>, i: nat)
    requires i < |ts| && ts[i].value in allowed
    requires forall j :: 0 <= j < i ==> ts[j].value !in allowed
    ensures FirstExact(allowed, ts) == Some(i)
  {
  }

  /** An allowed value tried after none before it is the match. */
  lemma ExactHit(allowed: seq<int>, before: seq<ValueMatch>, here: seq<ValueMatch>, k: nat, seen: seq<ValueMatch>)
    requires k < |here| && seen == before + here[..k]
    requires FirstExact(allowed, seen) == None && here[k].value in allowed
    ensures FirstExact(allowed, before + here) == Some(|before| + k)
    ensures MatchOf(allowed, before + here) == Some(here[k])
  {
    var ts := before + here;
    assert forall j :: 0 <= j < |before| + k ==> ts[j] == seen[j];
    FirstExactAt(allowed, ts, |before| + k);
  }

  /** Once an exact hit is among the first tries, later tries do not matter. */
  lemma ExactPrefix(allowed: seq<int>, p: seq<ValueMatch>, rest: seq<ValueMatch>)
    requires FirstExact(allowed, p).Some?
    ensures MatchOf(allowed, p + rest) == MatchOf(allowed, p)
  {
    var k := FirstExact(allowed, p).value;
    assert forall j :: 0 <= j <= k ==> (p + rest)[j] == p[j];
    FirstExactAt(allowed, p + rest, k);
  }

  // ---------------------------------------------------------------------
  // What a match means

  /** Some value tried is within 2 of some allowed value. */
  predicate NearHit(allowed: seq<int>, ts: seq<ValueMatch>)
  {
    exists j, i :: 0 <= j < |ts| && 0 <= i < |allowed| && Dist(allowed[i], ts[j].value) <= 2
  }

  /** No match exactly when no value tried is within 2 of any allowed value. */
  lemma MatchNone(allowed: seq<int>, cs: seq<Candidate>)
    ensures MatchSpec(allowed, cs).None? <==> !NearHit(allowed, Tries(cs))
  {
    var ts := Tries(cs);
    if MatchSpec(allowed, cs).None? && allowed != [] {
      forall j, i | 0 <= j < |ts| && 0 <= i < |allowed| ensures Dist(allowed[i], ts[j].value) > 2 {
        assert NearestDist(allowed, ts[j].value) > 2;
      }
    }
    if MatchSpec(allowed, cs).Some? {
      MatchSomeNear(allowed, cs);
    }
  }

  lemma MatchSomeNear(allowed: seq<int>, cs: seq<Candidate>)
    requires MatchSpec(allowed, cs).Some?
    ensures NearHit(allowed, Tries(cs))
  {
    var ts := Tries(cs);
    match FirstExact(allowed, ts)
    case Some(k) =>
      var i :| 0 <= i < |allowed| && allowed[i] == ts[k].value;
      assert Dist(allowed[i], ts[k].value) == 0;
    case None =>
      assert allowed != [] && Fallback(allowed, ts).Some?;
      var k := BestWithinTwo(Distances(allowed, ts)).value;
      var i := NearestIndex(allowed, ts[k].value);
      assert Dist(allowed[i], ts[k].value) <= 2;
  }

  /** The first allowed value tried is the match, whatever values come after it. */
  lemma FirstExactWins(allowed: seq<int>, cs: seq<Candidate>, k: nat)
    requires k < |Tries(cs)| && Tries(cs)[k].value in allowed
    requires forall j :: 0 <= j < k ==> Tries(cs)[j].value !in allowed
    ensures MatchSpec(allowed, cs) == Some(Tries(cs)[k])
  {
    var r := FirstExact(allowed, Tries(cs));
    assert r.Some? && r.value == k;
  }

  /**
   * `v` is the allowed value nearest to try `j`, within 2 of it, and no
   * allowed value is closer to any try.
   */
  predicate ClosestTry(allowed: seq<int>, ts: seq<ValueMatch>, j: nat, v: int)
    requires allowed != [] && j < |ts|
  {
    v == Nearest(allowed, ts[j].value) && Dist(v, ts[j].value) <= 2
    && forall i, l :: 0 <= i < |allowed| && 0 <= l < |ts| ==> Dist(v, ts[j].value) <= Dist(allowed[i], ts[l].value)
  }

  /** Without an exact hit, the match is the allowed value nearest to the closest value tried. */
  lemma FallbackNearest(allowed: seq<int>, cs: seq<Candidate>)
    requires forall j :: 0 <= j < |Tries(cs)| ==> Tries(cs)[j].value !in allowed
    requires MatchSpec(allowed, cs).Some?
    ensures allowed != []
    ensures exists j :: 0 <= j < |Tries(cs)| && ClosestTry(allowed, Tries(cs), j, MatchSpec(allowed, cs).value.value)
  {
    var ts := Tries(cs);
    var k := BestWithinTwo(Distances(allowed, ts)).value;
    forall i, l | 0 <= i < |allowed| && 0 <= l < |ts|
      ensures NearestDist(allowed, ts[k].value) <= Dist(allowed[i], ts[l].value)
    {
      assert NearestDist(allowed, ts[l].value) <= Dist(allowed[i], ts[l].value);
    }
    assert ClosestTry(allowed, ts, k, MatchSpec(allowed, cs).value.value);
  }

  // ---------------------------------------------------------------------
  // Choosing among the matches of several definitions

  /** A definition that matched, with the value, its text and the readings it came from. */
  datatype Preferred = Preferred(definition: BuffDefinition, value: int, text: string, meta: ValueCandidates)

  /** `sort_key`: percent readings first (non-`_Flat` before `_Flat`), then flat readings (`_Flat` first). */
  function SortKey(m: Preferred): (int, int)
  {
    var flatName := IsFlatName(m.definition.typeName);
    if m.meta.percent == Some(m.value) then (0, if flatName then 1 else 0)
    else if m.meta.flat == Some(m.value) then (1, if flatName then 0 else 1)
    else (2, if flatName then 1 else 0)
  }

  /** Python's ordering of pairs. */
  predicate KeyLess(a: (int, int), b: (int, int))
  {
    a.0 < b.0 || (a.0 == b.0 && a.1 < b.1)
  }

  /** The first position of the least key. */
  function LeastKeyIndex(keys: seq<(int, int)>): (k: nat)
    requires keys != []
    ensures k < |keys|
    ensures forall i :: 0 <= i < |keys| ==> !KeyLess(keys[i], keys[k])
    ensures forall i :: 0 <= i < k ==> KeyLess(keys[k], keys[i])
  {
    if |keys| == 1 then 0
    else
      var k := LeastKeyIndex(keys[..|keys| - 1]);
      if KeyLess(keys[|keys| - 1], keys[k]) then |keys| - 1 else k
  }

  function SortKeys(ms: seq<Preferred>): (keys: seq<(int, int)>)
    ensures |keys| == |ms| && forall i :: 0 <= i < |ms| ==> keys[i] == SortKey(ms[i])
  {
    seq(|ms|, i requires 0 <= i < |ms| => SortKey(ms[i]))
  }

  /** Python's `min(matches, key=sort_key)`: the first match with the least key. */
  function PreferredIndex(ms: seq<Preferred>): (k: nat)
    requires ms != []
    ensures k < |ms|
    ensures forall i :: 0 <= i < |ms| ==> !KeyLess(SortKey(ms[i]), SortKey(ms[k]))
    ensures forall i :: 0 <= i < k ==> KeyLess(SortKey(ms[k]), SortKey(ms[i]))
  {
    LeastKeyIndex(SortKeys(ms))
  }

  /** `_select_preferred_match`. */
  function SelectPreferredMatch(ms: seq<Preferred>): (BuffDefinition, int, string)
    requires ms != []
  {
    var m := ms[PreferredIndex(ms)];
    (m.definition, m.value, m.text)
  }

  predicate PercentReading(m: Preferred)
  {
    m.meta.percent == Some(m.value)
  }

  predicate FlatReading(m: Preferred)
  {
    m.meta.percent != Some(m.value) && m.meta.flat == Some(m.value)
  }

  /** A match on the percent reading of a non-`_Flat` buff beats every other kind of match. */
  lemma PreferPercentReading(ms: seq<Preferred>, i: nat)
    requires i < |ms| && PercentReading(ms[i]) && !IsFlatName(ms[i].definition.typeName)
    ensures PercentReading(ms[PreferredIndex(ms)]) && !IsFlatName(ms[PreferredIndex(ms)].definition.typeName)
  {
    assert SortKey(ms[i]) == (0, 0);
  }

  /** A percent reading beats any flat reading, whichever buff it names. */
  lemma PercentBeforeFlat(ms: seq<Preferred>, i: nat)
    requires i < |ms| && PercentReading(ms[i])
    ensures PercentReading(ms[PreferredIndex(ms)])
  {
    assert SortKey(ms[i]).0 == 0;
  }

  /** Without percent readings, a flat reading of a `_Flat` buff wins. */
  lemma PreferFlatReading(ms: seq<Preferred>, i: nat)
    requires forall j :: 0 <= j < |ms| ==> !PercentReading(ms[j])
    requires i < |ms| && FlatReading(ms[i]) && IsFlatName(ms[i].definition.typeName)
    ensures FlatReading(ms[PreferredIndex(ms)]) && IsFlatName(ms[PreferredIndex(ms)].definition.typeName)
  {
    assert SortKey(ms[i]) == (1, 0);
  }
}
