// The buff-slot recogniser: the alias table built at start-up, the
// resolution of a row's label and value texts to a buff, and the assembly of
// the grouped OCR rows into a fixed number of slots.

module OcrWorkflow {
  import opened Base
  import opened OcrText
  import opened OcrValues
  import opened OcrRows
  import opened OcrMatch
  import opened OcrAliases

  // ---------------------------------------------------------------------
  // Results

  /** The `status` of a `BuffSlotResult`. */
  datatype SlotStatus = Empty | Pending | Locked | Buff | Unknown | Missing

  /** `BuffSlotResult`. */
  datatype BuffSlot = BuffSlot(
    index: nat,
    status: SlotStatus,
    buffType: Option<string>,
    buffLabel: Option<string>,
    normalizedValue: Option<int>,
    rawTypeText: Option<string>,
    rawValueText: Option<string>,
    cleanedValueText: Option<string>,
    typeValid: bool,
    valueValid: bool,
    unlockRequirement: Option<nat>)

  /** `BuffWorkflowResult`. */
  datatype WorkflowResult = WorkflowResult(slots: seq<BuffSlot>, buffTypes: seq<Option<string>>, buffValues: seq<Option<int>>)

  /** What `_resolve_definition` returns: a definition, a matched value and the text it was read from. */
  datatype Resolution = Resolution(definition: Option<BuffDefinition>, value: Option<int>, text: Option<string>)

  // ---------------------------------------------------------------------
  // Sequence steps, kept apart so that they are proved in a small context

  lemma AppendLast<T>(a: seq<T>, b: seq<T>)
    requires b != []
    ensures a + b == (a + b[..|b| - 1]) + [b[|b| - 1]]
  {
  }

  lemma AppendPair<T>(a: seq<T>, x: T, y: T)
    ensures a + [x, y] == (a + [x]) + [y]
  {
  }

  lemma AppendThree<T>(a: seq<T>, x: T, y: T, z: T)
    ensures a + [x, y, z] == (a + [x]) + [y, z]
  {
  }

  lemma TakeStep<T>(s: seq<T>, i: nat)
    requires i < |s|
    ensures s[..i + 1][..i] == s[..i]
  {
  }

  // ---------------------------------------------------------------------
  // Start-up: the definition table and the aliases registered for it

  /** The table of definitions by type name, later definitions of a type replacing earlier ones. */
  function Table(defs: seq<BuffDefinition>): DefinitionTable
  {
    if defs == [] then map[] else Table(defs[..|defs| - 1])[defs[|defs| - 1].typeName := defs[|defs| - 1]]
  }

  /** The table files every definition under its own type and, when no type repeats, holds each of them. */
  lemma {:induction false} TableFacts(defs: seq<BuffDefinition>)
    ensures TableKeyed(Table(defs))
    ensures forall t :: t in Table(defs) <==> t in TypeNames(defs)
    ensures DistinctTypes(defs) ==> AllFromTable(Table(defs), defs)
  {
    if defs != [] {
      var n := |defs| - 1;
      TableFacts(defs[..n]);
      assert TypeNames(defs) == TypeNames(defs[..n]) + [defs[n].typeName];
      if DistinctTypes(defs) {
        assert DistinctTypes(defs[..n]);
        forall i | 0 <= i < n ensures FromTable(Table(defs), defs[i]) {
          assert defs[..n][i] == defs[i];
        }
      }
    }
  }

  /** The aliases registered for each definition, in order: its label and its cleaned label. */
  function DefinitionAliases(defs: seq<BuffDefinition>): (r: seq<(string, seq<string>)>)
    ensures |r| == 2 * |defs|
  {
    if defs == [] then []
    else
      var d := defs[|defs| - 1];
      DefinitionAliases(defs[..|defs| - 1]) + [(d.displayLabel, [d.typeName]), (CleanupBuffType(d.displayLabel), [d.typeName])]
  }

  /** The UI labels that lack their percent suffix and may name either reading. */
  const AmbiguousAliases: seq<(string, seq<string>)> :=
    [("攻击", ["Attack", "Attack_Flat"]), ("防御", ["Defence", "Defence_Flat"]), ("生命", ["HP", "HP_Flat"])]

  /** The alias table after registering a list of aliases in turn. */
  function RegisterAll(aliases: AliasMap, order: seq<string>, table: DefinitionTable, list: seq<(string, seq<string>)>)
    : (AliasMap, seq<string>)
  {
    if list == [] then (aliases, order)
    else
      var prev := RegisterAll(aliases, order, table, list[..|list| - 1]);
      Registered(prev.0, prev.1, table, list[|list| - 1].0, list[|list| - 1].1)
  }

  lemma RegisterAllSnoc(aliases: AliasMap, order: seq<string>, table: DefinitionTable,
                        list: seq<(string, seq<string>)>, x: (string, seq<string>))
    ensures RegisterAll(aliases, order, table, list + [x])
      == Registered(RegisterAll(aliases, order, table, list).0, RegisterAll(aliases, order, table, list).1, table, x.0, x.1)
  {
    assert (list + [x])[..|list|] == list;
  }

  /** The alias table `BuffWorkflow.__init__` builds for a list of definitions. */
  function InitialAliases(defs: seq<BuffDefinition>): (AliasMap, seq<string>)
  {
    RegisterAll(map[], [], Table(defs), DefinitionAliases(defs) + AmbiguousAliases)
  }

  /** Registering never drops a definition of the table from a key that already had it. */
  lemma RegisteredKeeps(aliases: AliasMap, order: seq<string>, table: DefinitionTable, alias: string, names: seq<string>,
                        key: string, d: BuffDefinition)
    requires AliasesValid(aliases, order, table) && TableKeyed(table)
    requires key in aliases && d in aliases[key]
    ensures key in Registered(aliases, order, table, alias, names).0
    ensures d in Registered(aliases, order, table, alias, names).0[key]
  {
    var k := NormalizeLabelKey(alias);
    var defs := KnownDefinitions(table, names);
    if k == key && defs != [] {
      var existing := aliases[key];
      UpsertAllMerges(existing, defs);
      RegisteredValid(aliases, order, table, alias, names);
      var merged := UpsertAll(existing, defs);
      var i :| 0 <= i < |existing| && existing[i] == d;
      assert FromTable(table, merged[i]) && FromTable(table, d);
      assert merged[i] == d;
    }
  }

  /** Registering a label for the table's definition of a type files that definition under the label's key. */
  lemma RegisteredAdds(aliases: AliasMap, order: seq<string>, table: DefinitionTable, alias: string, d: BuffDefinition)
    requires AliasesValid(aliases, order, table) && TableKeyed(table)
    requires FromTable(table, d) && NormalizeLabelKey(alias) != ""
    ensures NormalizeLabelKey(alias) in Registered(aliases, order, table, alias, [d.typeName]).0
    ensures d in Registered(aliases, order, table, alias, [d.typeName]).0[NormalizeLabelKey(alias)]
  {
    var key := NormalizeLabelKey(alias);
    var defs := KnownDefinitions(table, [d.typeName]);
    assert [d.typeName][..0] == [];
    assert KnownDefinitions(table, []) == [];
    assert defs == [d];
    var existing := if key in aliases then aliases[key] else [];
    UpsertAllMerges(existing, defs);
  }

  // ---------------------------------------------------------------------
  // Resolving a label and a value text

  /** The matches of several options, in option order, given how each option matches. */
  function MatchesBy(defs: seq<BuffDefinition>, matchOf: BuffDefinition -> Option<ValueMatch>): (ms: seq<Preferred>)
    ensures |ms| <= |defs|
    ensures forall i :: 0 <= i < |ms| ==>
      ms[i].definition in defs && matchOf(ms[i].definition) == Some(ValueMatch(ms[i].value, ms[i].text, ms[i].meta))
  {
    if defs == [] then []
    else
      var prev := MatchesBy(defs[..|defs| - 1], matchOf);
      var d := defs[|defs| - 1];
      match matchOf(d)
      case Some(m) => prev + [Preferred(d, m.value, m.text, m.meta)]
      case None => prev
  }

  lemma {:induction false} MatchesByEmpty(defs: seq<BuffDefinition>, matchOf: BuffDefinition -> Option<ValueMatch>)
    ensures MatchesBy(defs, matchOf) == [] <==> forall i :: 0 <= i < |defs| ==> matchOf(defs[i]).None?
  {
    if defs != [] {
      var n := |defs| - 1;
      MatchesByEmpty(defs[..n], matchOf);
      assert forall i :: 0 <= i < n ==> defs[..n][i] == defs[i];
    }
  }

  /** The options whose value matches, in option order, with the reading matched. */
  function Matches(defs: seq<BuffDefinition>, cs: seq<Candidate>): (ms: seq<Preferred>)
    ensures |ms| <= |defs|
    ensures forall i :: 0 <= i < |ms| ==> ms[i].definition in defs && ms[i].value in ms[i].definition.allowedValues
  {
    MatchesBy(defs, (d: BuffDefinition) => MatchSpec(d.allowedValues, cs))
  }

  /** Some option matches exactly when the list of matches is not empty. */
  lemma MatchesEmpty(defs: seq<BuffDefinition>, cs: seq<Candidate>)
    ensures Matches(defs, cs) == [] <==> forall i :: 0 <= i < |defs| ==> MatchSpec(defs[i].allowedValues, cs).None?
  {
    MatchesByEmpty(defs, (d: BuffDefinition) => MatchSpec(d.allowedValues, cs));
  }

  /** What `_resolve_definition` returns for a cleaned label and the value candidates. */
  function Resolve(aliases: AliasMap, order: seq<string>, rawTypeText: string, cs: seq<Candidate>): Resolution
  {
    var options := Options(aliases, order, NormalizeLabelKey(rawTypeText));
    if options == [] then Resolution(None, None, None)
    else if |options| == 1 then
      match MatchSpec(options[0].allowedValues, cs)
      case Some(m) => Resolution(Some(options[0]), Some(m.value), Some(m.text))
      case None => Resolution(Some(options[0]), None, None)
    else
      var ms := Matches(options, cs);
      if ms == [] then Resolution(None, None, None)
      else
        var p := SelectPreferredMatch(ms);
        Resolution(Some(p.0), Some(p.1), Some(p.2))
  }

  /**
   * A resolved value comes with its text and a definition that allows it; the
   * definition is one of the label's candidates and the table's own; with
   * several candidates a definition is only given together with a value.
   */
  lemma ResolveFacts(aliases: AliasMap, order: seq<string>, table: DefinitionTable, rawTypeText: string, cs: seq<Candidate>)
    requires AliasesValid(aliases, order, table)
    ensures var r := Resolve(aliases, order, rawTypeText, cs);
      (r.value.Some? <==> r.text.Some?)
      && (r.value.Some? ==> r.definition.Some? && r.value.value in r.definition.value.allowedValues)
      && (r.definition.Some? ==>
            r.definition.value in Options(aliases, order, NormalizeLabelKey(rawTypeText))
            && FromTable(table, r.definition.value))
      && (r.definition.Some? && |Options(aliases, order, NormalizeLabelKey(rawTypeText))| > 1 ==> r.value.Some?)
  {
    var options := Options(aliases, order, NormalizeLabelKey(rawTypeText));
    OptionsFacts(aliases, order, NormalizeLabelKey(rawTypeText), table);
    if |options| > 1 {
      var ms := Matches(options, cs);
      if ms != [] {
        var k := PreferredIndex(ms);
        assert ms[k].definition in options;
      }
    }
  }

  /** No definition is resolved exactly when the label has no candidate, or several of which none matches. */
  lemma ResolveUnknown(aliases: AliasMap, order: seq<string>, rawTypeText: string, cs: seq<Candidate>)
    ensures var options := Options(aliases, order, NormalizeLabelKey(rawTypeText));
      Resolve(aliases, order, rawTypeText, cs).definition.None? <==>
        options == [] || (|options| > 1 && forall i :: 0 <= i < |options| ==> MatchSpec(options[i].allowedValues, cs).None?)
  {
    MatchesEmpty(Options(aliases, order, NormalizeLabelKey(rawTypeText)), cs);
  }

  // ---------------------------------------------------------------------
  // One row, one slot

  function Texts(row: seq<Detection>): (r: seq<string>)
    ensures |r| == |row| && forall i :: 0 <= i < |row| ==> r[i] == row[i].text
  {
    seq(|row|, i requires 0 <= i < |row| => row[i].text)
  }

  /** The texts after the first detection of a row, joined. */
  function ValueText(row: seq<Detection>): string
  {
    if |row| > 1 then Concat(Texts(row[1..])) else ""
  }

  /** `text or None`. */
  function OrNone(s: string): (r: Option<string>)
    ensures r.None? <==> s == ""
    ensures r.Some? ==> r.value == s
  {
    if s == "" then None else Some(s)
  }

  /** A slot that carries no reading: empty, pending, locked or missing. */
  function BlankSlot(index: nat, status: SlotStatus, rawTypeText: Option<string>, unlock: Option<nat>): BuffSlot
  {
    BuffSlot(index, status, None, None, None, rawTypeText, None, None, false, false, unlock)
  }

  function MissingSlot(index: nat): BuffSlot
  {
    BlankSlot(index, Missing, None, None)
  }

  /** The slot of a row whose label was read, given the resolution of its label and value. */
  function ReadSlot(index: nat, rawTypeText: string, valueText: string, cs: seq<Candidate>, r: Resolution): BuffSlot
  {
    var typeValid := r.definition.Some?;
    var valueValid := r.value.Some? && typeValid;
    var cleaned := if cs != [] then cs[0].0 else CleanupValueToken(valueText);
    var matchedText := if r.text.Some? then r.text.value else "";
    BuffSlot(
      index,
      if typeValid && valueValid then Buff else Unknown,
      if valueValid then Some(r.definition.value.typeName) else None,
      if typeValid then Some(r.definition.value.displayLabel) else None,
      if valueValid then r.value else None,
      OrNone(rawTypeText),
      OrNone(valueText),
      if matchedText != "" then Some(matchedText) else OrNone(cleaned),
      typeValid,
      valueValid,
      None)
  }

  /** The slot `process_image` makes of the row at `index`; none for an empty row. */
  function RowSlot(aliases: AliasMap, order: seq<string>, row: seq<Detection>, index: nat): Option<BuffSlot>
  {
    if row == [] then None
    else
      var rawTypeText := CleanupBuffType(row[0].text);
      var statusKey := RemoveChar(rawTypeText, ' ');
      if rawTypeText == "" then Some(BlankSlot(index, Empty, None, None))
      else if HasPendingMarker(statusKey) then Some(BlankSlot(index, Pending, Some(rawTypeText), None))
      else
        match LockRequirement(statusKey)
        case Some(n) => Some(BlankSlot(index, Locked, Some(rawTypeText), Some(n)))
        case None =>
          var valueText := ValueText(row);
          var cs := ValueCandidatesOf(valueText);
          Some(ReadSlot(index, rawTypeText, valueText, cs, Resolve(aliases, order, rawTypeText, cs)))
  }

  /** A pending or locked slot ends the assembly. */
  predicate Stops(s: BuffSlot)
  {
    s.status == Pending || s.status == Locked
  }

  /** A slot reports a buff type and a value exactly when its status is "buff", and then both are valid. */
  predicate Consistent(s: BuffSlot)
  {
    (s.buffType.Some? <==> s.status == Buff)
    && (s.normalizedValue.Some? <==> s.status == Buff)
    && (s.status == Buff <==> s.typeValid && s.valueValid)
  }

  /** A "buff" slot names a type of the table and one of that type's allowed values. */
  predicate Sound(table: DefinitionTable, s: BuffSlot)
  {
    s.status == Buff ==>
      s.buffType.Some? && s.normalizedValue.Some? && s.buffType.value in table
      && s.normalizedValue.value in table[s.buffType.value].allowedValues
  }

  /** A read slot is consistent, and sound when the resolution's definition allows its value and is the table's. */
  lemma ReadSlotFacts(table: DefinitionTable, index: nat, rawTypeText: string, valueText: string, cs: seq<Candidate>, r: Resolution)
    requires r.value.Some? ==> r.definition.Some? && r.value.value in r.definition.value.allowedValues
    requires r.definition.Some? ==> FromTable(table, r.definition.value)
    ensures var s := ReadSlot(index, rawTypeText, valueText, cs, r);
      s.index == index && s.status != Missing && Consistent(s) && Sound(table, s)
  {
  }

  lemma RowSlotFacts(aliases: AliasMap, order: seq<string>, table: DefinitionTable, row: seq<Detection>, index: nat)
    requires AliasesValid(aliases, order, table)
    ensures RowSlot(aliases, order, row, index).None? <==> row == []
    ensures var s := RowSlot(aliases, order, row, index);
      s.Some? ==> s.value.index == index && s.value.status != Missing && Consistent(s.value) && Sound(table, s.value)
  {
    if row != [] {
      var rawTypeText := CleanupBuffType(row[0].text);
      var statusKey := RemoveChar(rawTypeText, ' ');
      if rawTypeText != "" && !HasPendingMarker(statusKey) && LockRequirement(statusKey).None? {
        var valueText := ValueText(row);
        var cs := ValueCandidatesOf(valueText);
        ResolveFacts(aliases, order, table, rawTypeText, cs);
        ReadSlotFacts(table, index, rawTypeText, valueText, cs, Resolve(aliases, order, rawTypeText, cs));
      }
    }
  }

  // ---------------------------------------------------------------------
  // Assembling the slots

  /** The slot of each row, if any, numbered by row. */
  function RowSlots(aliases: AliasMap, order: seq<string>, rows: seq<seq<Detection>>): (per: seq<Option<BuffSlot>>)
    ensures |per| == |rows| && forall k :: 0 <= k < |rows| ==> per[k] == RowSlot(aliases, order, rows[k], k)
  {
    seq(|rows|, k requires 0 <= k < |rows| => RowSlot(aliases, order, rows[k], k))
  }

  /** The slots from row `i` on, up to and including the first pending or locked one. */
  function Gather(per: seq<Option<BuffSlot>>, i: nat): (r: seq<BuffSlot>)
    requires i <= |per|
    ensures |r| <= |per| - i
    ensures forall j :: 0 <= j < |r| - 1 ==> !Stops(r[j])
    decreases |per| - i
  {
    if i == |per| then []
    else
      match per[i]
      case None => Gather(per, i + 1)
      case Some(s) => if Stops(s) then [s] else [s] + Gather(per, i + 1)
  }

  /** `count` missing slots numbered on from `from`. */
  function Padding(from: nat, count: nat): (r: seq<BuffSlot>)
    ensures |r| == count && forall j :: 0 <= j < count ==> r[j] == MissingSlot(from + j)
  {
    seq(count, j requires 0 <= j < count => MissingSlot(from + j))
  }

  /** The slots `process_image` returns for grouped rows: those read from the rows, then padding. */
  function Assembled(aliases: AliasMap, order: seq<string>, rows: seq<seq<Detection>>, maxSlots: nat): seq<BuffSlot>
  {
    var read := ReadSlots(aliases, order, rows, maxSlots);
    read + Padding(|read|, maxSlots - |read|)
  }

  /** The slots read from the first `maxSlots` rows, before padding. */
  function ReadSlots(aliases: AliasMap, order: seq<string>, rows: seq<seq<Detection>>, maxSlots: nat): (r: seq<BuffSlot>)
    ensures |r| <= maxSlots
  {
    Gather(RowSlots(aliases, order, rows[..MinNat(|rows|, maxSlots)]), 0)
  }

  /** The whole result: the slots and, beside them, each slot's buff type and value. */
  function WorkflowOf(aliases: AliasMap, order: seq<string>, rows: seq<seq<Detection>>, maxSlots: nat): WorkflowResult
  {
    var slots := Assembled(aliases, order, rows, maxSlots);
    WorkflowResult(
      slots,
      seq(|slots|, i requires 0 <= i < |slots| => slots[i].buffType),
      seq(|slots|, i requires 0 <= i < |slots| => slots[i].normalizedValue))
  }

  /** Every slot is consistent, sound, not padding, and numbered from `lo` to below `hi`. */
  predicate WellRead(table: DefinitionTable, r: seq<BuffSlot>, lo: nat, hi: nat)
  {
    forall j :: 0 <= j < |r| ==> Consistent(r[j]) && Sound(table, r[j]) && r[j].status != Missing && lo <= r[j].index < hi
  }

  /** Every row's slot is consistent, sound, not padding, and numbered by its row. */
  predicate RowsRead(table: DefinitionTable, per: seq<Option<BuffSlot>>)
  {
    forall k :: 0 <= k < |per| && per[k].Some? ==>
      per[k].value.index == k && per[k].value.status != Missing && Consistent(per[k].value) && Sound(table, per[k].value)
  }

  lemma RowSlotsFacts(aliases: AliasMap, order: seq<string>, table: DefinitionTable, rows: seq<seq<Detection>>)
    requires AliasesValid(aliases, order, table)
    ensures RowsRead(table, RowSlots(aliases, order, rows))
    ensures forall k :: 0 <= k < |rows| ==> (RowSlots(aliases, order, rows)[k].None? <==> rows[k] == [])
  {
    forall k | 0 <= k < |rows|
      ensures RowSlot(aliases, order, rows[k], k).None? <==> rows[k] == []
      ensures var s := RowSlot(aliases, order, rows[k], k);
        s.Some? ==> s.value.index == k && s.value.status != Missing && Consistent(s.value) && Sound(table, s.value)
    {
      RowSlotFacts(aliases, order, table, rows[k], k);
    }
  }

  /** The gathered slots inherit the rows' facts; with no empty row, each is numbered by position. */
  lemma {:induction false} GatherFacts(table: DefinitionTable, per: seq<Option<BuffSlot>>, i: nat)
    requires RowsRead(table, per) && i <= |per|
    ensures WellRead(table, Gather(per, i), i, |per|)
    ensures (forall k :: i <= k < |per| ==> per[k].Some?) ==>
      forall j :: 0 <= j < |Gather(per, i)| ==> Gather(per, i)[j].index == i + j
    decreases |per| - i
  {
    if i < |per| {
      GatherFacts(table, per, i + 1);
      var rest := Gather(per, i + 1);
      match per[i]
      case None =>
        assert Gather(per, i) == rest;
      case Some(s) =>
        if !Stops(s) {
          var r := [s] + rest;
          assert Gather(per, i) == r;
          assert forall j :: 1 <= j < |r| ==> r[j] == rest[j - 1];
        }
    }
  }

  lemma GatherSkip(per: seq<Option<BuffSlot>>, i: nat)
    requires i < |per| && per[i].None?
    ensures Gather(per, i) == Gather(per, i + 1)
  {
  }

  lemma GatherStep(per: seq<Option<BuffSlot>>, i: nat, slot: BuffSlot, before: seq<BuffSlot>, read: seq<BuffSlot>)
    requires i < |per| && per[i] == Some(slot)
    requires before + Gather(per, i) == read
    ensures Stops(slot) ==> before + [slot] == read
    ensures !Stops(slot) ==> (before + [slot]) + Gather(per, i + 1) == read
  {
    if !Stops(slot) {
      assert Gather(per, i) == [slot] + Gather(per, i + 1);
      assert (before + [slot]) + Gather(per, i + 1) == before + ([slot] + Gather(per, i + 1));
    }
  }

  /** The result has `maxSlots` slots: those read, then padding numbered on by position. */
  lemma AssembledShape(aliases: AliasMap, order: seq<string>, rows: seq<seq<Detection>>, maxSlots: nat)
    ensures |Assembled(aliases, order, rows, maxSlots)| == maxSlots
    ensures |ReadSlots(aliases, order, rows, maxSlots)| <= maxSlots
    ensures forall k :: 0 <= k < maxSlots ==>
      Assembled(aliases, order, rows, maxSlots)[k] ==
      (if k < |ReadSlots(aliases, order, rows, maxSlots)| then ReadSlots(aliases, order, rows, maxSlots)[k] else MissingSlot(k))
  {
    var read := ReadSlots(aliases, order, rows, maxSlots);
    var padding := Padding(|read|, maxSlots - |read|);
    forall k | |read| <= k < maxSlots ensures (read + padding)[k] == MissingSlot(k) {
      assert (read + padding)[k] == padding[k - |read|];
    }
  }

  /** `slots`, `buff_types` and `buff_values` all have `maxSlots` entries, each type and value its slot's. */
  lemma WorkflowShape(aliases: AliasMap, order: seq<string>, rows: seq<seq<Detection>>, maxSlots: nat)
    ensures var w := WorkflowOf(aliases, order, rows, maxSlots);
      |w.slots| == maxSlots && |w.buffTypes| == maxSlots && |w.buffValues| == maxSlots
      && forall k :: 0 <= k < maxSlots ==> w.buffTypes[k] == w.slots[k].buffType && w.buffValues[k] == w.slots[k].normalizedValue
  {
    AssembledShape(aliases, order, rows, maxSlots);
  }

  /**
   * A slot has a buff type exactly when its status is "buff", and then an
   * allowed value of that type; the missing slots are the padding.
   */
  lemma WorkflowSlots(aliases: AliasMap, order: seq<string>, table: DefinitionTable, rows: seq<seq<Detection>>, maxSlots: nat)
    requires AliasesValid(aliases, order, table)
    ensures var slots := WorkflowOf(aliases, order, rows, maxSlots).slots;
      (forall k :: 0 <= k < |slots| ==> Consistent(slots[k]) && Sound(table, slots[k]))
      && (forall k :: 0 <= k < |slots| && slots[k].status == Missing ==> slots[k] == MissingSlot(k))
  {
    AssembledShape(aliases, order, rows, maxSlots);
    var window := rows[..MinNat(|rows|, maxSlots)];
    RowSlotsFacts(aliases, order, table, window);
    GatherFacts(table, RowSlots(aliases, order, window), 0);
    var read := ReadSlots(aliases, order, rows, maxSlots);
    var slots := Assembled(aliases, order, rows, maxSlots);
    forall k | 0 <= k < |slots| ensures Consistent(slots[k]) && Sound(table, slots[k])
      && (slots[k].status == Missing ==> slots[k] == MissingSlot(k))
    {
      if k < |read| {
        assert slots[k] == read[k];
      }
    }
  }

  /** Assembly stops at the first pending or locked slot: only padding follows it. */
  lemma WorkflowStops(aliases: AliasMap, order: seq<string>, rows: seq<seq<Detection>>, maxSlots: nat)
    ensures var slots := WorkflowOf(aliases, order, rows, maxSlots).slots;
      forall j, k :: 0 <= j < k < |slots| && Stops(slots[j]) ==> slots[k] == MissingSlot(k)
  {
    AssembledShape(aliases, order, rows, maxSlots);
    var read := ReadSlots(aliases, order, rows, maxSlots);
    var slots := Assembled(aliases, order, rows, maxSlots);
    forall j, k | 0 <= j < k < |slots| && Stops(slots[j]) ensures slots[k] == MissingSlot(k) {
      assert j < |read| && slots[j] == read[j];
      assert j == |read| - 1;
    }
  }

  /** When no row is empty, as `_group_by_rows` guarantees, every slot's index is its position. */
  lemma WorkflowIndices(aliases: AliasMap, order: seq<string>, table: DefinitionTable, rows: seq<seq<Detection>>, maxSlots: nat)
    requires AliasesValid(aliases, order, table)
    requires forall k :: 0 <= k < |rows| ==> rows[k] != []
    ensures var w := WorkflowOf(aliases, order, rows, maxSlots);
      forall k :: 0 <= k < |w.slots| ==> w.slots[k].index == k
  {
    var window := rows[..MinNat(|rows|, maxSlots)];
    RowSlotsFacts(aliases, order, table, window);
    GatherFacts(table, RowSlots(aliases, order, window), 0);
  }

  /** `max(12.0, height * row_tolerance_ratio)`. */
  function Tolerance(height: nat, ratio: real): (t: real)
    ensures t >= 12.0 && t >= (height as real) * ratio
    ensures t == 12.0 || t == (height as real) * ratio
  {
    if (height as real) * ratio > 12.0 then (height as real) * ratio else 12.0
  }

  /** Every definition with a non-empty label key is among that key's definitions. */
  predicate LabelsFiled(aliases: AliasMap, defs: seq<BuffDefinition>)
  {
    forall i :: 0 <= i < |defs| && NormalizeLabelKey(defs[i].displayLabel) != "" ==>
      NormalizeLabelKey(defs[i].displayLabel) in aliases && defs[i] in aliases[NormalizeLabelKey(defs[i].displayLabel)]
  }

  lemma RegisteredKeepsLabels(aliases: AliasMap, order: seq<string>, table: DefinitionTable, alias: string, names: seq<string>,
                              defs: seq<BuffDefinition>)
    requires AliasesValid(aliases, order, table) && TableKeyed(table) && LabelsFiled(aliases, defs)
    ensures LabelsFiled(Registered(aliases, order, table, alias, names).0, defs)
  {
    forall i | 0 <= i < |defs| && NormalizeLabelKey(defs[i].displayLabel) != ""
      ensures NormalizeLabelKey(defs[i].displayLabel) in Registered(aliases, order, table, alias, names).0
      ensures defs[i] in Registered(aliases, order, table, alias, names).0[NormalizeLabelKey(defs[i].displayLabel)]
    {
      RegisteredKeeps(aliases, order, table, alias, names, NormalizeLabelKey(defs[i].displayLabel), defs[i]);
    }
  }

  lemma DefinitionAliasesSnoc(defs: seq<BuffDefinition>, i: nat)
    requires i < |defs|
    ensures DefinitionAliases(defs[..i + 1]) == DefinitionAliases(defs[..i])
      + [(defs[i].displayLabel, [defs[i].typeName]), (CleanupBuffType(defs[i].displayLabel), [defs[i].typeName])]
  {
    TakeStep(defs, i);
  }

  /** Registering two aliases after a list is registering the list extended by both. */
  lemma RegisterAllPair(aliases: AliasMap, order: seq<string>, table: DefinitionTable,
                        list: seq<(string, seq<string>)>, x: (string, seq<string>), y: (string, seq<string>))
    ensures RegisterAll(aliases, order, table, list + [x, y]) ==
      var p := RegisterAll(aliases, order, table, list);
      var q := Registered(p.0, p.1, table, x.0, x.1);
      Registered(q.0, q.1, table, y.0, y.1)
  {
    AppendPair(list, x, y);
    RegisterAllSnoc(aliases, order, table, list + [x], y);
    RegisterAllSnoc(aliases, order, table, list, x);
  }

  /** Any list of aliases registered from nothing leaves a well-formed table. */
  lemma {:induction false} RegisterAllValid(table: DefinitionTable, list: seq<(string, seq<string>)>)
    requires TableKeyed(table)
    ensures AliasesValid(RegisterAll(map[], [], table, list).0, RegisterAll(map[], [], table, list).1, table)
  {
    if list != [] {
      var n := |list| - 1;
      RegisterAllValid(table, list[..n]);
      var p := RegisterAll(map[], [], table, list[..n]);
      RegisteredValid(p.0, p.1, table, list[n].0, list[n].1);
    }
  }

  /** Registering more aliases never takes a definition away from its label. */
  lemma {:induction false} RegisterAllKeeps(table: DefinitionTable, list: seq<(string, seq<string>)>,
                                            extra: seq<(string, seq<string>)>, defs: seq<BuffDefinition>)
    requires TableKeyed(table) && LabelsFiled(RegisterAll(map[], [], table, list).0, defs)
    ensures LabelsFiled(RegisterAll(map[], [], table, list + extra).0, defs)
  {
    if extra == [] {
      assert list + extra == list;
    } else {
      var n := |extra| - 1;
      RegisterAllKeeps(table, list, extra[..n], defs);
      AppendLast(list, extra);
      RegisterAllSnoc(map[], [], table, list + extra[..n], extra[n]);
      RegisterAllValid(table, list + extra[..n]);
      var p := RegisterAll(map[], [], table, list + extra[..n]);
      RegisteredKeepsLabels(p.0, p.1, table, extra[n].0, extra[n].1, defs);
    }
  }

  /** Registering a definition's label and cleaned label files it under its label's key. */
  lemma OwnLabel(table: DefinitionTable, done: seq<(string, seq<string>)>, d: BuffDefinition)
    requires TableKeyed(table) && FromTable(table, d) && NormalizeLabelKey(d.displayLabel) != ""
    ensures var r := RegisterAll(map[], [], table, done + [(d.displayLabel, [d.typeName]), (CleanupBuffType(d.displayLabel), [d.typeName])]).0;
      NormalizeLabelKey(d.displayLabel) in r && d in r[NormalizeLabelKey(d.displayLabel)]
  {
    var own := (d.displayLabel, [d.typeName]);
    var cleaned := (CleanupBuffType(d.displayLabel), [d.typeName]);
    RegisterAllValid(table, done);
    var p := RegisterAll(map[], [], table, done);
    RegisteredAdds(p.0, p.1, table, d.displayLabel, d);
    RegisterAllSnoc(map[], [], table, done, own);
    RegisterAllValid(table, done + [own]);
    var q := RegisterAll(map[], [], table, done + [own]);
    RegisteredKeeps(q.0, q.1, table, cleaned.0, cleaned.1, NormalizeLabelKey(d.displayLabel), d);
    RegisterAllSnoc(map[], [], table, done + [own], cleaned);
    AppendPair(done, own, cleaned);
  }

  lemma LabelsSnoc(r: AliasMap, defs: seq<BuffDefinition>)
    requires defs != [] && LabelsFiled(r, defs[..|defs| - 1])
    requires var d := defs[|defs| - 1];
      NormalizeLabelKey(d.displayLabel) != "" ==> NormalizeLabelKey(d.displayLabel) in r && d in r[NormalizeLabelKey(d.displayLabel)]
    ensures LabelsFiled(r, defs)
  {
    forall i | 0 <= i < |defs| - 1 ensures defs[..|defs| - 1][i] == defs[i] {
    }
  }

  /** After the labels of the definitions are registered, each definition is among its label's. */
  lemma {:induction false} DefinitionLabels(table: DefinitionTable, defs: seq<BuffDefinition>)
    requires TableKeyed(table) && AllFromTable(table, defs)
    ensures LabelsFiled(RegisterAll(map[], [], table, DefinitionAliases(defs)).0, defs)
  {
    if defs != [] {
      var n := |defs| - 1;
      var d := defs[n];
      assert defs[..n + 1] == defs;
      assert AllFromTable(table, defs[..n]);
      DefinitionLabels(table, defs[..n]);
      var done := DefinitionAliases(defs[..n]);
      var own := (d.displayLabel, [d.typeName]);
      var cleaned := (CleanupBuffType(d.displayLabel), [d.typeName]);
      DefinitionAliasesSnoc(defs, n);
      RegisterAllKeeps(table, done, [own, cleaned], defs[..n]);
      if NormalizeLabelKey(d.displayLabel) != "" {
        OwnLabel(table, done, d);
      }
      assert DefinitionAliases(defs) == done + [own, cleaned];
      var r := RegisterAll(map[], [], table, done + [own, cleaned]).0;
      LabelsSnoc(r, defs);
    }
  }

  /**
   * Start-up files every definition under its own label's key, so that a
   * clean reading of a buff's label always offers that buff.
   */
  lemma InitialLabels(defs: seq<BuffDefinition>)
    requires DistinctTypes(defs)
    ensures LabelsFiled(InitialAliases(defs).0, defs)
  {
    TableFacts(defs);
    DefinitionLabels(Table(defs), defs);
    RegisterAllKeeps(Table(defs), DefinitionAliases(defs), AmbiguousAliases, defs);
  }

  /** The loop of `_register_alias`: each definition replaces the one of its type, or is appended. */
  method MergeDefinitions(existing: seq<BuffDefinition>, definitions: seq<BuffDefinition>) returns (merged: seq<BuffDefinition>)
    ensures merged == UpsertAll(existing, definitions)
  {
    merged := existing;
    var i := 0;
    while i < |definitions|
      invariant 0 <= i <= |definitions|
      invariant merged == UpsertAll(existing, definitions[..i])
    {
      TakeStep(definitions, i);
      merged := Upsert(merged, definitions[i]);
      i := i + 1;
    }
    assert definitions[..i] == definitions;
  }

  // ---------------------------------------------------------------------
  // The workflow object

  /** `BuffWorkflow`: the slot limit, the row tolerance, the definitions and the alias table built from them. */
  class BuffWorkflow {
    const maxSlots: nat
    const rowToleranceRatio: real
    const definitionsByType: DefinitionTable
    var aliasMap: AliasMap
    /** The keys of `aliasMap` in insertion order, the order Python's dict iterates them in. */
    var aliasOrder: seq<string>

    ghost predicate Valid()
      reads this
    {
      maxSlots >= 1 && rowToleranceRatio >= 0.0 && TableKeyed(definitionsByType)
      && AliasesValid(aliasMap, aliasOrder, definitionsByType)
    }

    /**
     * `__init__`: clamps the limits, then registers each definition's label
     * and cleaned label for it, then the three labels that may name either a
     * percent or a flat buff. Each definition ends up among its label's.
     */
    constructor (definitions: seq<BuffDefinition>, maxSlots: int, rowToleranceRatio: real)
      requires DistinctTypes(definitions)
      ensures Valid()
      ensures this.maxSlots == (if maxSlots < 1 then 1 else maxSlots)
      ensures this.rowToleranceRatio == (if rowToleranceRatio < 0.0 then 0.0 else rowToleranceRatio)
      ensures definitionsByType == Table(definitions)
      ensures (aliasMap, aliasOrder) == InitialAliases(definitions)
      ensures LabelsFiled(aliasMap, definitions)
    {
      this.maxSlots := if maxSlots < 1 then 1 else maxSlots;
      this.rowToleranceRatio := if rowToleranceRatio < 0.0 then 0.0 else rowToleranceRatio;
      definitionsByType := Table(definitions);
      aliasMap := map[];
      aliasOrder := [];
      new;
      TableFacts(definitions);
      var i := 0;
      while i < |definitions|
        invariant 0 <= i <= |definitions|
        invariant Valid()
        invariant (aliasMap, aliasOrder) == RegisterAll(map[], [], definitionsByType, DefinitionAliases(definitions[..i]))
      {
        var d := definitions[i];
        DefinitionAliasesSnoc(definitions, i);
        RegisterAllPair(map[], [], definitionsByType, DefinitionAliases(definitions[..i]),
          (d.displayLabel, [d.typeName]), (CleanupBuffType(d.displayLabel), [d.typeName]));
        RegisterAlias(d.displayLabel, [d.typeName]);
        RegisterAlias(CleanupBuffType(d.displayLabel), [d.typeName]);
        i := i + 1;
      }
      assert definitions[..i] == definitions;
      RegisterAmbiguous(DefinitionAliases(definitions));
      InitialLabels(definitions);
    }

    /** The three labels that may name a percent or a flat buff, registered last. */
    method RegisterAmbiguous(ghost done: seq<(string, seq<string>)>)
      modifies this
      requires Valid() && (aliasMap, aliasOrder) == RegisterAll(map[], [], definitionsByType, done)
      ensures Valid() && (aliasMap, aliasOrder) == RegisterAll(map[], [], definitionsByType, done + AmbiguousAliases)
    {
      AppendThree(done, AmbiguousAliases[0], AmbiguousAliases[1], AmbiguousAliases[2]);
      RegisterAllSnoc(map[], [], definitionsByType, done, AmbiguousAliases[0]);
      RegisterAllPair(map[], [], definitionsByType, done + [AmbiguousAliases[0]], AmbiguousAliases[1], AmbiguousAliases[2]);
      RegisterAlias("攻击", ["Attack", "Attack_Flat"]);
      RegisterAlias("防御", ["Defence", "Defence_Flat"]);
      RegisterAlias("生命", ["HP", "HP_Flat"]);
    }

    /**
     * `_register_alias`: under the alias's key, merges the table's
     * definitions of the given types into those already there, a type given
     * again replacing its old definition in place; a blank key or a list of
     * unknown types changes nothing.
     */
    method RegisterAlias(alias: string, typeNames: seq<string>)
      modifies this
      requires Valid()
      ensures Valid()
      ensures (aliasMap, aliasOrder) == Registered(old(aliasMap), old(aliasOrder), definitionsByType, alias, typeNames)
    {
      ghost var target := Registered(aliasMap, aliasOrder, definitionsByType, alias, typeNames);
      RegisteredValid(aliasMap, aliasOrder, definitionsByType, alias, typeNames);
      var key := NormalizeLabelKey(alias);
      if key == "" {
        return;
      }
      var definitions := KnownDefinitions(definitionsByType, typeNames);
      if definitions == [] {
        return;
      }
      // The dict rebuilt from the key's definitions is the same list, their types being distinct.
      var existing := if key in aliasMap then aliasMap[key] else [];
      var merged := MergeDefinitions(existing, definitions);
      if key !in aliasMap {
        aliasOrder := aliasOrder + [key];
      }
      aliasMap := aliasMap[key := merged];
      assert (aliasMap, aliasOrder) == target;
    }

    /** The `setdefault` loop over one alias key's definitions. */
    method SetDefaults(collected: seq<BuffDefinition>, definitions: seq<BuffDefinition>) returns (r: seq<BuffDefinition>)
      ensures r == SetDefaultAll(collected, definitions)
    {
      r := collected;
      var j := 0;
      while j < |definitions|
        invariant 0 <= j <= |definitions|
        invariant r == SetDefaultAll(collected, definitions[..j])
      {
        TakeStep(definitions, j);
        if definitions[j].typeName !in TypeNames(r) {
          r := r + [definitions[j]];
        }
        j := j + 1;
      }
      assert definitions[..j] == definitions;
    }

    /** The fallback of `_resolve_definition`: the definitions of every alias key inside `key`, first of each type. */
    method CollectOptions(key: string) returns (collected: seq<BuffDefinition>)
      requires Valid()
      ensures collected == Collected(aliasMap, aliasOrder, key)
    {
      collected := [];
      var i := 0;
      while i < |aliasOrder|
        invariant 0 <= i <= |aliasOrder|
        invariant collected == Collected(aliasMap, aliasOrder[..i], key)
      {
        TakeStep(aliasOrder, i);
        var aliasKey := aliasOrder[i];
        if aliasKey != "" && IsSubstring(aliasKey, key) {
          collected := SetDefaults(collected, aliasMap[aliasKey]);
        }
        i := i + 1;
      }
      assert aliasOrder[..i] == aliasOrder;
    }

    /** The matches loop of `_resolve_definition`: every option whose value matches, with the reading. */
    method CollectMatches(options: seq<BuffDefinition>, candidates: seq<Candidate>) returns (matches: seq<Preferred>)
      ensures matches == Matches(options, candidates)
    {
      matches := [];
      var i := 0;
      while i < |options|
        invariant 0 <= i <= |options|
        invariant matches == Matches(options[..i], candidates)
      {
        TakeStep(options, i);
        var m := MatchValue(options[i], candidates);
        if m.Some? {
          matches := matches + [Preferred(options[i], m.value.value, m.value.text, m.value.meta)];
        }
        i := i + 1;
      }
      assert options[..i] == options;
    }

    /**
     * `_resolve_definition`: the label key's own definitions, else those of the
     * keys inside it; none gives nothing, one is matched alone, several keep
     * only those whose value matches and the preferred of them wins.
     */
    method ResolveDefinition(rawTypeText: string, candidates: seq<Candidate>) returns (r: Resolution)
      requires Valid()
      ensures r == Resolve(aliasMap, aliasOrder, rawTypeText, candidates)
      ensures r.value.Some? ==> r.definition.Some? && r.value.value in r.definition.value.allowedValues
      ensures r.definition.Some? ==> FromTable(definitionsByType, r.definition.value)
    {
      ResolveFacts(aliasMap, aliasOrder, definitionsByType, rawTypeText, candidates);
      var key := NormalizeLabelKey(rawTypeText);
      var options := if key in aliasMap then aliasMap[key] else [];
      if options == [] {
        options := CollectOptions(key);
      }
      if options == [] {
        return Resolution(None, None, None);
      }
      if |options| == 1 {
        var m := MatchValue(options[0], candidates);
        if m.Some? {
          return Resolution(Some(options[0]), Some(m.value.value), Some(m.value.text));
        }
        return Resolution(Some(options[0]), None, None);
      }
      var matches := CollectMatches(options, candidates);
      if matches == [] {
        return Resolution(None, None, None);
      }
      var preferred := SelectPreferredMatch(matches);
      r := Resolution(Some(preferred.0), Some(preferred.1), Some(preferred.2));
    }

    /** The body of `process_image`'s row loop for a row that is not empty. */
    method ReadRow(row: seq<Detection>, index: nat) returns (slot: BuffSlot)
      requires Valid() && row != []
      ensures RowSlot(aliasMap, aliasOrder, row, index) == Some(slot)
    {
      var rawTypeText := CleanupBuffType(row[0].text);
      var statusKey := RemoveChar(rawTypeText, ' ');
      if rawTypeText == "" {
        return BlankSlot(index, Empty, None, None);
      }
      if HasPendingMarker(statusKey) {
        return BlankSlot(index, Pending, Some(rawTypeText), None);
      }
      var requirement := LockRequirement(statusKey);
      if requirement.Some? {
        return BlankSlot(index, Locked, Some(rawTypeText), requirement);
      }
      var valueText := ValueText(row);
      var candidates := ValueCandidateList(valueText);
      var resolution := ResolveDefinition(rawTypeText, candidates);
      slot := ReadSlot(index, rawTypeText, valueText, candidates, resolution);
    }

    /**
     * The row loop of `process_image`: a slot per non-empty row among the
     * first `maxSlots`, stopping after a pending or locked one; beside each
     * slot its type and value when it is a buff.
     */
    method ReadRows(rows: seq<seq<Detection>>) returns (slots: seq<BuffSlot>, buffTypes: seq<Option<string>>, buffValues: seq<Option<int>>)
      requires Valid()
      ensures slots == ReadSlots(aliasMap, aliasOrder, rows, maxSlots)
      ensures |buffTypes| == |slots| && |buffValues| == |slots|
      ensures forall j :: 0 <= j < |slots| ==> buffTypes[j] == slots[j].buffType && buffValues[j] == slots[j].normalizedValue
    {
      var limit := MinNat(|rows|, maxSlots);
      ghost var window := rows[..limit];
      ghost var per := RowSlots(aliasMap, aliasOrder, window);
      ghost var read := Gather(per, 0);
      RowSlotsFacts(aliasMap, aliasOrder, definitionsByType, window);
      slots, buffTypes, buffValues := [], [], [];
      var index := 0;
      while index < limit
        invariant 0 <= index <= limit
        invariant slots + Gather(per, index) == read
        invariant |buffTypes| == |slots| && |buffValues| == |slots|
        invariant forall j :: 0 <= j < |slots| ==>
          buffTypes[j] == slots[j].buffType && buffValues[j] == slots[j].normalizedValue
      {
        var row := rows[index];
        if row == [] {
          GatherSkip(per, index);
          index := index + 1;
          continue;
        }
        var slot := ReadRow(row, index);
        assert per[index] == Some(slot);
        var stop;
        slots, buffTypes, buffValues, stop := Record(per, index, slot, slots, buffTypes, buffValues, read);
        if stop {
          break;
        }
        index := index + 1;
      }
    }

    /** Appends a row's slot and, when it is a buff, its type and value; a pending or locked slot stops the loop. */
    static method Record(ghost per: seq<Option<BuffSlot>>, index: nat, slot: BuffSlot,
                         slots: seq<BuffSlot>, buffTypes: seq<Option<string>>, buffValues: seq<Option<int>>,
                         ghost read: seq<BuffSlot>)
      returns (slots': seq<BuffSlot>, buffTypes': seq<Option<string>>, buffValues': seq<Option<int>>, stop: bool)
      requires index < |per| && per[index] == Some(slot) && Consistent(slot)
      requires slots + Gather(per, index) == read
      requires |buffTypes| == |slots| && |buffValues| == |slots|
      requires forall j :: 0 <= j < |slots| ==> buffTypes[j] == slots[j].buffType && buffValues[j] == slots[j].normalizedValue
      ensures stop <==> Stops(slot)
      ensures stop ==> slots' == read
      ensures !stop ==> slots' + Gather(per, index + 1) == read
      ensures |buffTypes'| == |slots'| && |buffValues'| == |slots'|
      ensures forall j :: 0 <= j < |slots'| ==> buffTypes'[j] == slots'[j].buffType && buffValues'[j] == slots'[j].normalizedValue
    {
      GatherStep(per, index, slot, slots, read);
      slots' := slots + [slot];
      if slot.status == Pending || slot.status == Locked {
        return slots', buffTypes + [None], buffValues + [None], true;
      }
      if slot.typeValid && slot.valueValid {
        buffTypes', buffValues' := buffTypes + [slot.buffType], buffValues + [slot.normalizedValue];
      } else {
        buffTypes', buffValues' := buffTypes + [None], buffValues + [None];
      }
      stop := false;
    }

    /** `process_image` after grouping: the slots read from the rows, then missing slots up to `maxSlots`. */
    method AssembleSlots(rows: seq<seq<Detection>>) returns (result: WorkflowResult)
      requires Valid()
      ensures result == WorkflowOf(aliasMap, aliasOrder, rows, maxSlots)
    {
      var slots, buffTypes, buffValues := ReadRows(rows);
      ghost var read := slots;
      var current := |slots|;
      while current < maxSlots
        invariant |read| <= current <= maxSlots
        invariant slots == read + Padding(|read|, current - |read|)
        invariant |buffTypes| == |slots| && |buffValues| == |slots|
        invariant forall j :: 0 <= j < |slots| ==>
          buffTypes[j] == slots[j].buffType && buffValues[j] == slots[j].normalizedValue
      {
        slots := slots + [MissingSlot(current)];
        buffTypes, buffValues := buffTypes + [None], buffValues + [None];
        current := current + 1;
      }
      result := WorkflowResult(slots, buffTypes, buffValues);
    }

    /**
     * `process_image` from the detections on: nothing for no detections;
     * otherwise the rows grouped with tolerance `max(12, height * ratio)`,
     * assembled into exactly `maxSlots` slots with their types and values.
     */
    method ProcessImage(detections: seq<Detection>, height: nat) returns (result: WorkflowResult)
      requires Valid()
      ensures detections == [] ==> result == WorkflowResult([], [], [])
      ensures detections != [] ==>
        result == WorkflowOf(aliasMap, aliasOrder, GroupRows(detections, Tolerance(height, rowToleranceRatio)), maxSlots)
      ensures detections != [] ==>
        |result.slots| == maxSlots && |result.buffTypes| == maxSlots && |result.buffValues| == maxSlots
        && forall k :: 0 <= k < maxSlots ==> result.slots[k].index == k
    {
      if detections == [] {
        return WorkflowResult([], [], []);
      }
      var tolerance := Tolerance(height, rowToleranceRatio);
      var rows := GroupByRows(detections, tolerance);
      result := AssembleSlots(rows);
      WorkflowShape(aliasMap, aliasOrder, rows, maxSlots);
      WorkflowIndices(aliasMap, aliasOrder, definitionsByType, rows, maxSlots);
    }
  }
}
