// The label-alias table of the buff recogniser: normalised label keys, each
// mapped to the buff definitions it may name, and the lookup of a label's
// candidate definitions.

module OcrAliases {
  import opened Base
  import opened OcrText
  import opened OcrValues
  import opened OcrMatch

  /** `buff_definitions_by_type`. */
  type DefinitionTable = map<string, BuffDefinition>

  /** `_label_alias_map`; its key order is kept beside it. */
  type AliasMap = map<string, seq<BuffDefinition>>

  function TypeNames(defs: seq<BuffDefinition>): (r: seq<string>)
    ensures |r| == |defs| && forall i :: 0 <= i < |defs| ==> r[i] == defs[i].typeName
  {
    seq(|defs|, i requires 0 <= i < |defs| => defs[i].typeName)
  }

  predicate DistinctTypes(defs: seq<BuffDefinition>)
  {
    forall i, j :: 0 <= i < j < |defs| ==> defs[i].typeName != defs[j].typeName
  }

  /** Every definition is filed under its own type name. */
  predicate TableKeyed(table: DefinitionTable)
  {
    forall t :: t in table ==> table[t].typeName == t
  }

  /** `d` is the table's definition of its own type. */
  predicate FromTable(table: DefinitionTable, d: BuffDefinition)
  {
    d.typeName in table && table[d.typeName] == d
  }

  predicate AllFromTable(table: DefinitionTable, defs: seq<BuffDefinition>)
  {
    forall i :: 0 <= i < |defs| ==> FromTable(table, defs[i])
  }

  /** The position of the first definition of type `name`, at or after `from`. */
  function TypeIndexFrom(defs: seq<BuffDefinition>, name: string, from: nat): (r: Option<nat>)
    requires from <= |defs|
    ensures r.Some? ==> from <= r.value < |defs| && defs[r.value].typeName == name
    ensures r.None? ==> forall i :: from <= i < |defs| ==> defs[i].typeName != name
    decreases |defs| - from
  {
    if from == |defs| then None
    else if defs[from].typeName == name then Some(from)
    else TypeIndexFrom(defs, name, from + 1)
  }

  /** `existing[d.type_name] = d` on a dict kept as its values in insertion order. */
  function Upsert(defs: seq<BuffDefinition>, d: BuffDefinition): seq<BuffDefinition>
  {
    match TypeIndexFrom(defs, d.typeName, 0)
    case Some(i) => defs[i := d]
    case None => defs + [d]
  }

  function UpsertAll(defs: seq<BuffDefinition>, ds: seq<BuffDefinition>): seq<BuffDefinition>
  {
    if ds == [] then defs else Upsert(UpsertAll(defs, ds[..|ds| - 1]), ds[|ds| - 1])
  }

  /** The definitions the table has for `names`, in order, skipping unknown names. */
  function KnownDefinitions(table: DefinitionTable, names: seq<string>): (r: seq<BuffDefinition>)
    ensures TableKeyed(table) ==> AllFromTable(table, r)
    ensures forall d :: d in r <==> exists i :: 0 <= i < |names| && names[i] in table && d == table[names[i]]
  {
    if names == [] then []
    else
      var prev := KnownDefinitions(table, names[..|names| - 1]);
      var name := names[|names| - 1];
      assert forall i :: 0 <= i < |names| - 1 ==> names[..|names| - 1][i] == names[i];
      if name in table then prev + [table[name]] else prev
  }

  /** The alias table `_register_alias` leaves behind. */
  function Registered(aliases: AliasMap, order: seq<string>, table: DefinitionTable, alias: string, names: seq<string>)
    : (AliasMap, seq<string>)
  {
    var key := NormalizeLabelKey(alias);
    var defs := KnownDefinitions(table, names);
    if key == "" || defs == [] then (aliases, order)
    else
      var existing := if key in aliases then aliases[key] else [];
      (aliases[key := UpsertAll(existing, defs)], if key in aliases then order else order + [key])
  }

  /**
   * Every key is non-empty and names at least one definition, without a
   * repeated type, each the table's own; `order` lists the keys once each.
   */
  ghost predicate AliasesValid(aliases: AliasMap, order: seq<string>, table: DefinitionTable)
  {
    (forall k :: k in aliases ==>
      k != "" && aliases[k] != [] && DistinctTypes(aliases[k]) && AllFromTable(table, aliases[k]))
    && Distinct(order) && (forall k :: k in aliases <==> k in order)
  }

  // ---------------------------------------------------------------------
  // Registering merges without repeating a type

  /** One update keeps the types distinct, keeps every type in its place and adds `d`'s. */
  lemma UpsertMerges(defs: seq<BuffDefinition>, d: BuffDefinition)
    requires DistinctTypes(defs)
    ensures DistinctTypes(Upsert(defs, d))
    ensures forall t :: t in TypeNames(Upsert(defs, d)) <==> t in TypeNames(defs) || t == d.typeName
    ensures |Upsert(defs, d)| >= |defs|
    ensures forall i :: 0 <= i < |defs| ==> Upsert(defs, d)[i].typeName == defs[i].typeName
    ensures forall x :: x in Upsert(defs, d) ==> x in defs || x == d
    ensures d in Upsert(defs, d)
  {
    var r := Upsert(defs, d);
    match TypeIndexFrom(defs, d.typeName, 0)
    case Some(i) =>
      assert TypeNames(r) == TypeNames(defs);
      forall x | x in r ensures x in defs || x == d {
        var j :| 0 <= j < |r| && r[j] == x;
        if j != i {
          assert x == defs[j];
        }
      }
    case None =>
      assert TypeNames(r) == TypeNames(defs) + [d.typeName];
  }

  /**
   * `_register_alias`'s loop: the merged entry keeps the old types in their
   * places, adds the new ones, never repeats a type and invents no definition.
   */
  lemma {:induction false} UpsertAllMerges(defs: seq<BuffDefinition>, ds: seq<BuffDefinition>)
    requires DistinctTypes(defs)
    ensures DistinctTypes(UpsertAll(defs, ds))
    ensures forall t :: t in TypeNames(UpsertAll(defs, ds)) <==> t in TypeNames(defs) || t in TypeNames(ds)
    ensures |UpsertAll(defs, ds)| >= |defs|
    ensures forall i :: 0 <= i < |defs| ==> UpsertAll(defs, ds)[i].typeName == defs[i].typeName
    ensures forall x :: x in UpsertAll(defs, ds) ==> x in defs || x in ds
    ensures ds != [] ==> ds[|ds| - 1] in UpsertAll(defs, ds)
  {
    if ds != [] {
      var n := |ds| - 1;
      var prev := UpsertAll(defs, ds[..n]);
      UpsertAllMerges(defs, ds[..n]);
      UpsertMerges(prev, ds[n]);
      assert ds == ds[..n] + [ds[n]];
      assert TypeNames(ds) == TypeNames(ds[..n]) + [ds[n].typeName];
    }
  }

  /** Registering keeps the alias table well formed. */
  lemma RegisteredValid(aliases: AliasMap, order: seq<string>, table: DefinitionTable, alias: string, names: seq<string>)
    requires AliasesValid(aliases, order, table) && TableKeyed(table)
    ensures AliasesValid(Registered(aliases, order, table, alias, names).0, Registered(aliases, order, table, alias, names).1, table)
  {
    var key := NormalizeLabelKey(alias);
    var defs := KnownDefinitions(table, names);
    if key != "" && defs != [] {
      var existing := if key in aliases then aliases[key] else [];
      UpsertAllMerges(existing, defs);
      var merged := UpsertAll(existing, defs);
      assert merged != [];
      forall i | 0 <= i < |merged| ensures FromTable(table, merged[i]) {
        assert merged[i] in existing || merged[i] in defs;
      }
      var (a, o) := Registered(aliases, order, table, alias, names);
      if key !in aliases {
        assert key !in order;
        forall i, j | 0 <= i < j < |o| ensures o[i] != o[j] {
          if j == |order| {
            assert o[i] in order;
          }
        }
      }
    }
  }

  /** After registering, the key names every type it named before and every known type given. */
  lemma RegisteredTypes(aliases: AliasMap, order: seq<string>, table: DefinitionTable, alias: string, names: seq<string>)
    requires AliasesValid(aliases, order, table) && TableKeyed(table)
    requires NormalizeLabelKey(alias) != "" && KnownDefinitions(table, names) != []
    ensures NormalizeLabelKey(alias) in Registered(aliases, order, table, alias, names).0
    ensures forall t :: t in TypeNames(Registered(aliases, order, table, alias, names).0[NormalizeLabelKey(alias)]) <==>
      (NormalizeLabelKey(alias) in aliases && t in TypeNames(aliases[NormalizeLabelKey(alias)]))
      || (t in names && t in table)
  {
    var key := NormalizeLabelKey(alias);
    var existing := if key in aliases then aliases[key] else [];
    UpsertAllMerges(existing, KnownDefinitions(table, names));
    KnownTypes(table, names);
  }

  /** The known definitions name exactly the given names the table knows. */
  lemma {:induction false} KnownTypes(table: DefinitionTable, names: seq<string>)
    requires TableKeyed(table)
    ensures forall t :: t in TypeNames(KnownDefinitions(table, names)) <==> t in names && t in table
  {
    if names != [] {
      var n := |names| - 1;
      KnownTypes(table, names[..n]);
      assert names == names[..n] + [names[n]];
      var prev := KnownDefinitions(table, names[..n]);
      if names[n] in table {
        assert TypeNames(prev + [table[names[n]]]) == TypeNames(prev) + [names[n]];
      }
    }
  }

  // ---------------------------------------------------------------------
  // Looking up a label

  /** `collected.setdefault(d.type_name, d)`. */
  function SetDefault(defs: seq<BuffDefinition>, d: BuffDefinition): seq<BuffDefinition>
  {
    if d.typeName in TypeNames(defs) then defs else defs + [d]
  }

  function SetDefaultAll(defs: seq<BuffDefinition>, ds: seq<BuffDefinition>): seq<BuffDefinition>
  {
    if ds == [] then defs else SetDefault(SetDefaultAll(defs, ds[..|ds| - 1]), ds[|ds| - 1])
  }

  /** The definitions of every alias key, in key order, that occurs inside `key`; the first of each type. */
  function Collected(aliases: AliasMap, order: seq<string>, key: string): seq<BuffDefinition>
  {
    if order == [] then []
    else
      var prev := Collected(aliases, order[..|order| - 1], key);
      var k := order[|order| - 1];
      if k != "" && IsSubstring(k, key) && k in aliases then SetDefaultAll(prev, aliases[k]) else prev
  }

  /** The candidate definitions for a label key: its own entry, else those of the keys inside it. */
  function Options(aliases: AliasMap, order: seq<string>, key: string): seq<BuffDefinition>
  {
    var direct := if key in aliases then aliases[key] else [];
    if direct != [] then direct else Collected(aliases, order, key)
  }

  lemma {:induction false} SetDefaultAllFacts(defs: seq<BuffDefinition>, ds: seq<BuffDefinition>)
    requires DistinctTypes(defs)
    ensures DistinctTypes(SetDefaultAll(defs, ds))
    ensures forall x :: x in SetDefaultAll(defs, ds) ==> x in defs || x in ds
  {
    if ds != [] {
      var n := |ds| - 1;
      SetDefaultAllFacts(defs, ds[..n]);
      var prev := SetDefaultAll(defs, ds[..n]);
      if ds[n].typeName !in TypeNames(prev) {
        assert forall i :: 0 <= i < |prev| ==> prev[i].typeName != ds[n].typeName;
      }
    }
  }

  /** Collecting never repeats a type and takes only definitions of the table. */
  lemma {:induction false} CollectedFacts(aliases: AliasMap, order: seq<string>, key: string, table: DefinitionTable)
    requires forall k :: k in aliases ==> AllFromTable(table, aliases[k])
    ensures DistinctTypes(Collected(aliases, order, key))
    ensures AllFromTable(table, Collected(aliases, order, key))
  {
    if order != [] {
      var n := |order| - 1;
      CollectedFacts(aliases, order[..n], key, table);
      var prev := Collected(aliases, order[..n], key);
      var k := order[n];
      if k != "" && IsSubstring(k, key) && k in aliases {
        SetDefaultAllFacts(prev, aliases[k]);
        var r := SetDefaultAll(prev, aliases[k]);
        forall i | 0 <= i < |r| ensures FromTable(table, r[i]) {
          assert r[i] in prev || r[i] in aliases[k];
        }
      }
    }
  }

  /** A label's candidates are definitions of the table, none repeated. */
  lemma OptionsFacts(aliases: AliasMap, order: seq<string>, key: string, table: DefinitionTable)
    requires AliasesValid(aliases, order, table)
    ensures DistinctTypes(Options(aliases, order, key))
    ensures AllFromTable(table, Options(aliases, order, key))
  {
    CollectedFacts(aliases, order, key, table);
  }
}
