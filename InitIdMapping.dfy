/**
 * The legacy migration that infers the id override map
 * (blue_archive/legacy/init_id_mapping.py): the ids already published are
 * indexed by Japanese short name, and every profile whose personal name has a
 * published id that differs from the id derived from its romaji maps the
 * derived id to the published one.
 */
module InitIdMapping {
  import opened Results
  import opened Common
  import opened Models

  // ---------------------------------------------------------------- existing ids

  /**
   * `{c.short_names["ja"]: c.id for c in chars}` (lines 25-27): a later
   * character wins on a shared short name; a KeyError when a character has no
   * Japanese short name.
   */
  function ExistingIds(chars: seq<Character>): (r: Result<map<string, string>>)
    ensures r.Ok? <==> forall i :: 0 <= i < |chars| ==> "ja" in chars[i].shortNames
    ensures r.Ok? ==> forall n :: n in r.value ==>
      exists i :: 0 <= i < |chars| && chars[i].shortNames["ja"] == n && chars[i].id == r.value[n]
    decreases |chars|
  {
    if chars == [] then Ok(map[])
    else
      var init := chars[..|chars| - 1];
      var last := chars[|chars| - 1];
      assert forall i :: 0 <= i < |init| ==> init[i] == chars[i];
      var m :- ExistingIds(init);
      var n :- Lookup(last.shortNames, "ja", "short_names[ja]");
      Ok(m[n := last.id])
  }

  /** Every character's short name is a key, and the id it maps to is that of the last character with that short name. */
  lemma {:induction false} ExistingIdsLast(chars: seq<Character>, i: nat)
    requires ExistingIds(chars).Ok?
    requires i < |chars|
    requires forall j :: i < j < |chars| ==> chars[j].shortNames["ja"] != chars[i].shortNames["ja"]
    ensures chars[i].shortNames["ja"] in ExistingIds(chars).value
    ensures ExistingIds(chars).value[chars[i].shortNames["ja"]] == chars[i].id
    decreases |chars|
  {
    var init := chars[..|chars| - 1];
    assert forall k :: 0 <= k < |init| ==> init[k] == chars[k];
    if i < |chars| - 1 {
      ExistingIdsLast(init, i);
    }
  }

  // ---------------------------------------------------------------- the mapping loop

  /** The profile's name has a published id that differs from the id `k` derived from its romaji (lines 30-39). */
  predicate Contributes(prof: LocalizeCharProfile, existing: map<string, string>, roma: Romanizer, k: string) {
    var name := prof.personalNameJp;
    && name != ""
    && name in existing
    && NameToId(roma, name) == Ok(k)
    && existing[name] != k
  }

  /**
   * One pass of the loop body (lines 30-41): an empty name or a name without a
   * published id changes nothing; otherwise the derived id, an IndexError on
   * empty romaji, is mapped to the published id when the two differ.
   */
  function Step(prof: LocalizeCharProfile, existing: map<string, string>, roma: Romanizer, m: map<string, string>)
    : Result<map<string, string>>
  {
    var name := prof.personalNameJp;
    if name == "" || name !in existing then Ok(m)
    else
      var inferred :- NameToId(roma, name);
      if existing[name] != inferred then Ok(m[inferred := existing[name]]) else Ok(m)
  }

  /** The loop over the profiles (lines 29-41), from the map `m`. */
  function MappingsFold(profiles: seq<LocalizeCharProfile>, existing: map<string, string>, roma: Romanizer,
                        m: map<string, string>): Result<map<string, string>>
    decreases |profiles|
  {
    if profiles == [] then Ok(m)
    else
      var next :- Step(profiles[0], existing, roma, m);
      MappingsFold(profiles[1..], existing, roma, next)
  }

  /** `main` (lines 10-43) on the profile table and the published characters, without the file reads and writes. */
  function InitIdMappingSpec(profiles: seq<LocalizeCharProfile>, chars: seq<Character>, roma: Romanizer)
    : Result<map<string, string>>
  {
    var existing :- ExistingIds(chars);
    MappingsFold(profiles, existing, roma, map[])
  }

  /** A profile whose name is looked up (non-empty, with a published id) needs non-empty romaji. */
  predicate Romanizable(prof: LocalizeCharProfile, existing: map<string, string>, roma: Romanizer) {
    prof.personalNameJp != "" && prof.personalNameJp in existing ==> |roma(prof.personalNameJp)| > 0
  }

  /** The loop raises exactly when some looked-up name has empty romaji. */
  lemma {:induction false} MappingsFoldOk(profiles: seq<LocalizeCharProfile>, existing: map<string, string>,
                                          roma: Romanizer, m: map<string, string>)
    ensures MappingsFold(profiles, existing, roma, m).Ok?
      <==> forall i :: 0 <= i < |profiles| ==> Romanizable(profiles[i], existing, roma)
    decreases |profiles|
  {
    if profiles != [] {
      var s := Step(profiles[0], existing, roma, m);
      if s.Ok? {
        MappingsFoldOk(profiles[1..], existing, roma, s.value);
        assert forall i :: 1 <= i < |profiles| ==> profiles[i] == profiles[1..][i - 1];
      }
    }
  }

  /**
   * The map never holds an identity pair, every value is a published id, and
   * every new key is the derived id of a profile that contributes it: empty
   * names, names without a published id and ids equal to the published one add
   * nothing (lines 31-41).
   */
  lemma {:induction false} MappingsFoldEntries(profiles: seq<LocalizeCharProfile>, existing: map<string, string>,
                                               roma: Romanizer, m: map<string, string>)
    requires forall k :: k in m ==> m[k] != k && m[k] in existing.Values
    requires MappingsFold(profiles, existing, roma, m).Ok?
    ensures var r := MappingsFold(profiles, existing, roma, m).value;
      forall k :: k in r ==> r[k] != k && r[k] in existing.Values
    ensures var r := MappingsFold(profiles, existing, roma, m).value;
      forall k :: k in r ==> k in m || exists i :: 0 <= i < |profiles| && Contributes(profiles[i], existing, roma, k)
    decreases |profiles|
  {
    if profiles != [] {
      var next := Step(profiles[0], existing, roma, m).value;
      MappingsFoldEntries(profiles[1..], existing, roma, next);
      assert forall i :: 1 <= i < |profiles| ==> profiles[i] == profiles[1..][i - 1];
      var r := MappingsFold(profiles, existing, roma, m).value;
      forall k | k in r && k !in m
        ensures exists i :: 0 <= i < |profiles| && Contributes(profiles[i], existing, roma, k)
      {
        if k in next {
          assert Contributes(profiles[0], existing, roma, k);
        } else {
          var i :| 0 <= i < |profiles[1..]| && Contributes(profiles[1..][i], existing, roma, k);
          assert profiles[i + 1] == profiles[1..][i];
        }
      }
    }
  }

  /** Each contributing profile's entry is in the map, with the published id of the last profile contributing that key (line 41). */
  lemma {:induction false} MappingsFoldLast(profiles: seq<LocalizeCharProfile>, existing: map<string, string>,
                                            roma: Romanizer, m: map<string, string>, i: nat, k: string)
    requires MappingsFold(profiles, existing, roma, m).Ok?
    requires i < |profiles| && Contributes(profiles[i], existing, roma, k)
    requires forall j :: i < j < |profiles| ==> !Contributes(profiles[j], existing, roma, k)
    ensures k in MappingsFold(profiles, existing, roma, m).value
    ensures MappingsFold(profiles, existing, roma, m).value[k] == existing[profiles[i].personalNameJp]
    decreases |profiles|
  {
    var next := Step(profiles[0], existing, roma, m).value;
    assert forall j :: 1 <= j < |profiles| ==> profiles[j] == profiles[1..][j - 1];
    if i > 0 {
      MappingsFoldLast(profiles[1..], existing, roma, next, i - 1, k);
    } else {
      MappingsFoldKeeps(profiles[1..], existing, roma, next, k);
    }
  }

  /** A key no later profile contributes keeps its value through the loop. */
  lemma {:induction false} MappingsFoldKeeps(profiles: seq<LocalizeCharProfile>, existing: map<string, string>,
                                             roma: Romanizer, m: map<string, string>, k: string)
    requires MappingsFold(profiles, existing, roma, m).Ok?
    requires k in m
    requires forall j :: 0 <= j < |profiles| ==> !Contributes(profiles[j], existing, roma, k)
    ensures k in MappingsFold(profiles, existing, roma, m).value
    ensures MappingsFold(profiles, existing, roma, m).value[k] == m[k]
    decreases |profiles|
  {
    if profiles != [] {
      var next := Step(profiles[0], existing, roma, m).value;
      assert !Contributes(profiles[0], existing, roma, k);
      assert forall j :: 1 <= j < |profiles| ==> profiles[j] == profiles[1..][j - 1];
      MappingsFoldKeeps(profiles[1..], existing, roma, next, k);
    }
  }

  /** The whole script: no identity pair, every value is some published character's id, every key is derived from some profile. */
  lemma InitIdMappingEntries(profiles: seq<LocalizeCharProfile>, chars: seq<Character>, roma: Romanizer)
    requires InitIdMappingSpec(profiles, chars, roma).Ok?
    ensures var r := InitIdMappingSpec(profiles, chars, roma).value;
      forall k :: k in r ==>
        && r[k] != k
        && (exists c :: c in chars && c.id == r[k])
        && exists i :: 0 <= i < |profiles| && NameToId(roma, profiles[i].personalNameJp) == Ok(k)
  {
    var existing := ExistingIds(chars).value;
    MappingsFoldEntries(profiles, existing, roma, map[]);
    var r := InitIdMappingSpec(profiles, chars, roma).value;
    forall k | k in r ensures exists c :: c in chars && c.id == r[k] {
      var n :| n in existing && existing[n] == r[k];
      var i :| 0 <= i < |chars| && chars[i].shortNames["ja"] == n && chars[i].id == existing[n];
      assert chars[i] in chars;
    }
  }

  // ---------------------------------------------------------------- the script

  /** `main` (lines 10-43): the published-id index, then the profile loop with its two `continue`s. */
  method InitIdMappingMain(profiles: seq<LocalizeCharProfile>, chars: seq<Character>, roma: Romanizer)
    returns (r: Result<map<string, string>>)
    ensures r == InitIdMappingSpec(profiles, chars, roma)
  {
    var existing :- ExistingIds(chars);
    var mappings: map<string, string> := map[];
    var i := 0;
    while i < |profiles|
      invariant 0 <= i <= |profiles|
      invariant MappingsFold(profiles, existing, roma, map[]) == MappingsFold(profiles[i..], existing, roma, mappings)
    {
      assert profiles[i..][0] == profiles[i] && profiles[i..][1..] == profiles[i + 1..];
      var name := profiles[i].personalNameJp;
      if name == "" {
        i := i + 1;
        continue;
      }
      if name !in existing {
        i := i + 1;
        continue;
      }
      var inferred :- NameToId(roma, name);
      var existingId := existing[name];
      if existingId != inferred {
        mappings := mappings[inferred := existingId];
      }
      i := i + 1;
    }
    assert profiles[i..] == [];
    return Ok(mappings);
  }
}
