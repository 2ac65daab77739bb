/**
 * Building char_data.json (blue_archive/update_data.py): portraits of the scenario
 * name table are indexed by display name, every profile whose personal name has
 * portraits becomes a record, and the names with portraits but no profile are
 * reported.
 */
module UpdateData {
  import opened Results
  import opened Text
  import opened Sorting
  import opened Common

  /** Portraits whose path ends with this are placeholders and are never indexed. */
  const NullPortrait: string := "NPC_Portrait_Null"

  /** Some row of the scenario table lists `portrait` under `name`, and the portrait is not the placeholder. */
  ghost predicate Indexed(scenario: seq<ScenarioCharacterName>, name: string, portrait: string) {
    exists i :: 0 <= i < |scenario| && scenario[i] == ScenarioCharacterName(name, portrait)
      && !EndsWith(portrait, NullPortrait)
  }

  lemma IndexedExtend(scenario: seq<ScenarioCharacterName>, i: nat, name: string, portrait: string)
    requires i < |scenario|
    ensures Indexed(scenario[..i + 1], name, portrait) <==>
      || Indexed(scenario[..i], name, portrait)
      || (scenario[i] == ScenarioCharacterName(name, portrait) && !EndsWith(portrait, NullPortrait))
  {
    if Indexed(scenario[..i + 1], name, portrait) {
      var j :| 0 <= j < i + 1 && scenario[..i + 1][j] == ScenarioCharacterName(name, portrait)
        && !EndsWith(portrait, NullPortrait);
      if j < i {
        assert scenario[..i][j] == scenario[j];
      }
    }
    if Indexed(scenario[..i], name, portrait) {
      var j :| 0 <= j < i && scenario[..i][j] == ScenarioCharacterName(name, portrait)
        && !EndsWith(portrait, NullPortrait);
      assert scenario[..i + 1][j] == scenario[j];
    }
    if scenario[i] == ScenarioCharacterName(name, portrait) && !EndsWith(portrait, NullPortrait) {
      assert scenario[..i + 1][i] == scenario[i];
    }
  }

  /**
   * The portrait index (lines 23-27), row by row: each display name maps to the
   * set of its non-placeholder portraits.
   */
  function PortraitIndex(scenario: seq<ScenarioCharacterName>): map<string, set<string>>
    decreases |scenario|
  {
    if scenario == [] then map[]
    else
      var index := PortraitIndex(scenario[..|scenario| - 1]);
      var obj := scenario[|scenario| - 1];
      if EndsWith(obj.smallPortrait, NullPortrait) then index
      else
        var current := if obj.nameJp in index then index[obj.nameJp] else {};
        index[obj.nameJp := current + {obj.smallPortrait}]
  }

  /**
   * The index maps a name to a portrait exactly when some scenario row pairs
   * them and the portrait is no placeholder, so repeated portraits collapse and
   * no name maps to an empty set.
   */
  lemma {:induction false} PortraitIndexIndexed(scenario: seq<ScenarioCharacterName>)
    ensures forall name, p :: name in PortraitIndex(scenario) && p in PortraitIndex(scenario)[name] <==>
      Indexed(scenario, name, p)
    ensures forall name :: name in PortraitIndex(scenario) ==> PortraitIndex(scenario)[name] != {}
    decreases |scenario|
  {
    if scenario != [] {
      var i := |scenario| - 1;
      PortraitIndexIndexed(scenario[..i]);
      assert scenario[..i + 1] == scenario;
      forall name, p ensures Indexed(scenario, name, p) <==>
        || Indexed(scenario[..i], name, p)
        || (scenario[i] == ScenarioCharacterName(name, p) && !EndsWith(p, NullPortrait))
      {
        IndexedExtend(scenario, i, name, p);
      }
    }
  }

  /** The loop of lines 23-27 builds the index row by row. */
  method BuildPortraitIndex(scenario: seq<ScenarioCharacterName>) returns (index: map<string, set<string>>)
    ensures index == PortraitIndex(scenario)
  {
    index := map[];
    var i := 0;
    while i < |scenario|
      invariant 0 <= i <= |scenario|
      invariant index == PortraitIndex(scenario[..i])
    {
      assert scenario[..i + 1][..i] == scenario[..i];
      var obj := scenario[i];
      if !EndsWith(obj.smallPortrait, NullPortrait) {
        var current := if obj.nameJp in index then index[obj.nameJp] else {};
        index := index[obj.nameJp := current + {obj.smallPortrait}];
      }
      i := i + 1;
    }
    assert scenario[..i] == scenario;
  }

  /** The id of a profile (lines 31-33): the override of its derived id when one exists, else the derived id. */
  function GetId(prof: LocalizeCharProfile, idMappings: map<string, string>, roma: Romanizer): (r: Result<string>)
    ensures r.Ok? <==> |roma(prof.personalNameJp)| > 0
    ensures r.Ok? ==>
      var derived := NameToId(roma, prof.personalNameJp).value;
      && (derived in idMappings ==> r.value == idMappings[derived])
      && (derived !in idMappings ==> r.value == derived)
  {
    var cid :- NameToId(roma, prof.personalNameJp);
    Ok(if cid in idMappings then idMappings[cid] else cid)
  }

  /** The profiles that get a record: those whose personal name has portraits, in profile order. */
  function Emitted(profiles: seq<LocalizeCharProfile>, index: map<string, set<string>>): (r: seq<LocalizeCharProfile>)
    ensures |r| <= |profiles|
    ensures forall p :: p in r <==> p in profiles && p.personalNameJp in index
  {
    if profiles == [] then []
    else
      var rest := Emitted(profiles[1..], index);
      assert forall p :: p in profiles <==> p == profiles[0] || p in profiles[1..];
      if profiles[0].personalNameJp in index then [profiles[0]] + rest else rest
  }

  /** The filter keeps profile order: filtering a concatenation concatenates the filtered parts. */
  lemma {:induction false} EmittedAppend(a: seq<LocalizeCharProfile>, b: seq<LocalizeCharProfile>,
                                         index: map<string, set<string>>)
    ensures Emitted(a + b, index) == Emitted(a, index) + Emitted(b, index)
    decreases |a|
  {
    if a == [] {
      assert a + b == b;
    } else {
      assert (a + b)[0] == a[0] && (a + b)[1..] == a[1..] + b;
      EmittedAppend(a[1..], b, index);
      var head := if a[0].personalNameJp in index then [a[0]] else [];
      assert head + Emitted(a[1..], index) + Emitted(b, index) == head + (Emitted(a[1..], index) + Emitted(b, index));
    }
  }

  /** A single profile is kept exactly when its personal name is indexed. */
  lemma EmittedSingle(p: LocalizeCharProfile, index: map<string, set<string>>)
    ensures Emitted([p], index) == if p.personalNameJp in index then [p] else []
  {
    assert [p][1..] == [];
  }

  /** `c` is the record built for `prof`: its fields copied, its id derived, its portraits sorted. */
  ghost predicate RecordFor(c: CharData, prof: LocalizeCharProfile, index: map<string, set<string>>,
                            idMappings: map<string, string>, roma: Romanizer)
    requires prof.personalNameJp in index
  {
    && GetId(prof, idMappings, roma) == Ok(c.id)
    && c.charId == prof.characterId
    && c.familyName == prof.familyNameJp
    && c.familyNameRuby == prof.familyNameRubyJp
    && c.personalName == prof.personalNameJp
    && c.imageFiles == SortedFromSet(index[prof.personalNameJp])
  }

  /** Every profile that gets a record has a non-empty romaji, so its id can be derived. */
  ghost predicate IdsDerivable(emitted: seq<LocalizeCharProfile>, roma: Romanizer) {
    forall k :: 0 <= k < |emitted| ==> |roma(emitted[k].personalNameJp)| > 0
  }

  /** The records built for the given profiles, in order; the first IndexError of an empty romaji ends it. */
  function Records(emitted: seq<LocalizeCharProfile>, index: map<string, set<string>>,
                   idMappings: map<string, string>, roma: Romanizer): (r: Result<seq<CharData>>)
    requires forall k :: 0 <= k < |emitted| ==> emitted[k].personalNameJp in index
    ensures r.Ok? <==> IdsDerivable(emitted, roma)
    ensures r.Ok? ==> |r.value| == |emitted|
    ensures r.Ok? ==> forall k :: 0 <= k < |r.value| ==> RecordFor(r.value[k], emitted[k], index, idMappings, roma)
  {
    if emitted == [] then Ok([])
    else
      var prof := emitted[0];
      match GetId(prof, idMappings, roma)
      case Err(e) => Err(e)
      case Ok(id) =>
        var record := CharData(id, prof.characterId, prof.familyNameJp, prof.familyNameRubyJp,
                               prof.personalNameJp, SortedFromSet(index[prof.personalNameJp]));
        match Records(emitted[1..], index, idMappings, roma)
        case Err(e) => Err(e)
        case Ok(rest) => Ok([record] + rest)
  }

  /**
   * The records (lines 35-46): one per profile whose personal name is an index key,
   * in profile order; an IndexError when such a name has empty romaji.
   */
  function CharRecords(profiles: seq<LocalizeCharProfile>, index: map<string, set<string>>,
                       idMappings: map<string, string>, roma: Romanizer): (r: Result<seq<CharData>>)
    ensures r.Ok? <==> forall p :: p in profiles && p.personalNameJp in index ==> |roma(p.personalNameJp)| > 0
    ensures r.Ok? ==> |r.value| == |Emitted(profiles, index)|
    ensures r.Ok? ==> forall k :: 0 <= k < |r.value| ==>
      Emitted(profiles, index)[k].personalNameJp in index
      && RecordFor(r.value[k], Emitted(profiles, index)[k], index, idMappings, roma)
  {
    var emitted := Emitted(profiles, index);
    assert forall k :: 0 <= k < |emitted| ==> emitted[k] in emitted;
    Records(emitted, index, idMappings, roma)
  }

  /** Profiles with the same personal name get the same, identical portrait list (line 42). */
  lemma SharedNameSharedImages(profiles: seq<LocalizeCharProfile>, index: map<string, set<string>>,
                               idMappings: map<string, string>, roma: Romanizer, j: nat, k: nat)
    requires CharRecords(profiles, index, idMappings, roma).Ok?
    requires var records := CharRecords(profiles, index, idMappings, roma).value;
      j < |records| && k < |records| && records[j].personalName == records[k].personalName
    ensures var records := CharRecords(profiles, index, idMappings, roma).value;
      records[j].imageFiles == records[k].imageFiles
  {
  }

  /** A record's portrait list is increasing, duplicate-free and holds exactly its name's portraits. */
  lemma RecordImages(profiles: seq<LocalizeCharProfile>, index: map<string, set<string>>,
                     idMappings: map<string, string>, roma: Romanizer, k: nat)
    requires CharRecords(profiles, index, idMappings, roma).Ok?
    requires k < |CharRecords(profiles, index, idMappings, roma).value|
    ensures var c := CharRecords(profiles, index, idMappings, roma).value[k];
      && c.personalName in index
      && StrictlyIncreasing(c.imageFiles)
      && (forall p :: p in c.imageFiles <==> p in index[c.personalName])
  {
  }

  /** The names with portraits but no profile (lines 48-51), with their portrait sets unchanged. */
  function ImagesWithoutProfiles(index: map<string, set<string>>, profiles: seq<LocalizeCharProfile>)
    : (r: map<string, set<string>>)
    ensures forall k :: k in r <==> k in index && forall i :: 0 <= i < |profiles| ==> profiles[i].personalNameJp != k
    ensures forall k :: k in r ==> r[k] == index[k]
  {
    var profiled := set p | p in profiles :: p.personalNameJp;
    map k | k in index && k !in profiled :: index[k]
  }

  /** Every indexed name is either the personal name of some record or reported without profile, never both. */
  lemma {:induction false} IndexKeysPartition(profiles: seq<LocalizeCharProfile>, index: map<string, set<string>>,
                                              idMappings: map<string, string>, roma: Romanizer, name: string)
    requires CharRecords(profiles, index, idMappings, roma).Ok?
    requires name in index
    ensures var records := CharRecords(profiles, index, idMappings, roma).value;
      (exists k :: 0 <= k < |records| && records[k].personalName == name)
      <==> name !in ImagesWithoutProfiles(index, profiles)
  {
    var records := CharRecords(profiles, index, idMappings, roma).value;
    var emitted := Emitted(profiles, index);
    assert forall k :: 0 <= k < |records| ==> records[k].personalName == emitted[k].personalNameJp;
    EmittedNames(profiles, index, name);
  }

  /** An indexed name is the name of an emitted profile exactly when some profile carries it. */
  lemma EmittedNames(profiles: seq<LocalizeCharProfile>, index: map<string, set<string>>, name: string)
    requires name in index
    ensures (exists k :: 0 <= k < |Emitted(profiles, index)| && Emitted(profiles, index)[k].personalNameJp == name)
      <==> exists i :: 0 <= i < |profiles| && profiles[i].personalNameJp == name
  {
    var emitted := Emitted(profiles, index);
    if i :| 0 <= i < |profiles| && profiles[i].personalNameJp == name {
      assert profiles[i] in profiles;
      assert profiles[i] in emitted;
      var k :| 0 <= k < |emitted| && emitted[k] == profiles[i];
      assert emitted[k].personalNameJp == name;
    }
    if k :| 0 <= k < |emitted| && emitted[k].personalNameJp == name {
      assert emitted[k] in emitted;
      var i :| 0 <= i < |profiles| && profiles[i] == emitted[k];
      assert profiles[i].personalNameJp == name;
      assert exists j :: 0 <= j < |Emitted(profiles, index)| && Emitted(profiles, index)[j].personalNameJp == name;
    }
  }

  /**
   * The whole script (lines 23-51): the records are those of the portrait index
   * (one per profile with portraits, in profile order, or the first IndexError),
   * each listing exactly the portraits the scenario table gives its personal
   * name, and the report lists exactly the names with portraits that no profile
   * carries.
   */
  method UpdateCharData(profiles: seq<LocalizeCharProfile>, scenario: seq<ScenarioCharacterName>,
                        idMappings: map<string, string>, roma: Romanizer)
    returns (records: Result<seq<CharData>>, withoutProfiles: map<string, set<string>>)
    ensures records == CharRecords(profiles, PortraitIndex(scenario), idMappings, roma)
    ensures withoutProfiles == ImagesWithoutProfiles(PortraitIndex(scenario), profiles)
    ensures records.Ok? ==> forall k, p :: 0 <= k < |records.value| ==>
      (p in records.value[k].imageFiles <==> Indexed(scenario, records.value[k].personalName, p))
    ensures records.Ok? ==> forall k :: 0 <= k < |records.value| ==> records.value[k].imageFiles != []
    ensures forall name, p :: name in withoutProfiles ==> (p in withoutProfiles[name] <==> Indexed(scenario, name, p))
    ensures forall name :: name in withoutProfiles ==>
      (forall i :: 0 <= i < |profiles| ==> profiles[i].personalNameJp != name)
    ensures forall name, p ::
      (Indexed(scenario, name, p) && forall i :: 0 <= i < |profiles| ==> profiles[i].personalNameJp != name)
      ==> name in withoutProfiles
  {
    var index := BuildPortraitIndex(scenario);
    PortraitIndexIndexed(scenario);
    records := CharRecords(profiles, index, idMappings, roma);
    withoutProfiles := ImagesWithoutProfiles(index, profiles);
    if records.Ok? {
      forall k | 0 <= k < |records.value| ensures records.value[k].imageFiles != [] {
        RecordImages(profiles, index, idMappings, roma, k);
        var c := records.value[k];
        var p :| p in index[c.personalName];
      }
    }
  }
}
