/**
 * The legacy migration to chars.yaml (blue_archive/legacy/init_v3.py): the
 * image mapping is inverted, every image file whose stem has a legacy name is
 * rewritten to the `name:file` spec form, each character's files are sorted,
 * and one of Serika's portraits is dropped.
 */
module InitV3 {
  import opened Results
  import opened Text
  import opened Sorting
  import opened Common
  import Models
  import ResourcesV2
  import ResourcesV3

  /** One entry of chars.yaml, keyed by id. */
  datatype V3Entry = V3Entry(
    familyName: string,
    familyNameRuby: string,
    personalName: string,
    imageFiles: seq<string>)

  /**
   * The inverted mapping of lines 14-17, from the entries of img_mappings.json in
   * file order. It is the same comprehension as `get_legacy_image_mappings`, so
   * the model uses that one definition.
   */
  function Inverted(entries: seq<(string, string)>): map<string, string> {
    ResourcesV2.LegacyImageMappings(entries)
  }

  // ---------------------------------------------------------------- image files

  /** A file whose stem has a legacy name becomes `name:file`; any other file stays (line 25). */
  function RewriteFile(f: string, inv: map<string, string>): string {
    if PathStem(f) in inv then inv[PathStem(f)] + ":" + f else f
  }

  /**
   * Round trip with the v3 spec parser (get_resources_v3.py lines 94-98): a
   * rewritten file parses back to its legacy name and the file itself, and a
   * file left alone keeps its own path, provided no colon is involved.
   */
  lemma RewriteFileParses(f: string, inv: map<string, string>)
    requires ':' !in f
    requires PathStem(f) in inv ==> ':' !in inv[PathStem(f)]
    ensures PathStem(f) in inv ==>
      ResourcesV3.ParseImageSpec(RewriteFile(f, inv)) == Ok(ResourcesV3.ImageSpec(inv[PathStem(f)], f))
    ensures PathStem(f) !in inv ==>
      ResourcesV3.ParseImageSpec(RewriteFile(f, inv)).Ok? ==> ResourcesV3.ParseImageSpec(RewriteFile(f, inv)).value.path == f
  {
    if PathStem(f) in inv {
      ResourcesV3.ImageSpecRoundTrip(inv[PathStem(f)], f);
    }
  }

  /** The rewritten files, in input order. */
  function Rewritten(files: seq<string>, inv: map<string, string>): seq<string> {
    seq(|files|, i requires 0 <= i < |files| => RewriteFile(files[i], inv))
  }

  /** `sorted([... for f in ch.image_files])` (lines 24-26): the rewritten files, sorted, none lost or added. */
  function ImageFiles(files: seq<string>, inv: map<string, string>): (r: seq<string>)
    ensures |r| == |files|
    ensures SortedBy(r, StrLe)
    ensures multiset(r) == multiset(Rewritten(files, inv))
  {
    var r := SortStrings(Rewritten(files, inv));
    assert |r| == |multiset(r)|;
    r
  }

  // ---------------------------------------------------------------- the data map

  /** A character's entry: its name parts copied, its files rewritten and sorted (lines 20-27). */
  function EntryOf(ch: CharData, inv: map<string, string>): V3Entry {
    V3Entry(ch.familyName, ch.familyNameRuby, ch.personalName, ImageFiles(ch.imageFiles, inv))
  }

  /** The dict comprehension of lines 19-29: one entry per id, a later character with the same id overwriting. */
  function BuildData(chars: seq<CharData>, inv: map<string, string>): map<string, V3Entry>
    decreases |chars|
  {
    if chars == [] then map[]
    else BuildData(chars[..|chars| - 1], inv)[chars[|chars| - 1].id := EntryOf(chars[|chars| - 1], inv)]
  }

  /** The ids of the characters. */
  function Ids(chars: seq<CharData>): set<string>
    decreases |chars|
  {
    if chars == [] then {} else Ids(chars[..|chars| - 1]) + {chars[|chars| - 1].id}
  }

  /** An id is among the ids exactly when some character has it. */
  lemma {:induction false} IdsMembers(chars: seq<CharData>, id: string)
    ensures id in Ids(chars) <==> exists i :: 0 <= i < |chars| && chars[i].id == id
    decreases |chars|
  {
    if chars != [] {
      var init := chars[..|chars| - 1];
      IdsMembers(init, id);
      if id in Ids(init) {
        var i :| 0 <= i < |init| && init[i].id == id;
        assert chars[i] == init[i];
      } else if exists i :: 0 <= i < |chars| && chars[i].id == id {
        var i :| 0 <= i < |chars| && chars[i].id == id;
        if i < |init| {
          assert init[i] == chars[i];
        }
      }
    }
  }

  /** The data has exactly the ids of the characters as keys. */
  lemma {:induction false} BuildDataKeys(chars: seq<CharData>, inv: map<string, string>)
    ensures BuildData(chars, inv).Keys == Ids(chars)
    decreases |chars|
  {
    if chars != [] {
      BuildDataKeys(chars[..|chars| - 1], inv);
    }
  }

  /** The entry of an id is that of the last character with the id. */
  lemma {:induction false} BuildDataLast(chars: seq<CharData>, inv: map<string, string>, i: nat)
    requires i < |chars|
    requires forall j :: i < j < |chars| ==> chars[j].id != chars[i].id
    ensures chars[i].id in BuildData(chars, inv)
    ensures BuildData(chars, inv)[chars[i].id] == EntryOf(chars[i], inv)
    decreases |chars|
  {
    var init := chars[..|chars| - 1];
    assert forall k :: 0 <= k < |init| ==> init[k] == chars[k];
    if i < |chars| - 1 {
      BuildDataLast(init, inv, i);
    }
  }

  // ---------------------------------------------------------------- Serika

  const SerikaId: string := "Serika"

  /** Serika's files without those whose stem is the dropped portrait (line 30), in order. */
  predicate IsShibasek(f: string) {
    PathStem(f) == ResourcesV3.SerikaPortrait
  }

  function WithoutShibasek(files: seq<string>): seq<string> {
    if files == [] then []
    else (if IsShibasek(files[0]) then [] else [files[0]]) + WithoutShibasek(files[1..])
  }

  /** The filter keeps exactly the files that are not the dropped portrait. */
  lemma {:induction false} WithoutShibasekMembers(files: seq<string>)
    ensures forall x :: x in WithoutShibasek(files) <==> x in files && !IsShibasek(x)
    ensures |WithoutShibasek(files)| <= |files|
    decreases |files|
  {
    if files != [] {
      WithoutShibasekMembers(files[1..]);
      assert forall x :: x in files <==> x == files[0] || x in files[1..];
    }
  }

  /** The filter keeps order: filtering a concatenation concatenates the filtered parts. */
  lemma {:induction false} WithoutShibasekAppend(a: seq<string>, b: seq<string>)
    ensures WithoutShibasek(a + b) == WithoutShibasek(a) + WithoutShibasek(b)
    decreases |a|
  {
    if a == [] {
      assert a + b == b;
    } else {
      assert (a + b)[0] == a[0] && (a + b)[1..] == a[1..] + b;
      WithoutShibasekAppend(a[1..], b);
      var head := if IsShibasek(a[0]) then [] else [a[0]];
      Models.AppendAssoc(head, WithoutShibasek(a[1..]), WithoutShibasek(b));
    }
  }

  /** A list without the dropped portrait is unchanged. */
  lemma {:induction false} WithoutShibasekNone(files: seq<string>)
    requires forall f :: f in files ==> !IsShibasek(f)
    ensures WithoutShibasek(files) == files
    decreases |files|
  {
    if files != [] {
      WithoutShibasekNone(files[1..]);
    }
  }

  /**
   * Line 30: only Serika's entry loses the portrait, everything else stays;
   * a KeyError when there is no Serika.
   */
  function DropShibasek(data: map<string, V3Entry>): (r: Result<map<string, V3Entry>>)
    ensures r.Ok? <==> SerikaId in data
    ensures r.Ok? ==> r.value.Keys == data.Keys
    ensures r.Ok? ==> forall id :: id in data && id != SerikaId ==> r.value[id] == data[id]
    ensures r.Ok? ==> r.value[SerikaId].imageFiles == WithoutShibasek(data[SerikaId].imageFiles)
    ensures r.Ok? ==> r.value[SerikaId].(imageFiles := data[SerikaId].imageFiles) == data[SerikaId]
  {
    var serika :- Lookup(data, SerikaId, SerikaId);
    Ok(data[SerikaId := serika.(imageFiles := WithoutShibasek(serika.imageFiles))])
  }

  /** `main` (lines 9-33) on char_data.json and the entries of img_mappings.json, without the file reads and the YAML write. */
  function InitV3Spec(chars: seq<CharData>, mappings: seq<(string, string)>): Result<map<string, V3Entry>> {
    DropShibasek(BuildData(chars, Inverted(mappings)))
  }

  /**
   * The script succeeds exactly when some character is Serika; every other
   * character's entry (the last one for its id) has its name parts copied and
   * its rewritten files sorted, as many as it listed.
   */
  lemma InitV3Entries(chars: seq<CharData>, mappings: seq<(string, string)>, i: nat)
    requires i < |chars| && chars[i].id != SerikaId
    requires forall j :: i < j < |chars| ==> chars[j].id != chars[i].id
    ensures InitV3Spec(chars, mappings).Ok? <==> exists k :: 0 <= k < |chars| && chars[k].id == SerikaId
    ensures InitV3Spec(chars, mappings).Ok? ==>
      && chars[i].id in InitV3Spec(chars, mappings).value
      && var e := InitV3Spec(chars, mappings).value[chars[i].id];
      && e.familyName == chars[i].familyName
      && e.familyNameRuby == chars[i].familyNameRuby
      && e.personalName == chars[i].personalName
      && |e.imageFiles| == |chars[i].imageFiles|
      && SortedBy(e.imageFiles, StrLe)
      && multiset(e.imageFiles) == multiset(Rewritten(chars[i].imageFiles, Inverted(mappings)))
  {
    BuildDataKeys(chars, Inverted(mappings));
    IdsMembers(chars, SerikaId);
    BuildDataLast(chars, Inverted(mappings), i);
  }
}
