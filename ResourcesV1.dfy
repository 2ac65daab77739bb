/**
 * The first Blue Archive processor (blue_archive/get_resources.py): characters
 * of characters.json in order of English first name, each image found by
 * trying a fixed list of portrait files, images with no file marked in the
 * image mapping, characters without any image dropped, and the two Chinese
 * language files completed with empty entries.
 */
module ResourcesV1 {
  import opened Results
  import opened Sorting
  import opened Models

  /** An entry of characters.json: first and last names per language, school, clubs and image ids. */
  datatype StudentEntry = StudentEntry(
    id: string,
    firstName: map<string, string>,
    lastName: map<string, string>,
    school: string,
    club: seq<string>,
    img: seq<string>)

  // ---------------------------------------------------------------- order and names

  /** The sort key of line 28, read as "" where absent so that entries can always be compared. */
  function FirstNameEn(e: StudentEntry): string {
    if "en" in e.firstName then e.firstName["en"] else ""
  }

  /** `sorted(data, key=first_name.en)` (line 28): a KeyError when an entry has no English first name. */
  function SortEntries(data: seq<StudentEntry>): (r: Result<seq<StudentEntry>>)
    ensures r.Ok? <==> forall i :: 0 <= i < |data| ==> "en" in data[i].firstName
    ensures r.Ok? ==> multiset(r.value) == multiset(data) && SortedBy(r.value, ByKey(FirstNameEn))
  {
    if exists i :: 0 <= i < |data| && "en" !in data[i].firstName then Err(KeyError("en"))
    else
      ByKeyIsTotalPreorder(FirstNameEn);
      SortBySorted(data, ByKey(FirstNameEn));
      Ok(SortBy(data, ByKey(FirstNameEn)))
  }

  /**
   * The character of one entry before its images (lines 41-47): "last first" in
   * Japanese and English, the first name as short name, the school and then the
   * clubs as searches; a KeyError when a name part is missing.
   */
  function NewCharacter(e: StudentEntry): (r: Result<Character>)
    ensures r.Ok? <==> "ja" in e.lastName && "ja" in e.firstName && "en" in e.lastName && "en" in e.firstName
    ensures r.Ok? ==> && r.value.id == e.id && r.value.images == [] && r.value.searches == [e.school] + e.club
                      && r.value.names.Keys == {"ja", "en"} && r.value.shortNames.Keys == {"ja", "en"}
    ensures r.Ok? ==> forall k :: k in r.value.names ==>
      && r.value.names[k] == e.lastName[k] + " " + e.firstName[k]
      && r.value.shortNames[k] == e.firstName[k]
  {
    var lastJa :- Lookup(e.lastName, "ja", "ja");
    var firstJa :- Lookup(e.firstName, "ja", "ja");
    var lastEn :- Lookup(e.lastName, "en", "en");
    var firstEn :- Lookup(e.firstName, "en", "en");
    Ok(Character(e.id, map["ja" := lastJa + " " + firstJa, "en" := lastEn + " " + firstEn],
                 map["ja" := firstJa, "en" := firstEn], [], [e.school] + e.club))
  }

  // ---------------------------------------------------------------- finding an image

  /** The directory of the portrait files, relative to the resource root (line 60). */
  const CharDir := "01_Character/"

  /** The four portrait files tried for every image id (lines 50-55). */
  function StandardCandidates(img: string): seq<string> {
    ["NPC_Portrait_" + img + ".png", "NPC_Portrait_" + img + "1.png",
     "Student_Portrait_" + img + ".png", "Student_Portrait_" + img + "_Small.png"]
  }

  /** The files tried for an image id: the four standard ones, then the mapped file when the mapping is non-empty (lines 56-57). */
  function Candidates(img: string, mappings: map<string, string>): seq<string> {
    StandardCandidates(img) + if img in mappings && |mappings[img]| > 0 then [mappings[img] + ".png"] else []
  }

  /** The first candidate whose file exists (lines 59-65). */
  function FirstExisting(choices: seq<string>, existing: set<string>): Option<string>
    decreases |choices|
  {
    if choices == [] then None
    else if CharDir + choices[0] in existing then Some(choices[0])
    else FirstExisting(choices[1..], existing)
  }

  /** The search finds nothing exactly when no candidate exists. */
  lemma {:induction false} FirstExistingNone(choices: seq<string>, existing: set<string>)
    ensures FirstExisting(choices, existing).None? <==> forall j :: 0 <= j < |choices| ==> CharDir + choices[j] !in existing
    decreases |choices|
  {
    if choices != [] {
      FirstExistingNone(choices[1..], existing);
      assert forall j :: 0 < j < |choices| ==> choices[j] == choices[1..][j - 1];
    }
  }

  /** The search yields the candidate at `i` when its file exists and none before it does. */
  lemma {:induction false} FirstExistingAt(choices: seq<string>, existing: set<string>, i: nat)
    requires i < |choices| && CharDir + choices[i] in existing
    requires forall j :: 0 <= j < i ==> CharDir + choices[j] !in existing
    ensures FirstExisting(choices, existing) == Some(choices[i])
    decreases i
  {
    if i > 0 {
      assert CharDir + choices[0] !in existing;
      FirstExistingAt(choices[1..], existing, i - 1);
    }
  }

  predicate Found(img: string, mappings: map<string, string>, existing: set<string>) {
    FirstExisting(Candidates(img, mappings), existing).Some?
  }

  /** The avatar file recorded for a found image: the first of its candidates that exists. */
  function FirstPath(img: string, mappings: map<string, string>, existing: set<string>): string
    requires Found(img, mappings, existing)
  {
    CharDir + FirstExisting(Candidates(img, mappings), existing).value
  }

  /** What the image loop updates: the image mappings, the avatar files, the character's images and the update flag. */
  datatype ImageState = ImageState(
    mappings: map<string, string>,
    avatars: map<string, string>,
    images: seq<string>,
    updated: bool)

  /**
   * One image id (lines 49-69): the first existing candidate becomes its avatar
   * file and the id joins the character's images; with none, the mapping of the
   * id is cleared and the flag raised, unless the mapping was already empty.
   */
  function ImageStep(img: string, st: ImageState, existing: set<string>): ImageState {
    match FirstExisting(Candidates(img, st.mappings), existing)
    case Some(c) => st.(avatars := st.avatars[img := CharDir + c], images := st.images + [img])
    case None =>
      if img !in st.mappings || |st.mappings[img]| > 0 then st.(mappings := st.mappings[img := ""], updated := true)
      else st
  }

  function ImagesFold(imgs: seq<string>, st: ImageState, existing: set<string>): ImageState
    decreases |imgs|
  {
    if imgs == [] then st else ImagesFold(imgs[1..], ImageStep(imgs[0], st, existing), existing)
  }

  // ---------------------------------------------------------------- what the image loop keeps

  /** Reference definition: the image ids, in order, that have an existing candidate under a fixed mapping. */
  function FoundOf(imgs: seq<string>, mappings: map<string, string>, existing: set<string>): seq<string>
    decreases |imgs|
  {
    if imgs == [] then []
    else (if Found(imgs[0], mappings, existing) then [imgs[0]] else []) + FoundOf(imgs[1..], mappings, existing)
  }

  /** Reference definition: the avatar files after recording each found image id, under a fixed mapping. */
  function AvatarsAfter(imgs: seq<string>, avatars: map<string, string>, mappings: map<string, string>,
                        existing: set<string>): map<string, string>
    decreases |imgs|
  {
    if imgs == [] then avatars
    else
      var next := if Found(imgs[0], mappings, existing)
        then avatars[imgs[0] := FirstPath(imgs[0], mappings, existing)] else avatars;
      AvatarsAfter(imgs[1..], next, mappings, existing)
  }

  /**
   * A mapping `m` reached from `m0` finds the same image ids, through the same
   * candidates for those found: only ids found under neither lose their entry.
   */
  ghost predicate Settled(m: map<string, string>, m0: map<string, string>, existing: set<string>) {
    && (forall y :: Found(y, m, existing) == Found(y, m0, existing))
    && (forall y :: Found(y, m0, existing) ==> Candidates(y, m) == Candidates(y, m0))
  }

  /** An id needs no further update of its mapping: it is found, or its mapping is already empty. */
  predicate Stable(img: string, mappings: map<string, string>, existing: set<string>) {
    Found(img, mappings, existing) || (img in mappings && mappings[img] == "")
  }

  /** Clearing the mapping of an id with no existing candidate finds nothing new. */
  lemma ClearUnfound(img: string, m: map<string, string>, existing: set<string>)
    requires !Found(img, m, existing)
    ensures Settled(m[img := ""], m, existing)
  {
    var m' := m[img := ""];
    var full := Candidates(img, m);
    var short := Candidates(img, m');
    assert short == StandardCandidates(img);
    assert forall j :: 0 <= j < |short| ==> short[j] == full[j];
    FirstExistingNone(full, existing);
    FirstExistingNone(short, existing);
    assert !Found(img, m', existing);
    forall y | y != img ensures Candidates(y, m') == Candidates(y, m) {
    }
  }

  /** Settling is transitive: a mapping settled against one settled against `m0` is settled against `m0`. */
  lemma SettledTrans(m2: map<string, string>, m1: map<string, string>, m0: map<string, string>, existing: set<string>)
    requires Settled(m2, m1, existing) && Settled(m1, m0, existing)
    ensures Settled(m2, m0, existing)
  {
  }

  /** One image id keeps a settled mapping settled. */
  lemma ImageStepSettled(img: string, st: ImageState, m0: map<string, string>, existing: set<string>)
    requires Settled(st.mappings, m0, existing)
    ensures Settled(ImageStep(img, st, existing).mappings, m0, existing)
  {
    var m := st.mappings;
    if !Found(img, m, existing) && (img !in m || |m[img]| > 0) {
      ClearUnfound(img, m, existing);
      SettledTrans(m[img := ""], m, m0, existing);
    }
  }

  /** An image id joins the character's images exactly when one of its candidates exists. */
  lemma ImageStepImages(img: string, st: ImageState, existing: set<string>)
    ensures ImageStep(img, st, existing).images == st.images + (if Found(img, st.mappings, existing) then [img] else [])
  {
  }

  /** A found image id gets its first existing candidate as avatar file, the same one under any settled mapping. */
  lemma ImageStepAvatars(img: string, st: ImageState, m0: map<string, string>, existing: set<string>)
    requires Settled(st.mappings, m0, existing)
    ensures ImageStep(img, st, existing).avatars
      == if Found(img, m0, existing) then st.avatars[img := FirstPath(img, m0, existing)] else st.avatars
  {
    if Found(img, st.mappings, existing) {
      assert Candidates(img, st.mappings) == Candidates(img, m0);
    }
  }

  /** After its step an image id is stable, and every id stable before stays stable. */
  lemma ImageStepStabilizes(img: string, st: ImageState, existing: set<string>)
    ensures Stable(img, ImageStep(img, st, existing).mappings, existing)
    ensures forall y :: Stable(y, st.mappings, existing) ==> Stable(y, ImageStep(img, st, existing).mappings, existing)
  {
    var m := st.mappings;
    if !Found(img, m, existing) && (img !in m || |m[img]| > 0) {
      ClearUnfound(img, m, existing);
    }
  }

  /** An image id that is stable leaves the mapping and the flag alone. */
  lemma ImageStepStable(img: string, st: ImageState, existing: set<string>)
    requires Stable(img, st.mappings, existing)
    ensures ImageStep(img, st, existing).mappings == st.mappings
    ensures ImageStep(img, st, existing).updated == st.updated
  {
  }

  /** The image loop of one character keeps a settled mapping settled. */
  lemma {:induction false} ImagesFoldSettled(imgs: seq<string>, st: ImageState, m0: map<string, string>,
                                             existing: set<string>)
    requires Settled(st.mappings, m0, existing)
    ensures Settled(ImagesFold(imgs, st, existing).mappings, m0, existing)
    decreases |imgs|
  {
    if imgs != [] {
      ImageStepSettled(imgs[0], st, m0, existing);
      ImagesFoldSettled(imgs[1..], ImageStep(imgs[0], st, existing), m0, existing);
    }
  }

  /** Against a settled mapping the image loop appends exactly the found ids, in order. */
  lemma {:induction false} ImagesFoldImages(imgs: seq<string>, st: ImageState, m0: map<string, string>,
                                            existing: set<string>)
    requires Settled(st.mappings, m0, existing)
    ensures ImagesFold(imgs, st, existing).images == st.images + FoundOf(imgs, m0, existing)
    decreases |imgs|
  {
    if imgs != [] {
      var next := ImageStep(imgs[0], st, existing);
      ImageStepSettled(imgs[0], st, m0, existing);
      ImageStepImages(imgs[0], st, existing);
      ImagesFoldImages(imgs[1..], next, m0, existing);
      assert Found(imgs[0], st.mappings, existing) == Found(imgs[0], m0, existing);
      AppendAssoc(st.images, if Found(imgs[0], m0, existing) then [imgs[0]] else [], FoundOf(imgs[1..], m0, existing));
    }
  }

  /** Against a settled mapping the image loop records, for each found id, its first existing candidate. */
  lemma {:induction false} ImagesFoldAvatars(imgs: seq<string>, st: ImageState, m0: map<string, string>,
                                             existing: set<string>)
    requires Settled(st.mappings, m0, existing)
    ensures ImagesFold(imgs, st, existing).avatars == AvatarsAfter(imgs, st.avatars, m0, existing)
    decreases |imgs|
  {
    if imgs != [] {
      var next := ImageStep(imgs[0], st, existing);
      ImageStepSettled(imgs[0], st, m0, existing);
      ImageStepAvatars(imgs[0], st, m0, existing);
      ImagesFoldAvatars(imgs[1..], next, m0, existing);
      assert AvatarsAfter(imgs, st.avatars, m0, existing) == AvatarsAfter(imgs[1..], next.avatars, m0, existing);
    }
  }

  /** The image loop leaves every id it saw stable, and every id stable before stays stable. */
  lemma {:induction false} ImagesFoldStabilizes(imgs: seq<string>, st: ImageState, existing: set<string>)
    ensures forall j :: 0 <= j < |imgs| ==> Stable(imgs[j], ImagesFold(imgs, st, existing).mappings, existing)
    ensures forall y :: Stable(y, st.mappings, existing) ==> Stable(y, ImagesFold(imgs, st, existing).mappings, existing)
    decreases |imgs|
  {
    if imgs != [] {
      ImageStepStabilizes(imgs[0], st, existing);
      var next := ImageStep(imgs[0], st, existing);
      ImagesFoldStabilizes(imgs[1..], next, existing);
      var m := ImagesFold(imgs, st, existing).mappings;
      assert m == ImagesFold(imgs[1..], next, existing).mappings;
      forall j | 0 < j < |imgs| ensures Stable(imgs[j], m, existing) {
        assert imgs[j] == imgs[1..][j - 1];
      }
    }
  }

  /** When every id of the loop is stable, the loop changes neither the mapping nor the flag. */
  lemma {:induction false} ImagesFoldStable(imgs: seq<string>, st: ImageState, existing: set<string>)
    requires forall j :: 0 <= j < |imgs| ==> Stable(imgs[j], st.mappings, existing)
    ensures ImagesFold(imgs, st, existing).mappings == st.mappings
    ensures ImagesFold(imgs, st, existing).updated == st.updated
    decreases |imgs|
  {
    if imgs != [] {
      ImageStepStable(imgs[0], st, existing);
      var next := ImageStep(imgs[0], st, existing);
      assert forall j :: 0 <= j < |imgs[1..]| ==> imgs[1..][j] == imgs[j + 1];
      ImagesFoldStable(imgs[1..], next, existing);
    }
  }

  // ---------------------------------------------------------------- the catalogue

  /** What the character loop updates: the kept characters, the image mappings, the avatar files and the flag. */
  datatype CatalogueState = CatalogueState(
    chars: seq<Character>,
    mappings: map<string, string>,
    avatars: map<string, string>,
    updated: bool)

  /** One entry (lines 37-74): the character with the images found for it, kept only when there is one. */
  function CharStep(e: StudentEntry, st: CatalogueState, existing: set<string>): Result<CatalogueState> {
    var ch :- NewCharacter(e);
    var im := ImagesFold(e.img, ImageState(st.mappings, st.avatars, [], st.updated), existing);
    Ok(CatalogueState(if |im.images| > 0 then st.chars + [ch.(images := im.images)] else st.chars,
                      im.mappings, im.avatars, im.updated))
  }

  function CharsFold(entries: seq<StudentEntry>, st: CatalogueState, existing: set<string>): Result<CatalogueState>
    decreases |entries|
  {
    if entries == [] then Ok(st)
    else
      var next :- CharStep(entries[0], st, existing);
      CharsFold(entries[1..], next, existing)
  }

  /**
   * Reference definition: the characters that have a found image under a fixed
   * mapping, in entry order, each with exactly its found image ids.
   */
  function KeptChars(entries: seq<StudentEntry>, mappings: map<string, string>, existing: set<string>)
    : Result<seq<Character>>
    decreases |entries|
  {
    if entries == [] then Ok([])
    else
      var head :- KeptOne(entries[0], mappings, existing);
      var rest :- KeptChars(entries[1..], mappings, existing);
      Ok(head + rest)
  }

  /** The character of one entry with its found image ids, if it has any. */
  function KeptOne(e: StudentEntry, mappings: map<string, string>, existing: set<string>): Result<seq<Character>> {
    var ch :- NewCharacter(e);
    var imgs := FoundOf(e.img, mappings, existing);
    Ok(if |imgs| > 0 then [ch.(images := imgs)] else [])
  }

  /** Every id the reference lists is one of the ids given, with an existing candidate. */
  lemma {:induction false} FoundOfFound(imgs: seq<string>, mappings: map<string, string>, existing: set<string>)
    ensures forall x :: x in FoundOf(imgs, mappings, existing) ==> x in imgs && Found(x, mappings, existing)
    decreases |imgs|
  {
    if imgs != [] {
      FoundOfFound(imgs[1..], mappings, existing);
    }
  }

  /** Every kept character has at least one image, and each of its images has an existing candidate. */
  lemma {:induction false} KeptCharsImages(entries: seq<StudentEntry>, mappings: map<string, string>,
                                           existing: set<string>)
    requires KeptChars(entries, mappings, existing).Ok?
    ensures forall c :: c in KeptChars(entries, mappings, existing).value ==>
      |c.images| > 0 && forall x :: x in c.images ==> Found(x, mappings, existing)
    decreases |entries|
  {
    if entries != [] {
      FoundOfFound(entries[0].img, mappings, existing);
      KeptCharsImages(entries[1..], mappings, existing);
      var head := KeptOne(entries[0], mappings, existing).value;
      assert forall c :: c in head ==> c.images == FoundOf(entries[0].img, mappings, existing);
    }
  }

  /** Reference definition: the avatar files after every entry, under a fixed mapping. */
  function AllAvatars(entries: seq<StudentEntry>, avatars: map<string, string>, mappings: map<string, string>,
                      existing: set<string>): map<string, string>
    decreases |entries|
  {
    if entries == [] then avatars
    else AllAvatars(entries[1..], AvatarsAfter(entries[0].img, avatars, mappings, existing), mappings, existing)
  }

  /** Every image id of every entry is stable under the mapping. */
  ghost predicate AllStable(entries: seq<StudentEntry>, mappings: map<string, string>, existing: set<string>)
    decreases |entries|
  {
    entries != [] ==>
      && (forall j :: 0 <= j < |entries[0].img| ==> Stable(entries[0].img[j], mappings, existing))
      && AllStable(entries[1..], mappings, existing)
  }

  lemma {:induction false} AllStableGrows(entries: seq<StudentEntry>, m: map<string, string>,
                                          m': map<string, string>, existing: set<string>)
    requires AllStable(entries, m, existing)
    requires forall y :: Stable(y, m, existing) ==> Stable(y, m', existing)
    ensures AllStable(entries, m', existing)
    decreases |entries|
  {
    if entries != [] {
      AllStableGrows(entries[1..], m, m', existing);
    }
  }

  /** The character loop fails exactly when the reference does: when an entry lacks a name part. */
  lemma {:induction false} CharsFoldOk(entries: seq<StudentEntry>, st: CatalogueState, m0: map<string, string>,
                                       existing: set<string>)
    ensures CharsFold(entries, st, existing).Ok? <==> KeptChars(entries, m0, existing).Ok?
    decreases |entries|
  {
    if entries != [] && NewCharacter(entries[0]).Ok? {
      CharsFoldOk(entries[1..], CharStep(entries[0], st, existing).value, m0, existing);
    }
  }

  /** One entry against a settled mapping keeps its character exactly when an image id is found under `m0`. */
  lemma CharStepKept(e: StudentEntry, st: CatalogueState, m0: map<string, string>, existing: set<string>)
    requires Settled(st.mappings, m0, existing)
    requires NewCharacter(e).Ok?
    ensures KeptOne(e, m0, existing).Ok?
    ensures var next := CharStep(e, st, existing).value;
      && Settled(next.mappings, m0, existing)
      && next.chars == st.chars + KeptOne(e, m0, existing).value
  {
    var im0 := ImageState(st.mappings, st.avatars, [], st.updated);
    ImagesFoldSettled(e.img, im0, m0, existing);
    ImagesFoldImages(e.img, im0, m0, existing);
    assert ImagesFold(e.img, im0, existing).images == FoundOf(e.img, m0, existing);
  }

  lemma KeptCharsCons(entries: seq<StudentEntry>, m: map<string, string>, existing: set<string>)
    requires entries != [] && KeptOne(entries[0], m, existing).Ok? && KeptChars(entries[1..], m, existing).Ok?
    ensures KeptChars(entries, m, existing)
      == Ok(KeptOne(entries[0], m, existing).value + KeptChars(entries[1..], m, existing).value)
  {
  }

  /** Against a settled mapping the character loop keeps exactly the reference's characters. */
  lemma {:induction false} CharsFoldChars(entries: seq<StudentEntry>, st: CatalogueState, m0: map<string, string>,
                                          existing: set<string>)
    requires Settled(st.mappings, m0, existing)
    requires CharsFold(entries, st, existing).Ok?
    ensures KeptChars(entries, m0, existing).Ok?
    ensures CharsFold(entries, st, existing).value.chars == st.chars + KeptChars(entries, m0, existing).value
    decreases |entries|
  {
    if entries != [] {
      var e := entries[0];
      CharStepKept(e, st, m0, existing);
      var next := CharStep(e, st, existing).value;
      assert CharsFold(entries, st, existing) == CharsFold(entries[1..], next, existing);
      CharsFoldChars(entries[1..], next, m0, existing);
      var head := KeptOne(e, m0, existing).value;
      var rest := KeptChars(entries[1..], m0, existing).value;
      KeptCharsCons(entries, m0, existing);
      AppendAssoc(st.chars, head, rest);
    }
  }

  /** Against a settled mapping the character loop records the reference's avatar files. */
  lemma {:induction false} CharsFoldAvatars(entries: seq<StudentEntry>, st: CatalogueState, m0: map<string, string>,
                                            existing: set<string>)
    requires Settled(st.mappings, m0, existing)
    requires CharsFold(entries, st, existing).Ok?
    ensures CharsFold(entries, st, existing).value.avatars == AllAvatars(entries, st.avatars, m0, existing)
    decreases |entries|
  {
    if entries != [] {
      var e := entries[0];
      var im0 := ImageState(st.mappings, st.avatars, [], st.updated);
      ImagesFoldSettled(e.img, im0, m0, existing);
      ImagesFoldAvatars(e.img, im0, m0, existing);
      CharsFoldAvatars(entries[1..], CharStep(e, st, existing).value, m0, existing);
    }
  }

  /** The character loop keeps a settled mapping settled. */
  lemma {:induction false} CharsFoldSettled(entries: seq<StudentEntry>, st: CatalogueState, m0: map<string, string>,
                                            existing: set<string>)
    requires Settled(st.mappings, m0, existing)
    requires CharsFold(entries, st, existing).Ok?
    ensures Settled(CharsFold(entries, st, existing).value.mappings, m0, existing)
    decreases |entries|
  {
    if entries != [] {
      var e := entries[0];
      ImagesFoldSettled(e.img, ImageState(st.mappings, st.avatars, [], st.updated), m0, existing);
      CharsFoldSettled(entries[1..], CharStep(e, st, existing).value, m0, existing);
    }
  }

  /** The character loop leaves every image id of every entry stable, and every id stable before stays stable. */
  lemma {:induction false} CharsFoldStabilizes(entries: seq<StudentEntry>, st: CatalogueState, existing: set<string>)
    requires CharsFold(entries, st, existing).Ok?
    ensures AllStable(entries, CharsFold(entries, st, existing).value.mappings, existing)
    ensures forall y :: Stable(y, st.mappings, existing) ==> Stable(y, CharsFold(entries, st, existing).value.mappings, existing)
    decreases |entries|
  {
    if entries != [] {
      var e := entries[0];
      ImagesFoldStabilizes(e.img, ImageState(st.mappings, st.avatars, [], st.updated), existing);
      var next := CharStep(e, st, existing).value;
      CharsFoldStabilizes(entries[1..], next, existing);
      var r := CharsFold(entries, st, existing).value;
      assert r == CharsFold(entries[1..], next, existing).value;
      assert forall j :: 0 <= j < |e.img| ==> Stable(e.img[j], r.mappings, existing);
    }
  }

  /** When every image id is stable, the character loop changes neither the mapping nor the flag. */
  lemma {:induction false} CharsFoldStable(entries: seq<StudentEntry>, st: CatalogueState, existing: set<string>)
    requires AllStable(entries, st.mappings, existing)
    requires CharsFold(entries, st, existing).Ok?
    ensures CharsFold(entries, st, existing).value.mappings == st.mappings
    ensures CharsFold(entries, st, existing).value.updated == st.updated
    decreases |entries|
  {
    if entries != [] {
      var e := entries[0];
      ImagesFoldStable(e.img, ImageState(st.mappings, st.avatars, [], st.updated), existing);
      CharsFoldStable(entries[1..], CharStep(e, st, existing).value, existing);
    }
  }

  /**
   * Rerunning the character loop on the same files with the mapping it wrote
   * (lines 67-69, 76-77) raises no update and yields the same characters, avatar
   * files and mapping.
   */
  lemma CharsFoldRerun(entries: seq<StudentEntry>, m0: map<string, string>, avatars: map<string, string>,
                       existing: set<string>)
    requires CharsFold(entries, CatalogueState([], m0, avatars, false), existing).Ok?
    ensures var r := CharsFold(entries, CatalogueState([], m0, avatars, false), existing).value;
      CharsFold(entries, CatalogueState([], r.mappings, avatars, false), existing) == Ok(r.(updated := false))
  {
    var st1 := CatalogueState([], m0, avatars, false);
    var r := CharsFold(entries, st1, existing).value;
    CharsFoldChars(entries, st1, m0, existing);
    CharsFoldAvatars(entries, st1, m0, existing);
    CharsFoldSettled(entries, st1, m0, existing);
    CharsFoldStabilizes(entries, st1, existing);
    var st2 := CatalogueState([], r.mappings, avatars, false);
    CharsFoldOk(entries, st2, m0, existing);
    CharsFoldChars(entries, st2, m0, existing);
    CharsFoldAvatars(entries, st2, m0, existing);
    CharsFoldStable(entries, st2, existing);
  }

  // ---------------------------------------------------------------- the language files

  /** A language file: for each character id, a dict with "name" and "short_name". */
  type LangFile = map<string, map<string, string>>

  /** The entry added for a character missing from a language file (line 86). */
  const EmptyLangEntry: map<string, string> := map["name" := "", "short_name" := ""]

  /** The value a language file gives a character for `key`, "" when the character has no entry. */
  function LangValue(res: LangFile, id: string, key: string): string {
    if id in res && key in res[id] then res[id][key] else ""
  }

  function Ids(chars: seq<Character>): set<string>
    decreases |chars|
  {
    if chars == [] then {} else {chars[0].id} + Ids(chars[1..])
  }

  /** One character (lines 85-89): add the empty entry when missing, then copy its name and short name. */
  function FillStep(ch: Character, lang: string, res: LangFile): Result<(Character, LangFile)> {
    var res' := WithEntry(res, ch.id);
    var name :- Lookup(res'[ch.id], "name", "name");
    var short :- Lookup(res'[ch.id], "short_name", "short_name");
    Ok((ch.(names := ch.names[lang := name], shortNames := ch.shortNames[lang := short]), res'))
  }

  /** The loop of one language (lines 84-89): the characters, the language file and its update flag. */
  function FillLang(chars: seq<Character>, lang: string, res: LangFile, updated: bool)
    : Result<(seq<Character>, LangFile, bool)>
    decreases |chars|
  {
    if chars == [] then Ok(([], res, updated))
    else
      var step :- FillStep(chars[0], lang, res);
      var rest :- FillLang(chars[1..], lang, step.1, updated || chars[0].id !in res);
      Ok(([step.0] + rest.0, rest.1, rest.2))
  }

  /** The language file after one character: the empty entry added when its id is missing. */
  function WithEntry(res: LangFile, id: string): LangFile {
    if id !in res then res[id := EmptyLangEntry] else res
  }

  /** Adding a missing entry changes no value the file gives an id. */
  lemma WithEntryValues(res: LangFile, id: string)
    ensures forall x, key :: key in EmptyLangEntry ==> LangValue(WithEntry(res, id), x, key) == LangValue(res, x, key)
  {
  }

  /** One successful step of the language loop, unfolded. */
  lemma FillLangCons(chars: seq<Character>, lang: string, res: LangFile, updated: bool)
    requires chars != [] && FillLang(chars, lang, res, updated).Ok?
    ensures FillStep(chars[0], lang, res).Ok?
    ensures FillStep(chars[0], lang, res).value.1 == WithEntry(res, chars[0].id)
    ensures var rest := FillLang(chars[1..], lang, WithEntry(res, chars[0].id), updated || chars[0].id !in res);
      && rest.Ok?
      && FillLang(chars, lang, res, updated).value
         == ([FillStep(chars[0], lang, res).value.0] + rest.value.0, rest.value.1, rest.value.2)
  {
  }

  /** Filling a language fails exactly when a listed entry of the file lacks "name" or "short_name" (line 88-89). */
  lemma {:induction false} FillLangOk(chars: seq<Character>, lang: string, res: LangFile, updated: bool)
    ensures FillLang(chars, lang, res, updated).Ok? <==>
      forall i :: 0 <= i < |chars| && chars[i].id in res ==> "name" in res[chars[i].id] && "short_name" in res[chars[i].id]
    decreases |chars|
  {
    if chars != [] {
      var res1 := WithEntry(res, chars[0].id);
      FillLangOk(chars[1..], lang, res1, updated || chars[0].id !in res);
      assert forall i :: 1 <= i < |chars| ==> chars[i] == chars[1..][i - 1];
    }
  }

  /**
   * A successful fill keeps every entry of the file, adds the empty entry for
   * each missing id and raises the flag exactly when an id was missing.
   */
  lemma {:induction false} FillLangFile(chars: seq<Character>, lang: string, res: LangFile, updated: bool)
    requires FillLang(chars, lang, res, updated).Ok?
    ensures var r := FillLang(chars, lang, res, updated).value;
      && r.1.Keys == res.Keys + Ids(chars)
      && (forall id :: id in res ==> r.1[id] == res[id])
      && (forall id :: id in r.1 && id !in res ==> r.1[id] == EmptyLangEntry)
      && (r.2 <==> updated || !(Ids(chars) <= res.Keys))
    decreases |chars|
  {
    if chars != [] {
      var res1 := WithEntry(res, chars[0].id);
      FillLangCons(chars, lang, res, updated);
      FillLangFile(chars[1..], lang, res1, updated || chars[0].id !in res);
    }
  }

  /** A successful fill gives each character, in order, the file's name and short name ("" for an added entry). */
  lemma {:induction false} FillLangChars(chars: seq<Character>, lang: string, res: LangFile, updated: bool)
    requires FillLang(chars, lang, res, updated).Ok?
    ensures var r := FillLang(chars, lang, res, updated).value;
      && |r.0| == |chars|
      && forall i :: 0 <= i < |chars| ==> r.0[i] == chars[i].(
           names := chars[i].names[lang := LangValue(res, chars[i].id, "name")],
           shortNames := chars[i].shortNames[lang := LangValue(res, chars[i].id, "short_name")])
    decreases |chars|
  {
    if chars != [] {
      var ch := chars[0];
      var res1 := WithEntry(res, ch.id);
      FillLangCons(chars, lang, res, updated);
      FillLangChars(chars[1..], lang, res1, updated || ch.id !in res);
      WithEntryValues(res, ch.id);
      var r := FillLang(chars, lang, res, updated).value;
      var rest := FillLang(chars[1..], lang, res1, updated || ch.id !in res).value;
      forall i | 0 < i < |chars| ensures r.0[i] == chars[i].(
          names := chars[i].names[lang := LangValue(res, chars[i].id, "name")],
          shortNames := chars[i].shortNames[lang := LangValue(res, chars[i].id, "short_name")]) {
        assert r.0[i] == rest.0[i - 1] && chars[i] == chars[1..][i - 1];
      }
    }
  }

  // ---------------------------------------------------------------- the whole run

  /** What `get_chars` returns and writes back: characters, avatar files, the mapping file and both language files. */
  datatype Catalogue = Catalogue(
    chars: seq<Character>,
    avatars: map<string, string>,
    mappings: map<string, string>,
    mappingsUpdated: bool,
    zhCn: LangFile,
    zhCnUpdated: bool,
    zhTw: LangFile,
    zhTwUpdated: bool)

  /** `get_chars` (lines 23-93) on the downloaded entries, img_mappings.json, the portrait files and both language files. */
  function GetCharsSpec(data: seq<StudentEntry>, mappings: map<string, string>, existing: set<string>,
                        zhCn: LangFile, zhTw: LangFile): Result<Catalogue>
  {
    var sorted :- SortEntries(data);
    var st :- CharsFold(sorted, CatalogueState([], mappings, map[], false), existing);
    var cn :- FillLang(st.chars, "zh-cn", zhCn, false);
    var tw :- FillLang(cn.0, "zh-tw", zhTw, false);
    Ok(Catalogue(tw.0, st.avatars, st.mappings, st.updated, cn.1, cn.2, tw.1, tw.2))
  }

  /**
   * A successful run keeps, in order of English first name, exactly the
   * reference's characters (those with a found image, each with its found image
   * ids), with both Chinese names and short names taken from the language files.
   */
  lemma GetCharsKept(data: seq<StudentEntry>, mappings: map<string, string>, existing: set<string>,
                     zhCn: LangFile, zhTw: LangFile)
    requires GetCharsSpec(data, mappings, existing, zhCn, zhTw).Ok?
    ensures SortEntries(data).Ok? && KeptChars(SortEntries(data).value, mappings, existing).Ok?
    ensures var kept := KeptChars(SortEntries(data).value, mappings, existing).value;
      var r := GetCharsSpec(data, mappings, existing, zhCn, zhTw).value;
      && |r.chars| == |kept|
      && forall i :: 0 <= i < |kept| ==> r.chars[i] == kept[i].(
           names := kept[i].names["zh-cn" := LangValue(zhCn, kept[i].id, "name")]
                                 ["zh-tw" := LangValue(zhTw, kept[i].id, "name")],
           shortNames := kept[i].shortNames["zh-cn" := LangValue(zhCn, kept[i].id, "short_name")]
                                           ["zh-tw" := LangValue(zhTw, kept[i].id, "short_name")])
  {
    var sorted := SortEntries(data).value;
    var st0 := CatalogueState([], mappings, map[], false);
    CharsFoldChars(sorted, st0, mappings, existing);
    var st := CharsFold(sorted, st0, existing).value;
    var kept := KeptChars(sorted, mappings, existing).value;
    assert st.chars == kept;
    FillLangChars(kept, "zh-cn", zhCn, false);
    var cn := FillLang(kept, "zh-cn", zhCn, false).value;
    FillLangChars(cn.0, "zh-tw", zhTw, false);
  }

  /** A successful run records, for each found image id, its first existing candidate under the mapping read. */
  lemma GetCharsAvatars(data: seq<StudentEntry>, mappings: map<string, string>, existing: set<string>,
                        zhCn: LangFile, zhTw: LangFile)
    requires GetCharsSpec(data, mappings, existing, zhCn, zhTw).Ok?
    ensures SortEntries(data).Ok?
    ensures GetCharsSpec(data, mappings, existing, zhCn, zhTw).value.avatars
      == AllAvatars(SortEntries(data).value, map[], mappings, existing)
  {
    CharsFoldAvatars(SortEntries(data).value, CatalogueState([], mappings, map[], false), mappings, existing);
  }

  // ---------------------------------------------------------------- the loops

  /** The candidate loop (lines 58-65): the first candidate whose file exists. */
  method FindImage(choices: seq<string>, existing: set<string>) returns (r: Option<string>)
    ensures r == FirstExisting(choices, existing)
  {
    var i := 0;
    while i < |choices|
      invariant 0 <= i <= |choices|
      invariant forall j :: 0 <= j < i ==> CharDir + choices[j] !in existing
    {
      if CharDir + choices[i] in existing {
        FirstExistingAt(choices, existing, i);
        return Some(choices[i]);
      }
      i := i + 1;
    }
    FirstExistingNone(choices, existing);
    return None;
  }

  /** One image id (lines 50-69): try the candidates, record the file found or clear the mapping. */
  method AddImage(img: string, st: ImageState, existing: set<string>) returns (r: ImageState)
    ensures r == ImageStep(img, st, existing)
  {
    var mappings, avatars, images, updated := st.mappings, st.avatars, st.images, st.updated;
    var choices := StandardCandidates(img);
    if img in mappings && |mappings[img]| > 0 {
      choices := choices + [mappings[img] + ".png"];
    }
    assert choices == Candidates(img, st.mappings);
    var found := FindImage(choices, existing);
    if found.Some? {
      avatars := avatars[img := CharDir + found.value];
      images := images + [img];
    } else if img !in mappings || |mappings[img]| > 0 {
      mappings := mappings[img := ""];
      updated := true;
    }
    return ImageState(mappings, avatars, images, updated);
  }

  /** The image loop of one character (lines 49-69). */
  method AddImages(imgs: seq<string>, st: ImageState, existing: set<string>) returns (r: ImageState)
    ensures r == ImagesFold(imgs, st, existing)
  {
    r := st;
    var i := 0;
    while i < |imgs|
      invariant 0 <= i <= |imgs|
      invariant ImagesFold(imgs, st, existing) == ImagesFold(imgs[i..], r, existing)
    {
      assert imgs[i..][0] == imgs[i] && imgs[i..][1..] == imgs[i + 1..];
      r := AddImage(imgs[i], r, existing);
      i := i + 1;
    }
    assert imgs[i..] == [];
  }

  /** One entry of characters.json (lines 38-74): its character, its images, and the character kept if it has one. */
  method AddCharacter(e: StudentEntry, st: CatalogueState, existing: set<string>) returns (r: Result<CatalogueState>)
    ensures r == CharStep(e, st, existing)
  {
    var ch := NewCharacter(e);
    if ch.Err? {
      return Err(ch.error);
    }
    var im := AddImages(e.img, ImageState(st.mappings, st.avatars, [], st.updated), existing);
    var chars := st.chars;
    if |im.images| > 0 {
      chars := chars + [ch.value.(images := im.images)];
    }
    return Ok(CatalogueState(chars, im.mappings, im.avatars, im.updated));
  }

  /** The loop of one language file (lines 83-89). */
  method FillLanguage(chars: seq<Character>, lang: string, res: LangFile)
    returns (r: Result<(seq<Character>, LangFile, bool)>)
    ensures r == FillLang(chars, lang, res, false)
  {
    var out: seq<Character> := [];
    var data := res;
    var updated := false;
    var i := 0;
    assert chars[i..] == chars;
    PrependedNothing(FillLang(chars, lang, res, false));
    while i < |chars|
      invariant 0 <= i <= |chars|
      invariant FillLang(chars, lang, res, false) == Prepended(out, FillLang(chars[i..], lang, data, updated))
    {
      assert chars[i..][0] == chars[i] && chars[i..][1..] == chars[i + 1..];
      FillLangPrepend(chars[i..], lang, data, updated, out);
      var ch := chars[i];
      if ch.id !in data {
        data := data[ch.id := EmptyLangEntry];
        updated := true;
      }
      var entry := data[ch.id];
      if "name" !in entry {
        return Err(KeyError("name"));
      }
      if "short_name" !in entry {
        return Err(KeyError("short_name"));
      }
      out := out + [ch.(names := ch.names[lang := entry["name"]], shortNames := ch.shortNames[lang := entry["short_name"]])];
      i := i + 1;
    }
    assert chars[i..] == [];
    assert out + [] == out;
    return Ok((out, data, updated));
  }

  /** The characters already filled in front of the rest of a language loop's result. */
  function Prepended(done: seq<Character>, r: Result<(seq<Character>, LangFile, bool)>)
    : Result<(seq<Character>, LangFile, bool)>
  {
    match r
    case Ok(v) => Ok((done + v.0, v.1, v.2))
    case Err(e) => Err(e)
  }

  lemma PrependedNothing(r: Result<(seq<Character>, LangFile, bool)>)
    ensures Prepended([], r) == r
  {
    if r.Ok? {
      assert [] + r.value.0 == r.value.0;
    }
  }

  /** Filling after `done` is one step of the language loop followed by the rest. */
  lemma FillLangPrepend(chars: seq<Character>, lang: string, res: LangFile, updated: bool, done: seq<Character>)
    requires chars != []
    ensures Prepended(done, FillLang(chars, lang, res, updated)) ==
      match FillStep(chars[0], lang, res)
      case Err(e) => Err(e)
      case Ok(step) => Prepended(done + [step.0], FillLang(chars[1..], lang, step.1, updated || chars[0].id !in res))
  {
    var st := FillStep(chars[0], lang, res);
    if st.Ok? {
      var rest := FillLang(chars[1..], lang, st.value.1, updated || chars[0].id !in res);
      if rest.Ok? {
        AppendAssoc(done, [st.value.0], rest.value.0);
      }
    }
  }

  /** The character loop (lines 31-74), from no characters, no avatar files and the mapping file as read. */
  method AddCharacters(entries: seq<StudentEntry>, mappings: map<string, string>, existing: set<string>)
    returns (r: Result<CatalogueState>)
    ensures r == CharsFold(entries, CatalogueState([], mappings, map[], false), existing)
  {
    var st0 := CatalogueState([], mappings, map[], false);
    var st := st0;
    var i := 0;
    while i < |entries|
      invariant 0 <= i <= |entries|
      invariant CharsFold(entries, st0, existing) == CharsFold(entries[i..], st, existing)
    {
      assert entries[i..][0] == entries[i] && entries[i..][1..] == entries[i + 1..];
      var next := AddCharacter(entries[i], st, existing);
      if next.Err? {
        return Err(next.error);
      }
      st := next.value;
      i := i + 1;
    }
    assert entries[i..] == [];
    return Ok(st);
  }

  /** `get_chars` (lines 23-93). */
  method GetChars(data: seq<StudentEntry>, mappings: map<string, string>, existing: set<string>,
                  zhCn: LangFile, zhTw: LangFile) returns (r: Result<Catalogue>)
    ensures r == GetCharsSpec(data, mappings, existing, zhCn, zhTw)
  {
    var sorted := SortEntries(data);
    if sorted.Err? {
      return Err(sorted.error);
    }
    var st := AddCharacters(sorted.value, mappings, existing);
    if st.Err? {
      return Err(st.error);
    }
    var cn := FillLanguage(st.value.chars, "zh-cn", zhCn);
    if cn.Err? {
      return Err(cn.error);
    }
    var tw := FillLanguage(cn.value.0, "zh-tw", zhTw);
    if tw.Err? {
      return Err(tw.error);
    }
    return Ok(Catalogue(tw.value.0, st.value.avatars, st.value.mappings, st.value.updated, cn.value.1, cn.value.2,
                        tw.value.1, tw.value.2));
  }
}
