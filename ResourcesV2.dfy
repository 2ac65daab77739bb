/**
 * The second Blue Archive processor (blue_archive/get_resources_v2.py): the
 * inverted legacy image mapping, default translations, the update of stale
 * Japanese names, and the catalogue built from char_data.json with excluded
 * portraits and legacy image names.
 */
module ResourcesV2 {
  import opened Results
  import opened Text
  import opened Sorting
  import opened Common
  import opened Models
  import ResourcesV3

  // ---------------------------------------------------------------- legacy image mappings

  /**
   * `get_legacy_image_mappings` (lines 16-20) on the entries of img_mappings.json
   * in file order: each entry `k: v` with a non-empty `v` maps the file name of
   * `v` back to `k`, a later entry overwriting an earlier one.
   */
  function LegacyImageMappings(entries: seq<(string, string)>): (r: map<string, string>)
    ensures forall n :: n in r <==> exists i :: 0 <= i < |entries| && |entries[i].1| > 0 && PathName(entries[i].1) == n
    decreases |entries|
  {
    if entries == [] then map[]
    else
      var init := entries[..|entries| - 1];
      var last := entries[|entries| - 1];
      var m := LegacyImageMappings(init);
      assert forall i :: 0 <= i < |init| ==> init[i] == entries[i];
      if |last.1| > 0 then m[PathName(last.1) := last.0] else m
  }

  /** Each mapped file name leads back to the key of an entry whose value names that file. */
  lemma {:induction false} LegacyImageMappingsSource(entries: seq<(string, string)>, n: string)
    requires n in LegacyImageMappings(entries)
    ensures exists i :: 0 <= i < |entries| && |entries[i].1| > 0 && PathName(entries[i].1) == n
                        && entries[i].0 == LegacyImageMappings(entries)[n]
    decreases |entries|
  {
    var init := entries[..|entries| - 1];
    var last := entries[|entries| - 1];
    assert forall i :: 0 <= i < |init| ==> init[i] == entries[i];
    if !(|last.1| > 0 && PathName(last.1) == n) {
      LegacyImageMappingsSource(init, n);
    }
  }

  /** The key that wins for a file name is that of the last entry naming it. */
  lemma {:induction false} LegacyImageMappingsLast(entries: seq<(string, string)>, i: nat)
    requires i < |entries| && |entries[i].1| > 0
    requires forall j :: i < j < |entries| && |entries[j].1| > 0 ==> PathName(entries[j].1) != PathName(entries[i].1)
    ensures LegacyImageMappings(entries)[PathName(entries[i].1)] == entries[i].0
    decreases |entries|
  {
    var init := entries[..|entries| - 1];
    var last := entries[|entries| - 1];
    var m := LegacyImageMappings(init);
    assert LegacyImageMappings(entries) == if |last.1| > 0 then m[PathName(last.1) := last.0] else m;
    if i < |entries| - 1 {
      assert forall k :: 0 <= k < |init| ==> init[k] == entries[k];
      LegacyImageMappingsLast(init, i);
    }
  }

  // ---------------------------------------------------------------- default translations

  const V2Langs: set<string> := {"ja", "en", "zh-cn", "zh-tw"}

  function V2Names(ja: string, en: string): map<string, string> {
    map["ja" := ja, "en" := en, "zh-cn" := "", "zh-tw" := ""]
  }

  /**
   * `get_default_lang_data` (lines 23-47): with a family name the Japanese name
   * is "family personal", the English name the romanized family reading and the
   * id, and the English short name the id; without one the Japanese name is the
   * personal name and the English full and short names are the title of the id.
   * The Japanese short name is the personal name; the Chinese entries are empty.
   */
  function DefaultLangData(data: CharData, roma: Romanizer): (r: Result<CharLangData>)
    ensures r.Ok? <==>
      if |data.familyName| > 0 then |roma(data.familyNameRuby)| > 0
      else forall s :: s in Split(data.id, '_') ==> |s| > 0
    ensures r.Ok? ==> r.value.id == data.id && r.value.shortName.Some?
    ensures r.Ok? ==> r.value.name.Keys == V2Langs && r.value.shortName.value.Keys == V2Langs
    ensures r.Ok? ==> r.value.name["zh-cn"] == "" && r.value.name["zh-tw"] == ""
    ensures r.Ok? ==> r.value.shortName.value["zh-cn"] == "" && r.value.shortName.value["zh-tw"] == ""
    ensures r.Ok? ==> r.value.shortName.value["ja"] == data.personalName
    ensures r.Ok? && |data.familyName| > 0 ==>
      && r.value.name["ja"] == data.familyName + " " + data.personalName
      && r.value.name["en"] == NameToId(roma, data.familyNameRuby).value + " " + data.id
      && r.value.shortName.value["en"] == data.id
    ensures r.Ok? && |data.familyName| == 0 ==>
      && r.value.name["ja"] == data.personalName
      && Ok(r.value.name["en"]) == ResourcesV3.TitleFromId(data.id)
      && r.value.shortName.value["en"] == r.value.name["en"]
  {
    if |data.familyName| > 0 then
      var family :- NameToId(roma, data.familyNameRuby);
      Ok(CharLangData(data.id, V2Names(data.familyName + " " + data.personalName, family + " " + data.id),
                      Some(V2Names(data.personalName, data.id))))
    else
      var en :- ResourcesV3.TitleFromId(data.id);
      Ok(CharLangData(data.id, V2Names(data.personalName, en), Some(V2Names(data.personalName, en))))
  }

  /** The default English short name is the last word of the English name when the id has no space. */
  lemma DefaultEnglishShortName(data: CharData, roma: Romanizer)
    requires DefaultLangData(data, roma).Ok? && |data.familyName| > 0 && ' ' !in data.id
    ensures var t := DefaultLangData(data, roma).value;
      t.shortName.value["en"] == LastSegment(t.name["en"], ' ')
  {
    var family := NameToId(roma, data.familyNameRuby).value;
    LastSegmentAfter(family, ' ', data.id);
    assert family + " " + data.id == family + [' '] + data.id;
  }

  /**
   * For a character with a family name and no personal reading, the second
   * processor's default full names agree with those of the third.
   */
  lemma DefaultNamesAgreeWithV3(data: CharData, roma: Romanizer)
    requires |data.familyName| > 0 && DefaultLangData(data, roma).Ok?
    ensures var simple := SimpleCharData(data.id, data.familyName, data.familyNameRuby, data.personalName, "",
                                         data.imageFiles);
      && ResourcesV3.DefaultLangData(simple, roma).Ok?
      && ResourcesV3.DefaultLangData(simple, roma).value.name["ja"] == DefaultLangData(data, roma).value.name["ja"]
      && ResourcesV3.DefaultLangData(simple, roma).value.name["en"] == DefaultLangData(data, roma).value.name["en"]
  {
  }

  // ---------------------------------------------------------------- translation update

  /**
   * Lines 80-92: an id with no translation gets the default and marks the
   * translations updated; otherwise its Japanese name is read (a KeyError when
   * absent) and, when it differs from the default, the Japanese and English
   * names are overwritten with the defaults and the translations marked updated.
   */
  function UpdateTranslation(tr: map<string, CharLangData>, cid: string, default: CharLangData)
    : (r: Result<(map<string, CharLangData>, bool)>)
    requires "ja" in default.name && "en" in default.name
    ensures r.Ok? <==> cid !in tr || "ja" in tr[cid].name
    ensures r.Ok? ==> cid in r.value.0 && "ja" in r.value.0[cid].name && r.value.0[cid].name["ja"] == default.name["ja"]
  {
    if cid !in tr then Ok((tr[cid := default], true))
    else
      var trans := tr[cid];
      var ja :- Lookup(trans.name, "ja", "ja");
      if ja != default.name["ja"] then
        var name := trans.name["ja" := default.name["ja"]]["en" := default.name["en"]];
        Ok((tr[cid := trans.(name := name)], true))
      else Ok((tr, false))
  }

  /**
   * What the update changes: the id is added; other entries stay; a new id gets
   * the default; a stored entry keeps its id, short names and other languages,
   * and is flagged exactly when its Japanese name differed, in which case its
   * English name becomes the default too.
   */
  lemma UpdateTranslationEffect(tr: map<string, CharLangData>, cid: string, default: CharLangData)
    requires "ja" in default.name && "en" in default.name
    requires UpdateTranslation(tr, cid, default).Ok?
    ensures var r := UpdateTranslation(tr, cid, default).value;
      && r.0.Keys == tr.Keys + {cid}
      && (forall id :: id in tr && id != cid ==> r.0[id] == tr[id])
      && (cid !in tr ==> r.0[cid] == default && r.1)
    ensures var r := UpdateTranslation(tr, cid, default).value;
      cid in tr ==>
        var old_ := tr[cid];
        var new_ := r.0[cid];
        && new_.id == old_.id && new_.shortName == old_.shortName
        && new_.name.Keys == old_.name.Keys + (if r.1 then {"ja", "en"} else {})
        && (forall l :: l in old_.name && l != "ja" && l != "en" ==> new_.name[l] == old_.name[l])
        && (r.1 <==> old_.name["ja"] != default.name["ja"])
        && (r.1 ==> new_.name["en"] == default.name["en"])
        && (!r.1 ==> new_ == old_)
  {
  }

  /** Updating twice with the same default changes nothing the second time. */
  lemma UpdateTranslationIdempotent(tr: map<string, CharLangData>, cid: string, default: CharLangData)
    requires "ja" in default.name && "en" in default.name
    requires UpdateTranslation(tr, cid, default).Ok?
    ensures UpdateTranslation(UpdateTranslation(tr, cid, default).value.0, cid, default)
         == Ok((UpdateTranslation(tr, cid, default).value.0, false))
  {
  }

  // ---------------------------------------------------------------- image names

  /** The inputs every character shares: groups, excluded portraits, legacy names, resource files, romanizer. */
  datatype Context = Context(
    groups: seq<GroupData>,
    excluded: set<string>,
    mappings: map<string, string>,
    existing: set<string>,
    roma: Romanizer)

  /**
   * The image name of one portrait path (lines 104-111): none when its file name
   * is excluded; the legacy name when the file name is mapped; otherwise what
   * follows the first "Portrait_" in the file name, a ValueError when there is none.
   */
  function ImageName(img: string, excluded: set<string>, mappings: map<string, string>): (r: Result<Option<string>>)
    ensures PathName(img) in excluded ==> r == Ok(None)
    ensures PathName(img) !in excluded && PathName(img) in mappings ==> r == Ok(Some(mappings[PathName(img)]))
    ensures PathName(img) !in excluded && PathName(img) !in mappings ==>
      && (r.Ok? <==> exists j :: 0 <= j <= |PathName(img)| && OccursAt(PathName(img), ResourcesV3.PortraitMarker, j))
      && (r.Ok? ==> r.value.Some? &&
                    exists j: nat :: ResourcesV3.FirstMarker(PathName(img), j) &&
                                     r.value.value == PathName(img)[j + |ResourcesV3.PortraitMarker|..])
  {
    var name := PathName(img);
    if name in excluded then Ok(None)
    else if name in mappings then Ok(Some(mappings[name]))
    else
      var i :- Index(name, ResourcesV3.PortraitMarker);
      assert ResourcesV3.FirstMarker(name, i);
      Ok(Some(name[i + |ResourcesV3.PortraitMarker|..]))
  }

  /** A student portrait `dir/Student_Portrait_<n>` that is neither excluded nor mapped is named `n`. */
  lemma StudentPortraitName(dir: string, n: string, excluded: set<string>, mappings: map<string, string>)
    requires '/' !in n
    requires "Student_Portrait_" + n !in excluded && "Student_Portrait_" + n !in mappings
    ensures ImageName(dir + "/" + ("Student_Portrait_" + n), excluded, mappings) == Ok(Some(n))
  {
    var file := "Student_Portrait_" + n;
    assert '/' !in file;
    LastSegmentAfter(dir, '/', file);
    assert dir + "/" + file == dir + ['/'] + file;
    assert OccursAt(file, ResourcesV3.PortraitMarker, 8);
    forall j | 0 <= j < 8 ensures !OccursAt(file, ResourcesV3.PortraitMarker, j) {
      assert file[j..j + 9][0] == file[j] != 'P';
    }
    assert ResourcesV3.FirstMarker(file, 8);
    assert file[8 + |ResourcesV3.PortraitMarker|..] == n;
  }

  /**
   * On a plain path that is neither excluded nor mapped, the name agrees with
   * the one the third processor reads from a spec without a colon.
   */
  lemma ImageNameAgreesWithV3(img: string, excluded: set<string>, mappings: map<string, string>)
    requires ':' !in img && PathName(img) !in excluded && PathName(img) !in mappings
    ensures ImageName(img, excluded, mappings).Ok? <==> ResourcesV3.ParseImageSpec(img).Ok?
    ensures ImageName(img, excluded, mappings).Ok? ==>
      ImageName(img, excluded, mappings).value == Some(ResourcesV3.ParseImageSpec(img).value.name)
  {
    var name := PathName(img);
    if ImageName(img, excluded, mappings).Ok? {
      var j: nat :| ResourcesV3.FirstMarker(name, j) && ImageName(img, excluded, mappings).value.value
                      == name[j + |ResourcesV3.PortraitMarker|..];
      var k: nat :| ResourcesV3.FirstMarker(name, k) && ResourcesV3.ParseImageSpec(img).value.name
                      == name[k + |ResourcesV3.PortraitMarker|..];
      assert OccursAt(name, ResourcesV3.PortraitMarker, j) && OccursAt(name, ResourcesV3.PortraitMarker, k);
      assert j == k;
    }
  }

  // ---------------------------------------------------------------- avatar files

  /** The images of the character being built and the catalogue-wide avatar files. */
  datatype Images = Images(images: seq<string>, files: map<string, string>)

  /** What the assertions at lines 112-116 demand of a named image. */
  predicate Acceptable(name: string, img: string, files: map<string, string>, existing: set<string>) {
    |name| > 0 && name !in files && img + ".png" in existing
  }

  /**
   * One portrait path (lines 103-119): an excluded file adds nothing; a named
   * image must be non-empty, new to the catalogue and backed by `img.png`, each
   * an AssertionError; then it is appended and its file recorded.
   */
  function AddImage(img: string, im: Images, ctx: Context): (r: Result<Images>)
    ensures var n := ImageName(img, ctx.excluded, ctx.mappings);
      r.Ok? <==> n.Ok? && (n.value.Some? ==> Acceptable(n.value.value, img, im.files, ctx.existing))
    ensures r.Ok? && ImageName(img, ctx.excluded, ctx.mappings).value.None? ==> r.value == im
    ensures r.Ok? && ImageName(img, ctx.excluded, ctx.mappings).value.Some? ==>
      var name := ImageName(img, ctx.excluded, ctx.mappings).value.value;
      r.value == Images(im.images + [name], im.files[name := img + ".png"])
  {
    var n :- ImageName(img, ctx.excluded, ctx.mappings);
    match n
    case None => Ok(im)
    case Some(name) =>
      if |name| == 0 then Err(AssertionError("len(name) > 0"))
      else if name in im.files then Err(AssertionError("Duplicate"))
      else if img + ".png" !in ctx.existing then Err(AssertionError("img_file.exists()"))
      else Ok(Images(im.images + [name], im.files[name := img + ".png"]))
  }

  /** All portrait paths of one character, in order; the first failure ends it. */
  function AddImages(imgs: seq<string>, im: Images, ctx: Context): Result<Images>
    decreases |imgs|
  {
    if imgs == [] then Ok(im)
    else
      var next :- AddImage(imgs[0], im, ctx);
      AddImages(imgs[1..], next, ctx)
  }

  /** The names the portrait paths give, in order; excluded paths, and paths with no name, give none. */
  function ImageNames(imgs: seq<string>, ctx: Context): seq<string> {
    if imgs == [] then []
    else
      var n := ImageName(imgs[0], ctx.excluded, ctx.mappings);
      (if n.Ok? && n.value.Some? then [n.value.value] else []) + ImageNames(imgs[1..], ctx)
  }

  /** The images a successful run over the paths appends are exactly their names, in order. */
  lemma {:induction false} AddImagesNames(imgs: seq<string>, im: Images, ctx: Context)
    requires AddImages(imgs, im, ctx).Ok?
    ensures AddImages(imgs, im, ctx).value.images == im.images + ImageNames(imgs, ctx)
    decreases |imgs|
  {
    if imgs != [] {
      var step := AddImage(imgs[0], im, ctx);
      assert step.Ok?;
      var n := ImageName(imgs[0], ctx.excluded, ctx.mappings).value;
      var names := if n.Some? then [n.value] else [];
      assert step.value.images == im.images + names;
      assert ImageNames(imgs, ctx) == names + ImageNames(imgs[1..], ctx);
      AddImagesNames(imgs[1..], step.value, ctx);
      AppendAssoc(im.images, names, ImageNames(imgs[1..], ctx));
    }
  }

  /**
   * What the image loop keeps true: the names taken so far (`prior`, then this
   * character's) are exactly the avatar keys, each once; every name is
   * non-empty and its file exists.
   */
  ghost predicate ImagesInv(prior: seq<string>, im: Images, existing: set<string>) {
    && multiset(prior + im.images) == multiset(im.files.Keys)
    && (forall n :: n in im.files ==> |n| > 0 && im.files[n] in existing)
  }

  lemma AddImageInv(img: string, prior: seq<string>, im: Images, ctx: Context)
    requires ImagesInv(prior, im, ctx.existing)
    requires AddImage(img, im, ctx).Ok?
    ensures ImagesInv(prior, AddImage(img, im, ctx).value, ctx.existing)
  {
    var n := ImageName(img, ctx.excluded, ctx.mappings).value;
    if n.Some? {
      var next := AddImage(img, im, ctx).value;
      ResourcesV3.AddKeyMultiset(im.files, n.value, img + ".png");
      assert prior + next.images == (prior + im.images) + [n.value];
    }
  }

  lemma {:induction false} AddImagesInv(imgs: seq<string>, prior: seq<string>, im: Images, ctx: Context)
    requires ImagesInv(prior, im, ctx.existing)
    requires AddImages(imgs, im, ctx).Ok?
    ensures ImagesInv(prior, AddImages(imgs, im, ctx).value, ctx.existing)
    decreases |imgs|
  {
    if imgs != [] {
      AddImageInv(imgs[0], prior, im, ctx);
      AddImagesInv(imgs[1..], prior, AddImage(imgs[0], im, ctx).value, ctx);
    }
  }

  // ---------------------------------------------------------------- the catalogue

  /** The catalogue so far, the avatar files, the translations, whether they changed, the characters with no group. */
  datatype CharsState = CharsState(
    chars: seq<Character>,
    files: map<string, string>,
    translations: map<string, CharLangData>,
    updated: bool,
    noGroup: seq<Character>)

  /** The short names a character takes from its translation; an entry without short names gives none. */
  function ShortNamesOf(trans: CharLangData): map<string, string> {
    match trans.shortName
    case Some(m) => m
    case None => map[]
  }

  /** The default translation and the update of the stored translations (lines 77-92). */
  function StepTranslation(data: CharData, st: CharsState, ctx: Context): Result<(map<string, CharLangData>, bool)> {
    var default :- DefaultLangData(data, ctx.roma);
    UpdateTranslation(st.translations, data.id, default)
  }

  /** The character of one entry (lines 94-100, 121): its translation's names, its sorted images and groups. */
  function Built(data: CharData, trans: CharLangData, im: Images, ctx: Context): Character {
    Character(data.id, trans.name, ShortNamesOf(trans), SortStrings(im.images),
              SortStrings(ResourcesV3.GroupsOf(ctx.groups, data.id)))
  }

  /** One entry of char_data.json (lines 76-124). */
  function CharStep(data: CharData, st: CharsState, ctx: Context): Result<CharsState> {
    var upd :- StepTranslation(data, st, ctx);
    var im :- AddImages(data.imageFiles, Images([], st.files), ctx);
    var ch := Built(data, upd.0[data.id], im, ctx);
    Ok(CharsState(st.chars + [ch], im.files, upd.0, st.updated || upd.1,
                  if |ch.searches| == 0 then st.noGroup + [ch] else st.noGroup))
  }

  /** The entries of char_data.json in order; the first failure ends the run. */
  function CharsFold(entries: seq<CharData>, st: CharsState, ctx: Context): Result<CharsState>
    decreases |entries|
  {
    if entries == [] then Ok(st)
    else
      var next :- CharStep(entries[0], st, ctx);
      CharsFold(entries[1..], next, ctx)
  }

  /** The characters with no group, in catalogue order (lines 123-124). */
  function NoGroup(chars: seq<Character>): (r: seq<Character>)
    ensures forall c :: c in r <==> c in chars && |c.searches| == 0
  {
    if chars == [] then []
    else
      var last := chars[|chars| - 1];
      var init := chars[..|chars| - 1];
      assert chars == init + [last];
      NoGroup(init) + (if |last.searches| == 0 then [last] else [])
  }

  /** One record of nogroup.generated.txt (line 133): id, Japanese name and first image. */
  function ReportLine(c: Character): Result<string> {
    var ja :- Lookup(c.names, "ja", "ja");
    if |c.images| == 0 then Err(IndexError("char.images[0]"))
    else Ok(c.id + "\n  " + ja + "\n  " + c.images[0] + "\n\n")
  }

  /**
   * The text of nogroup.generated.txt (lines 131-133): the records of the
   * characters in order; the first character with no Japanese name or no image
   * raises.
   */
  function NoGroupReport(chars: seq<Character>): Result<string>
    decreases |chars|
  {
    if chars == [] then Ok("")
    else
      var head :- NoGroupReport(chars[..|chars| - 1]);
      var line :- ReportLine(chars[|chars| - 1]);
      Ok(head + line)
  }

  /** The catalogue, the avatar files, the translations, whether to write them back, and the no-group report. */
  datatype Catalogue = Catalogue(
    chars: seq<Character>,
    files: map<string, string>,
    translations: map<string, CharLangData>,
    updated: bool,
    report: string)

  /** `get_chars` (lines 54-135): the loop over char_data.json, then the no-group report. */
  function GetCharsSpec(entries: seq<CharData>, translations: map<string, CharLangData>, ctx: Context)
    : Result<Catalogue>
  {
    var st :- CharsFold(entries, CharsState([], map[], translations, false, []), ctx);
    var report :- NoGroupReport(st.noGroup);
    Ok(Catalogue(st.chars, st.files, st.translations, st.updated, report))
  }

  // ---------------------------------------------------------------- what the catalogue loop keeps

  /** The parts a successful step is made of. */
  lemma CharStepParts(data: CharData, st: CharsState, ctx: Context)
    requires CharStep(data, st, ctx).Ok?
    ensures StepTranslation(data, st, ctx).Ok? && AddImages(data.imageFiles, Images([], st.files), ctx).Ok?
    ensures var upd := StepTranslation(data, st, ctx).value;
      var im := AddImages(data.imageFiles, Images([], st.files), ctx).value;
      && data.id in upd.0
      && var ch := Built(data, upd.0[data.id], im, ctx);
         CharStep(data, st, ctx).value == CharsState(st.chars + [ch], im.files, upd.0, st.updated || upd.1,
                                                     if |ch.searches| == 0 then st.noGroup + [ch] else st.noGroup)
  {
  }

  /**
   * The catalogue invariant: the image names of all characters are the avatar
   * keys, each once, non-empty and backed by an existing file; the no-group list
   * is the characters without searches, in order; every character has a
   * Japanese name, so the report can read it.
   */
  ghost predicate CatalogueInv(st: CharsState, existing: set<string>) {
    && ImagesInv(AllImages(st.chars), Images([], st.files), existing)
    && st.noGroup == NoGroup(st.chars)
    && (forall c :: c in st.chars ==> "ja" in c.names)
  }

  lemma CharStepInv(data: CharData, st: CharsState, ctx: Context)
    requires CatalogueInv(st, ctx.existing)
    requires CharStep(data, st, ctx).Ok?
    ensures CatalogueInv(CharStep(data, st, ctx).value, ctx.existing)
  {
    CharStepParts(data, st, ctx);
    var upd := StepTranslation(data, st, ctx).value;
    var im := AddImages(data.imageFiles, Images([], st.files), ctx).value;
    var ch := Built(data, upd.0[data.id], im, ctx);
    AddImagesInv(data.imageFiles, AllImages(st.chars), Images([], st.files), ctx);
    StepImages(st.chars, ch, im, ctx.existing);
    NoGroupSnoc(st.chars, ch);
  }

  lemma StepImages(chars: seq<Character>, ch: Character, im: Images, existing: set<string>)
    requires ImagesInv(AllImages(chars), im, existing)
    requires multiset(ch.images) == multiset(im.images)
    ensures ImagesInv(AllImages(chars + [ch]), Images([], im.files), existing)
  {
    AllImagesAppend(chars, [ch]);
    assert AllImages([ch]) == ch.images;
    assert AllImages(chars + [ch]) + [] == AllImages(chars) + ch.images;
  }

  lemma NoGroupSnoc(chars: seq<Character>, ch: Character)
    ensures NoGroup(chars + [ch]) == NoGroup(chars) + (if |ch.searches| == 0 then [ch] else [])
  {
    assert (chars + [ch])[..|chars|] == chars;
  }

  lemma {:induction false} CharsFoldInv(entries: seq<CharData>, st: CharsState, ctx: Context)
    requires CatalogueInv(st, ctx.existing)
    requires CharsFold(entries, st, ctx).Ok?
    ensures CatalogueInv(CharsFold(entries, st, ctx).value, ctx.existing)
    decreases |entries|
  {
    if entries != [] {
      CharStepInv(entries[0], st, ctx);
      CharsFoldInv(entries[1..], CharStep(entries[0], st, ctx).value, ctx);
    }
  }

  /** The Japanese name `get_default_lang_data` gives (lines 24-29). */
  function DefaultJa(data: CharData): string {
    if |data.familyName| > 0 then data.familyName + " " + data.personalName else data.personalName
  }

  /**
   * `c` is the character built for `data`, followed by the entries `later`,
   * against the translations `tr`: its id; the default Japanese name; the names
   * of `tr`, when no later entry has the same id to update them; the short names
   * of `tr`; the names of its portraits sorted; its groups sorted.
   */
  ghost predicate CharacterFor(c: Character, data: CharData, later: seq<CharData>, tr: map<string, CharLangData>,
                               ctx: Context) {
    && c.id == data.id
    && data.id in tr
    && "ja" in c.names && c.names["ja"] == DefaultJa(data)
    && (data.id !in EntryIds(later) ==> c.names == tr[data.id].name)
    && c.shortNames == ShortNamesOf(tr[data.id])
    && c.images == SortStrings(ImageNames(data.imageFiles, ctx))
    && SortedBy(c.images, StrLe)
    && SortedBy(c.searches, StrLe)
    && multiset(c.searches) == multiset(ResourcesV3.GroupsOf(ctx.groups, data.id))
  }

  lemma CharStepBuilds(data: CharData, st: CharsState, ctx: Context)
    requires CharStep(data, st, ctx).Ok?
    ensures var next := CharStep(data, st, ctx).value;
      && |next.chars| == |st.chars| + 1 && next.chars == st.chars + [next.chars[|st.chars|]]
      && CharacterFor(next.chars[|st.chars|], data, [], next.translations, ctx)
  {
    CharStepParts(data, st, ctx);
    var next := CharStep(data, st, ctx).value;
    var im := AddImages(data.imageFiles, Images([], st.files), ctx).value;
    AddImagesNames(data.imageFiles, Images([], st.files), ctx);
    assert im.images == [] + ImageNames(data.imageFiles, ctx);
    assert next.chars[|st.chars|] == Built(data, next.translations[data.id], im, ctx);
    BuiltFor(data, im, next.translations, ctx);
  }

  /** The character built from an entry's translation and images is the one built for that entry. */
  lemma BuiltFor(data: CharData, im: Images, tr: map<string, CharLangData>, ctx: Context)
    requires data.id in tr && "ja" in tr[data.id].name && tr[data.id].name["ja"] == DefaultJa(data)
    requires im.images == ImageNames(data.imageFiles, ctx)
    ensures CharacterFor(Built(data, tr[data.id], im, ctx), data, [], tr, ctx)
  {
    assert EntryIds([]) == {};
    StrLeIsTotalPreorder();
  }

  /**
   * A character built against the translations of its own step stays built for
   * them once the later entries have run: only their ids may be refreshed.
   */
  lemma CharacterForLater(c: Character, data: CharData, later: seq<CharData>, tr: map<string, CharLangData>,
                          tr': map<string, CharLangData>, ctx: Context)
    requires CharacterFor(c, data, [], tr, ctx)
    requires TranslationsInv(tr', tr, EntryIds(later))
    ensures CharacterFor(c, data, later, tr', ctx)
  {
    assert Refreshed(tr[data.id], tr'[data.id]);
  }

  /** The characters after `prior` in `chars` were built, in order, from `entries` against the translations `tr`. */
  ghost predicate BuiltAfter(chars: seq<Character>, prior: seq<Character>, entries: seq<CharData>,
                             tr: map<string, CharLangData>, ctx: Context) {
    && |chars| == |prior| + |entries| && chars[..|prior|] == prior
    && forall k :: 0 <= k < |entries| ==> BuiltAt(chars, prior, entries, tr, ctx, k)
  }

  /** The character after `prior` at position `k` was built from entry `k`, followed by the rest. */
  ghost predicate BuiltAt(chars: seq<Character>, prior: seq<Character>, entries: seq<CharData>,
                          tr: map<string, CharLangData>, ctx: Context, k: int) {
    && 0 <= k < |entries| && |prior| + k < |chars|
    && CharacterFor(chars[|prior| + k], entries[k], entries[k + 1..], tr, ctx)
  }

  lemma BuiltAfterCons(chars: seq<Character>, next: seq<Character>, prior: seq<Character>,
                       entries: seq<CharData>, tr: map<string, CharLangData>, ctx: Context)
    requires entries != []
    requires |next| == |prior| + 1 && next[..|prior|] == prior
    requires CharacterFor(next[|prior|], entries[0], entries[1..], tr, ctx)
    requires BuiltAfter(chars, next, entries[1..], tr, ctx)
    ensures BuiltAfter(chars, prior, entries, tr, ctx)
  {
    assert chars[..|next|][..|prior|] == prior;
    forall k | 0 <= k < |entries| ensures BuiltAt(chars, prior, entries, tr, ctx, k) {
      if k == 0 {
        assert chars[..|next|][|prior|] == next[|prior|];
        BuiltAtFirst(chars, prior, entries, tr, ctx);
      } else {
        BuiltAtShift(chars, next, prior, entries, tr, ctx, k);
      }
    }
  }

  lemma BuiltAtFirst(chars: seq<Character>, prior: seq<Character>, entries: seq<CharData>,
                     tr: map<string, CharLangData>, ctx: Context)
    requires entries != [] && |prior| < |chars|
    requires CharacterFor(chars[|prior|], entries[0], entries[1..], tr, ctx)
    ensures BuiltAt(chars, prior, entries, tr, ctx, 0)
  {
    assert chars[|prior| + 0] == chars[|prior|] && entries[0 + 1..] == entries[1..];
  }

  lemma BuiltAtShift(chars: seq<Character>, next: seq<Character>, prior: seq<Character>, entries: seq<CharData>,
                     tr: map<string, CharLangData>, ctx: Context, k: int)
    requires |next| == |prior| + 1 && 0 < k < |entries|
    requires BuiltAt(chars, next, entries[1..], tr, ctx, k - 1)
    ensures BuiltAt(chars, prior, entries, tr, ctx, k)
  {
    var j := k - 1;
    assert chars[|next| + j] == chars[|prior| + k];
    assert entries[1..][j] == entries[k] && entries[1..][j + 1..] == entries[k + 1..];
  }

  lemma {:induction false} CharsFoldBuiltFrom(entries: seq<CharData>, st: CharsState, ctx: Context)
    requires CharsFold(entries, st, ctx).Ok?
    ensures var r := CharsFold(entries, st, ctx).value;
      BuiltAfter(r.chars, st.chars, entries, r.translations, ctx)
    decreases |entries|
  {
    if entries != [] {
      CharStepBuilds(entries[0], st, ctx);
      var next := CharStep(entries[0], st, ctx).value;
      var r := CharsFold(entries[1..], next, ctx).value;
      CharsFoldBuiltFrom(entries[1..], next, ctx);
      FoldKeepsCharacter(next.chars[|st.chars|], entries[0], entries[1..], next, ctx);
      BuiltAfterCons(r.chars, next.chars, st.chars, entries, r.translations, ctx);
    }
  }

  /** A character built at one step is still built for its entry against the translations the later entries leave. */
  lemma FoldKeepsCharacter(c: Character, data: CharData, later: seq<CharData>, st: CharsState, ctx: Context)
    requires CharacterFor(c, data, [], st.translations, ctx)
    requires CharsFold(later, st, ctx).Ok?
    ensures CharacterFor(c, data, later, CharsFold(later, st, ctx).value.translations, ctx)
  {
    FoldRefreshes(later, st, ctx);
    CharacterForLater(c, data, later, st.translations, CharsFold(later, st, ctx).value.translations, ctx);
  }

  /** A run refreshes only the translations of its entries' ids. */
  lemma FoldRefreshes(entries: seq<CharData>, st: CharsState, ctx: Context)
    requires CharsFold(entries, st, ctx).Ok?
    ensures TranslationsInv(CharsFold(entries, st, ctx).value.translations, st.translations, EntryIds(entries))
  {
    assert TranslationsInv(st.translations, st.translations, {});
    CharsFoldTranslations(entries, st, ctx, st.translations, {});
    assert {} + EntryIds(entries) == EntryIds(entries);
  }

  lemma CharsFoldCons(entries: seq<CharData>, st: CharsState, ctx: Context)
    requires entries != []
    requires CharsFold(entries, st, ctx).Ok?
    ensures CharStep(entries[0], st, ctx).Ok?
    ensures CharsFold(entries, st, ctx) == CharsFold(entries[1..], CharStep(entries[0], st, ctx).value, ctx)
  {
  }

  /** A stored translation keeps its id, short names and every language but Japanese and English. */
  ghost predicate Refreshed(old_: CharLangData, new_: CharLangData) {
    && new_.id == old_.id && new_.shortName == old_.shortName
    && forall l :: l in old_.name ==> l in new_.name && (l != "ja" && l != "en" ==> new_.name[l] == old_.name[l])
  }

  ghost function EntryIds(entries: seq<CharData>): set<string> {
    set i | 0 <= i < |entries| :: entries[i].id
  }

  /**
   * The translations hold the original ids and those seen, the original entries
   * only refreshed, and those of ids not seen untouched.
   */
  ghost predicate TranslationsInv(tr: map<string, CharLangData>, base: map<string, CharLangData>, seen: set<string>) {
    && tr.Keys == base.Keys + seen
    && (forall id :: id in base ==> Refreshed(base[id], tr[id]))
    && (forall id :: id in base && id !in seen ==> tr[id] == base[id])
  }

  lemma CharStepTranslations(data: CharData, st: CharsState, ctx: Context, base: map<string, CharLangData>,
                             seen: set<string>)
    requires TranslationsInv(st.translations, base, seen)
    requires CharStep(data, st, ctx).Ok?
    ensures TranslationsInv(CharStep(data, st, ctx).value.translations, base, seen + {data.id})
    ensures !CharStep(data, st, ctx).value.updated ==>
      !st.updated && CharStep(data, st, ctx).value.translations == st.translations
  {
    var default := DefaultLangData(data, ctx.roma).value;
    var upd := StepTranslation(data, st, ctx).value;
    assert CharStep(data, st, ctx).value.translations == upd.0;
    assert CharStep(data, st, ctx).value.updated == (st.updated || upd.1);
    TranslationsStep(st.translations, data.id, default, upd, base, seen);
  }

  /** One update keeps the translation invariant, with the updated id now seen. */
  lemma TranslationsStep(tr: map<string, CharLangData>, cid: string, default: CharLangData,
                         upd: (map<string, CharLangData>, bool), base: map<string, CharLangData>, seen: set<string>)
    requires "ja" in default.name && "en" in default.name
    requires UpdateTranslation(tr, cid, default) == Ok(upd)
    requires TranslationsInv(tr, base, seen)
    ensures TranslationsInv(upd.0, base, seen + {cid})
    ensures !upd.1 ==> upd.0 == tr
  {
    UpdateTranslationEffect(tr, cid, default);
    if cid in tr && !upd.1 {
      assert upd.0 == tr;
    }
  }

  lemma EntryIdsCons(entries: seq<CharData>, seen: set<string>)
    requires entries != []
    ensures EntryIds(entries) == {entries[0].id} + EntryIds(entries[1..])
    ensures seen + {entries[0].id} + EntryIds(entries[1..]) == seen + EntryIds(entries)
  {
    forall x | x in EntryIds(entries) ensures x in {entries[0].id} + EntryIds(entries[1..]) {
      var i :| 0 <= i < |entries| && entries[i].id == x;
      if i > 0 { assert entries[1..][i - 1].id == x; }
    }
    forall x | x in EntryIds(entries[1..]) ensures x in EntryIds(entries) {
      var i :| 0 <= i < |entries[1..]| && entries[1..][i].id == x;
      assert entries[i + 1].id == x;
    }
  }

  lemma {:induction false} CharsFoldTranslations(entries: seq<CharData>, st: CharsState, ctx: Context,
                                                 base: map<string, CharLangData>, seen: set<string>)
    requires TranslationsInv(st.translations, base, seen)
    requires CharsFold(entries, st, ctx).Ok?
    ensures TranslationsInv(CharsFold(entries, st, ctx).value.translations, base, seen + EntryIds(entries))
    ensures !CharsFold(entries, st, ctx).value.updated ==>
      !st.updated && CharsFold(entries, st, ctx).value.translations == st.translations
    decreases |entries|
  {
    if entries == [] {
      assert seen + EntryIds(entries) == seen;
    } else {
      CharStepTranslations(entries[0], st, ctx, base, seen);
      CharsFoldTranslations(entries[1..], CharStep(entries[0], st, ctx).value, ctx, base, seen + {entries[0].id});
      EntryIdsCons(entries, seen);
    }
  }

  // ---------------------------------------------------------------- what get_chars promises

  function InitialState(translations: map<string, CharLangData>): CharsState {
    CharsState([], map[], translations, false, [])
  }

  /** A built catalogue is the fold's catalogue together with its report. */
  lemma GetCharsParts(entries: seq<CharData>, translations: map<string, CharLangData>, ctx: Context)
    requires GetCharsSpec(entries, translations, ctx).Ok?
    ensures CharsFold(entries, InitialState(translations), ctx).Ok?
    ensures var st := CharsFold(entries, InitialState(translations), ctx).value;
      var r := GetCharsSpec(entries, translations, ctx).value;
      && r.chars == st.chars && r.files == st.files && r.translations == st.translations && r.updated == st.updated
      && NoGroupReport(st.noGroup) == Ok(r.report)
  {
  }

  /**
   * Image names are unique across the catalogue, non-empty, exactly the keys of
   * the avatar files, and each file exists (lines 112-119).
   */
  lemma GetCharsImagesUnique(entries: seq<CharData>, translations: map<string, CharLangData>, ctx: Context)
    requires GetCharsSpec(entries, translations, ctx).Ok?
    ensures var r := GetCharsSpec(entries, translations, ctx).value;
      && (forall i, j :: 0 <= i < j < |AllImages(r.chars)| ==> AllImages(r.chars)[i] != AllImages(r.chars)[j])
      && (forall n :: n in AllImages(r.chars) <==> n in r.files)
      && (forall n :: n in r.files ==> |n| > 0 && r.files[n] in ctx.existing)
  {
    GetCharsParts(entries, translations, ctx);
    var st0 := InitialState(translations);
    assert CatalogueInv(st0, ctx.existing);
    CharsFoldInv(entries, st0, ctx);
    var r := GetCharsSpec(entries, translations, ctx).value;
    assert AllImages(r.chars) + [] == AllImages(r.chars);
    ResourcesV3.DistinctFromSet(AllImages(r.chars), r.files.Keys);
    assert forall n :: n in AllImages(r.chars) <==> n in multiset(r.files.Keys);
  }

  /**
   * The catalogue has one character per entry, in entry order: its id, its
   * default Japanese name, the stored names (unless a later entry of the same id
   * refreshed them) and short names, the names of its portraits sorted and the
   * sorted ids of its groups.
   */
  lemma GetCharsCatalogue(entries: seq<CharData>, translations: map<string, CharLangData>, ctx: Context, k: nat)
    requires GetCharsSpec(entries, translations, ctx).Ok?
    requires k < |entries|
    ensures var r := GetCharsSpec(entries, translations, ctx).value;
      |r.chars| == |entries| && CharacterFor(r.chars[k], entries[k], entries[k + 1..], r.translations, ctx)
  {
    GetCharsParts(entries, translations, ctx);
    CharsFoldBuiltFrom(entries, InitialState(translations), ctx);
    var st := CharsFold(entries, InitialState(translations), ctx).value;
    assert BuiltAt(st.chars, [], entries, st.translations, ctx, k);
  }

  /**
   * The stored translations gain the ids of the entries, keep the others
   * untouched and change only Japanese and English names; when nothing is
   * flagged for writing back, they are exactly the ones read.
   */
  lemma GetCharsTranslations(entries: seq<CharData>, translations: map<string, CharLangData>, ctx: Context)
    requires GetCharsSpec(entries, translations, ctx).Ok?
    ensures var r := GetCharsSpec(entries, translations, ctx).value;
      && TranslationsInv(r.translations, translations, EntryIds(entries))
      && (!r.updated ==> r.translations == translations)
  {
    GetCharsParts(entries, translations, ctx);
    assert TranslationsInv(translations, translations, {});
    CharsFoldTranslations(entries, InitialState(translations), ctx, translations, {});
    assert {} + EntryIds(entries) == EntryIds(entries);
  }

  /** The report is written exactly when every character has a Japanese name and an image. */
  lemma {:induction false} NoGroupReportOkIff(chars: seq<Character>)
    ensures NoGroupReport(chars).Ok? <==> forall i :: 0 <= i < |chars| ==> "ja" in chars[i].names && |chars[i].images| > 0
    decreases |chars|
  {
    if chars != [] {
      var init := chars[..|chars| - 1];
      NoGroupReportOkIff(init);
      assert forall i :: 0 <= i < |init| ==> init[i] == chars[i];
    }
  }

  /** A record that cannot be written ends the whole report with its error. */
  lemma {:induction false} NoGroupReportPrefixErr(chars: seq<Character>, k: nat)
    requires k <= |chars| && NoGroupReport(chars[..k]).Err?
    ensures NoGroupReport(chars) == NoGroupReport(chars[..k])
    decreases |chars|
  {
    if k == |chars| {
      assert chars[..k] == chars;
    } else {
      var init := chars[..|chars| - 1];
      assert init[..k] == chars[..k];
      NoGroupReportPrefixErr(init, k);
    }
  }

  /** The report on the characters with no group fails exactly when one of them has no image. */
  lemma NoGroupReportOk(chars: seq<Character>)
    requires forall c :: c in chars ==> "ja" in c.names
    ensures NoGroupReport(NoGroup(chars)).Ok? <==> forall c :: c in chars && |c.searches| == 0 ==> |c.images| > 0
  {
    var ng := NoGroup(chars);
    NoGroupReportOkIff(ng);
    assert forall i :: 0 <= i < |ng| ==> ng[i] in ng;
  }

  /** Once the loop succeeds, the report fails exactly when a character with no group has no image. */
  lemma GetCharsReport(entries: seq<CharData>, translations: map<string, CharLangData>, ctx: Context)
    requires CharsFold(entries, InitialState(translations), ctx).Ok?
    ensures var chars := CharsFold(entries, InitialState(translations), ctx).value.chars;
      GetCharsSpec(entries, translations, ctx).Ok? <==>
        forall c :: c in chars && |c.searches| == 0 ==> |c.images| > 0
  {
    var st0 := InitialState(translations);
    assert CatalogueInv(st0, ctx.existing);
    CharsFoldInv(entries, st0, ctx);
    NoGroupReportOk(CharsFold(entries, st0, ctx).value.chars);
  }

  // ---------------------------------------------------------------- get_chars as it runs

  /** The excluded portraits (lines 67-68): the lines of excluded_portraits.txt, stripped. */
  function ExcludedPortraits(lines: seq<string>): (r: set<string>)
    ensures forall l :: l in lines ==> Strip(l) in r
    ensures forall n :: n in r ==> exists l :: l in lines && Strip(l) == n
  {
    set l | l in lines :: Strip(l)
  }

  /** The image loop of one character (lines 103-119). */
  method AddImageFiles(imgs: seq<string>, im: Images, ctx: Context) returns (r: Result<Images>)
    ensures r == AddImages(imgs, im, ctx)
  {
    var images, files := im.images, im.files;
    var i := 0;
    while i < |imgs|
      invariant 0 <= i <= |imgs|
      invariant AddImages(imgs, im, ctx) == AddImages(imgs[i..], Images(images, files), ctx)
    {
      assert imgs[i..][0] == imgs[i] && imgs[i..][1..] == imgs[i + 1..];
      var img := imgs[i];
      var name := PathName(img);
      if name in ctx.excluded {
        i := i + 1;
        continue;
      }
      if name in ctx.mappings {
        name := ctx.mappings[name];
      } else {
        var j := Index(name, ResourcesV3.PortraitMarker);
        if j.Err? {
          return Err(j.error);
        }
        name := name[j.value + |ResourcesV3.PortraitMarker|..];
      }
      assert ImageName(img, ctx.excluded, ctx.mappings) == Ok(Some(name));
      if |name| == 0 {
        return Err(AssertionError("len(name) > 0"));
      }
      if name in files {
        return Err(AssertionError("Duplicate"));
      }
      var imgFile := img + ".png";
      if imgFile !in ctx.existing {
        return Err(AssertionError("img_file.exists()"));
      }
      assert AddImage(img, Images(images, files), ctx) == Ok(Images(images + [name], files[name := imgFile]));
      images := images + [name];
      files := files[name := imgFile];
      i := i + 1;
    }
    return Ok(Images(images, files));
  }

  /** One iteration of the loop over char_data.json (lines 76-124). */
  method AddCharacter(data: CharData, st: CharsState, ctx: Context) returns (r: Result<CharsState>)
    ensures r == CharStep(data, st, ctx)
  {
    var cid := data.id;
    var default := DefaultLangData(data, ctx.roma);
    if default.Err? {
      return Err(default.error);
    }
    var tr := st.translations;
    var changed := false;
    if cid !in tr {
      tr := tr[cid := default.value];
      changed := true;
    } else {
      var trans := tr[cid];
      if "ja" !in trans.name {
        return Err(KeyError("ja"));
      }
      if trans.name["ja"] != default.value.name["ja"] {
        var name := trans.name["ja" := default.value.name["ja"]];
        name := name["en" := default.value.name["en"]];
        tr := tr[cid := trans.(name := name)];
        changed := true;
      }
    }
    assert StepTranslation(data, st, ctx) == Ok((tr, changed));
    var im := AddImageFiles(data.imageFiles, Images([], st.files), ctx);
    if im.Err? {
      return Err(im.error);
    }
    var ch := Character(cid, tr[cid].name, ShortNamesOf(tr[cid]), SortStrings(im.value.images),
                        SortStrings(ResourcesV3.GroupsOf(ctx.groups, cid)));
    var noGroup := st.noGroup;
    if |ch.searches| == 0 {
      noGroup := noGroup + [ch];
    }
    return Ok(CharsState(st.chars + [ch], im.value.files, tr, st.updated || changed, noGroup));
  }

  /** How the fold continues after its first entry. */
  lemma CharsFoldStep(entries: seq<CharData>, st: CharsState, ctx: Context)
    requires entries != []
    ensures var step := CharStep(entries[0], st, ctx);
      CharsFold(entries, st, ctx) == if step.Err? then Err(step.error) else CharsFold(entries[1..], step.value, ctx)
  {
  }

  /** Writing nogroup.generated.txt (lines 131-133), one record per character. */
  method WriteNoGroup(chars: seq<Character>) returns (r: Result<string>)
    ensures r == NoGroupReport(chars)
  {
    var text := "";
    var i := 0;
    while i < |chars|
      invariant 0 <= i <= |chars|
      invariant NoGroupReport(chars[..i]) == Ok(text)
    {
      var c := chars[i];
      assert chars[..i + 1][..i] == chars[..i] && chars[..i + 1][i] == c;
      if "ja" !in c.names {
        NoGroupReportPrefixErr(chars, i + 1);
        return Err(KeyError("ja"));
      }
      if |c.images| == 0 {
        NoGroupReportPrefixErr(chars, i + 1);
        return Err(IndexError("char.images[0]"));
      }
      text := text + (c.id + "\n  " + c.names["ja"] + "\n  " + c.images[0] + "\n\n");
      i := i + 1;
    }
    assert chars[..i] == chars;
    return Ok(text);
  }

  /**
   * `get_chars` (lines 54-135) over the loaded files: clubs and schools are the
   * two group files, `mappingEntries` the entries of img_mappings.json and
   * `excludedLines` the lines of excluded_portraits.txt.
   */
  method GetChars(entries: seq<CharData>, clubs: seq<GroupData>, schools: seq<GroupData>,
                  translations: map<string, CharLangData>, excludedLines: seq<string>,
                  mappingEntries: seq<(string, string)>, existing: set<string>, roma: Romanizer)
    returns (r: Result<Catalogue>)
    ensures r == GetCharsSpec(entries, translations, Context(clubs + schools, ExcludedPortraits(excludedLines),
                                                             LegacyImageMappings(mappingEntries), existing, roma))
  {
    var ctx := Context(clubs + schools, ExcludedPortraits(excludedLines), LegacyImageMappings(mappingEntries),
                       existing, roma);
    var st0 := InitialState(translations);
    var st := st0;
    var i := 0;
    while i < |entries|
      invariant 0 <= i <= |entries|
      invariant CharsFold(entries, st0, ctx) == CharsFold(entries[i..], st, ctx)
    {
      assert entries[i..][0] == entries[i] && entries[i..][1..] == entries[i + 1..];
      CharsFoldStep(entries[i..], st, ctx);
      var next := AddCharacter(entries[i], st, ctx);
      if next.Err? {
        return Err(next.error);
      }
      st := next.value;
      i := i + 1;
    }
    assert entries[i..] == [];
    var report := WriteNoGroup(st.noGroup);
    if report.Err? {
      return Err(report.error);
    }
    return Ok(Catalogue(st.chars, st.files, st.translations, st.updated, report.value));
  }

  // ---------------------------------------------------------------- stamps

  /** `get_stamps` (lines 137-139): the stamp files in plain string order. */
  function GetStamps(files: seq<string>): (r: seq<string>)
    ensures multiset(r) == multiset(files)
    ensures SortedBy(r, StrLe)
  {
    SortStrings(files)
  }
}
