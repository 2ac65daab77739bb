/**
 * The current Blue Archive processor (blue_archive/get_resources_v3.py): default
 * translations for new characters, short names, image specs (`name:path` or a
 * `Portrait_` file), the catalogue with its avatar files and unused portraits,
 * the stamp order and the filter panels.
 */
module ResourcesV3 {
  import opened Results
  import opened Text
  import opened Sorting
  import opened Common
  import opened Models

  // ---------------------------------------------------------------- default translations

  /** The `_`-separated segments of an id other than "npc", in order. */
  function TitleSegments(parts: seq<string>): (r: seq<string>)
    ensures forall s :: s in r <==> s in parts && s != "npc"
    ensures |r| <= |parts|
  {
    if parts == [] then []
    else
      var rest := TitleSegments(parts[1..]);
      assert forall s :: s in parts <==> s == parts[0] || s in parts[1..];
      if parts[0] != "npc" then [parts[0]] + rest else rest
  }

  /** Every segment with its first letter upper-cased; an IndexError on an empty segment. */
  function CapitalizeEach(parts: seq<string>): (r: Result<seq<string>>)
    ensures r.Ok? <==> forall i :: 0 <= i < |parts| ==> |parts[i]| > 0
    ensures r.Ok? ==> |r.value| == |parts|
    ensures r.Ok? ==> forall i :: 0 <= i < |parts| ==> Ok(r.value[i]) == CapitalizeFirst(parts[i])
  {
    if parts == [] then Ok([])
    else
      match CapitalizeFirst(parts[0])
      case Err(e) => Err(e)
      case Ok(head) =>
        match CapitalizeEach(parts[1..])
        case Err(e) => Err(e)
        case Ok(tail) => Ok([head] + tail)
  }

  /** The English title of a family-less character (line 31): its non-"npc" id segments, capitalized, joined by spaces. */
  function TitleFromId(id: string): (r: Result<string>)
    ensures r.Ok? <==> forall s :: s in Split(id, '_') ==> |s| > 0
  {
    var parts := Split(id, '_');
    var kept := TitleSegments(parts);
    assert (forall s :: s in parts ==> |s| > 0) <==> (forall i :: 0 <= i < |kept| ==> |kept[i]| > 0) by {
      assert forall s :: s in parts && s == "npc" ==> |s| > 0;
      assert forall i :: 0 <= i < |kept| ==> kept[i] in kept;
    }
    var words :- CapitalizeEach(kept);
    Ok(Join(words, " "))
  }

  const AllDefaultLangs: set<string> := {"ja", "en", "ko", "zh-cn", "zh-tw"}

  /**
   * `get_default_lang_data` (lines 22-42): the Japanese name is "family personal"
   * when a family name exists, else the personal name; the English name is the
   * romanized family reading followed by the romanized personal reading (or the
   * id when that reading is empty), or for a family-less character the title of
   * the id; the other languages are empty and no short names are given.
   */
  function DefaultLangData(data: SimpleCharData, roma: Romanizer): (r: Result<CharLangData>)
    ensures r.Ok? <==>
      if |data.familyName| > 0 then
        |roma(data.familyNameRuby)| > 0 && (|data.personalNameRuby| > 0 ==> |roma(data.personalNameRuby)| > 0)
      else
        forall s :: s in Split(data.id, '_') ==> |s| > 0
    ensures r.Ok? ==> r.value.id == data.id && r.value.shortName.None?
    ensures r.Ok? ==> r.value.name.Keys == AllDefaultLangs
    ensures r.Ok? ==> r.value.name["ko"] == "" && r.value.name["zh-cn"] == "" && r.value.name["zh-tw"] == ""
    ensures r.Ok? && |data.familyName| > 0 ==>
      && r.value.name["ja"] == data.familyName + " " + data.personalName
      && r.value.name["en"] == NameToId(roma, data.familyNameRuby).value + " "
           + (if |data.personalNameRuby| > 0 then NameToId(roma, data.personalNameRuby).value else data.id)
    ensures r.Ok? && |data.familyName| == 0 ==>
      && r.value.name["ja"] == data.personalName
      && Ok(r.value.name["en"]) == TitleFromId(data.id)
  {
    if |data.familyName| > 0 then
      var family :- NameToId(roma, data.familyNameRuby);
      var given :- if |data.personalNameRuby| > 0 then NameToId(roma, data.personalNameRuby) else Ok(data.id);
      Ok(CharLangData(data.id, DefaultNames(data.familyName + " " + data.personalName, family + " " + given), None))
    else
      var en :- TitleFromId(data.id);
      Ok(CharLangData(data.id, DefaultNames(data.personalName, en), None))
  }

  function DefaultNames(ja: string, en: string): map<string, string> {
    map["ja" := ja, "en" := en, "ko" := "", "zh-cn" := "", "zh-tw" := ""]
  }

  lemma {:induction false} CapitalizeKeepsSpaceFree(s: string)
    requires |s| > 0 && ' ' !in s
    ensures ' ' !in CapitalizeFirst(s).value
  {
    var c := CapitalizeFirst(s).value;
    assert c == [c[0]] + s[1..];
    assert s[0] != ' ';
  }

  /** The words of an id's title are its capitalized non-"npc" segments, when the id has no space. */
  lemma TitleWords(id: string)
    requires ' ' !in id
    requires TitleFromId(id).Ok?
    requires |TitleSegments(Split(id, '_'))| > 0
    ensures Split(TitleFromId(id).value, ' ') == CapitalizeEach(TitleSegments(Split(id, '_'))).value
  {
    var parts := Split(id, '_');
    var kept := TitleSegments(parts);
    var words := CapitalizeEach(kept).value;
    forall i | 0 <= i < |kept| ensures ' ' !in kept[i] {
      assert kept[i] in parts;
      SegmentOfSplit(id, '_', kept[i]);
    }
    forall i | 0 <= i < |words| ensures ' ' !in words[i] {
      CapitalizeKeepsSpaceFree(kept[i]);
    }
    SplitJoin(words, ' ');
  }

  /** A piece of a split is a substring, so it lacks every character the whole string lacks. */
  lemma {:induction false} SegmentOfSplit(s: string, sep: char, piece: string)
    requires piece in Split(s, sep)
    ensures forall c :: c in piece ==> c in s
    decreases |s|
  {
    if |s| > 0 {
      var rest := Split(s[1..], sep);
      if s[0] == sep {
        if piece != "" {
          assert piece in rest;
          SegmentOfSplit(s[1..], sep, piece);
        }
      } else if piece == [s[0]] + rest[0] {
        SegmentOfSplit(s[1..], sep, rest[0]);
      } else {
        assert piece in rest;
        SegmentOfSplit(s[1..], sep, piece);
      }
    }
  }

  // ---------------------------------------------------------------- short names

  /** The manual short names of a translation: none when the entry has no `short_name`. */
  function ManualShortNames(trans: CharLangData): map<string, string> {
    match trans.shortName
    case Some(m) => m
    case None => map[]
  }

  /** A language keeps its manual short name only when that name is present and non-empty. */
  predicate KeepsManual(short: map<string, string>, lang: string) {
    lang in short && |short[lang]| > 0
  }

  /**
   * The short names (lines 79-82): for each language of `langs`, a missing or
   * empty short name becomes the last space-separated word of the full name; a
   * KeyError when that language has no full name.
   */
  function ShortNames(short: map<string, string>, names: map<string, string>, langs: seq<string>)
    : Result<map<string, string>>
    decreases |langs|
  {
    if langs == [] then Ok(short)
    else
      var next :- ShortNameStep(short, names, langs[0]);
      ShortNames(next, names, langs[1..])
  }

  /** One language of the short-name loop. */
  function ShortNameStep(short: map<string, string>, names: map<string, string>, lang: string)
    : Result<map<string, string>>
  {
    if KeepsManual(short, lang) then Ok(short)
    else
      var full :- Lookup(names, lang, lang);
      Ok(short[lang := LastSegment(full, ' ')])
  }

  /** The short names are found exactly when every language keeps its manual name or has a full name. */
  lemma {:induction false} ShortNamesOk(short: map<string, string>, names: map<string, string>, langs: seq<string>)
    ensures ShortNames(short, names, langs).Ok? <==>
      forall i :: 0 <= i < |langs| ==> KeepsManual(short, langs[i]) || langs[i] in names
    decreases |langs|
  {
    if langs != [] {
      var step := ShortNameStep(short, names, langs[0]);
      if step.Ok? {
        ShortNamesOk(step.value, names, langs[1..]);
        ShortNamesCons(short, step.value, names, langs);
      }
    }
  }

  /** The short names found are the manual ones plus one per language. */
  lemma {:induction false} ShortNamesKeys(short: map<string, string>, names: map<string, string>, langs: seq<string>)
    requires ShortNames(short, names, langs).Ok?
    ensures ShortNames(short, names, langs).value.Keys == short.Keys + set l | l in langs
    decreases |langs|
  {
    if langs != [] {
      var next := ShortNameStep(short, names, langs[0]).value;
      ShortNamesKeys(next, names, langs[1..]);
      assert forall l :: l in langs <==> l == langs[0] || l in langs[1..];
    }
  }

  /**
   * A language keeps its manual short name when present and non-empty; otherwise
   * its short name is the last space-separated word of its full name.
   */
  lemma {:induction false} ShortNamesValues(short: map<string, string>, names: map<string, string>,
                                            langs: seq<string>)
    requires ShortNames(short, names, langs).Ok?
    ensures var r := ShortNames(short, names, langs).value;
      forall l :: l in r ==>
        if KeepsManual(short, l) || l !in langs then l in short && r[l] == short[l]
        else l in names && r[l] == LastSegment(names[l], ' ')
    decreases |langs|
  {
    if langs != [] {
      var lang := langs[0];
      var next := ShortNameStep(short, names, lang).value;
      ShortNamesValues(next, names, langs[1..]);
      assert forall l :: l in langs <==> l == lang || l in langs[1..];
      assert forall l :: l != lang ==> (KeepsManual(next, l) <==> KeepsManual(short, l));
    }
  }

  lemma ShortNamesCons(short: map<string, string>, next: map<string, string>, names: map<string, string>,
                       langs: seq<string>)
    requires |langs| > 0
    requires KeepsManual(short, langs[0]) ==> next == short
    requires !KeepsManual(short, langs[0]) ==>
      langs[0] in names && next == short[langs[0] := LastSegment(names[langs[0]], ' ')]
    ensures (forall i :: 0 <= i < |langs| ==> KeepsManual(short, langs[i]) || langs[i] in names) <==>
      (forall i :: 0 <= i < |langs[1..]| ==> KeepsManual(next, langs[1..][i]) || langs[1..][i] in names)
  {
    if forall i :: 0 <= i < |langs[1..]| ==> KeepsManual(next, langs[1..][i]) || langs[1..][i] in names {
      forall i | 0 <= i < |langs| ensures KeepsManual(short, langs[i]) || langs[i] in names {
        if i > 0 {
          assert langs[i] == langs[1..][i - 1];
        }
      }
    }
    if forall i :: 0 <= i < |langs| ==> KeepsManual(short, langs[i]) || langs[i] in names {
      forall i | 0 <= i < |langs[1..]| ensures KeepsManual(next, langs[1..][i]) || langs[1..][i] in names {
        assert langs[1..][i] == langs[i + 1];
      }
    }
  }

  /**
   * A new family-less character whose id has no space and some non-"npc"
   * segment gets, for English, the short name of its last such segment capitalized.
   */
  lemma DefaultEnglishShortName(data: SimpleCharData, roma: Romanizer, langs: seq<string>)
    requires |data.familyName| == 0 && ' ' !in data.id
    requires |TitleSegments(Split(data.id, '_'))| > 0
    requires DefaultLangData(data, roma).Ok?
    requires "en" in langs
    requires ShortNames(map[], DefaultLangData(data, roma).value.name, langs).Ok?
    ensures var words := CapitalizeEach(TitleSegments(Split(data.id, '_'))).value;
      var short := ShortNames(map[], DefaultLangData(data, roma).value.name, langs).value;
      "en" in short && short["en"] == words[|words| - 1]
  {
    var d := DefaultLangData(data, roma).value;
    assert TitleFromId(data.id) == Ok(d.name["en"]);
    EnglishShortName(d.name, langs);
    TitleWords(data.id);
  }

  /** Without manual short names, the English short name is the last word of the English name. */
  lemma EnglishShortName(names: map<string, string>, langs: seq<string>)
    requires "en" in langs && "en" in names
    requires ShortNames(map[], names, langs).Ok?
    ensures var short := ShortNames(map[], names, langs).value;
      "en" in short && short["en"] == LastSegment(names["en"], ' ')
  {
    ShortNamesKeys(map[], names, langs);
    ShortNamesValues(map[], names, langs);
  }

  // ---------------------------------------------------------------- image specs

  /** A parsed image spec: the image name and the resource path without extension. */
  datatype ImageSpec = ImageSpec(name: string, path: string)

  const PortraitMarker: string := "Portrait_"

  /** The first "Portrait_" of `name` starts at `j`. */
  predicate FirstMarker(name: string, j: nat) {
    && OccursAt(name, PortraitMarker, j)
    && forall i :: 0 <= i < j ==> !OccursAt(name, PortraitMarker, i)
  }

  /**
   * An entry of `image_files` (lines 94-98): `name:path` splits at the colon, a
   * ValueError unless there is exactly one; otherwise the path is the entry and
   * the name is what follows the first "Portrait_" in its file name, a ValueError
   * when there is none.
   */
  function ParseImageSpec(spec: string): (r: Result<ImageSpec>)
    ensures ':' in spec ==> (r.Ok? <==> |Split(spec, ':')| == 2)
    ensures ':' in spec && r.Ok? ==>
      spec == r.value.name + ":" + r.value.path && ':' !in r.value.name && ':' !in r.value.path
    ensures ':' !in spec ==> (r.Ok? <==> exists j :: 0 <= j <= |PathName(spec)| && OccursAt(PathName(spec), PortraitMarker, j))
    ensures ':' !in spec && r.Ok? ==>
      && r.value.path == spec
      && exists j: nat :: FirstMarker(PathName(spec), j) && r.value.name == PathName(spec)[j + |PortraitMarker|..]
  {
    if ':' in spec then
      var parts := Split(spec, ':');
      if |parts| != 2 then Err(ValueError("unpack"))
      else
        JoinSplit(spec, ':');
        Ok(ImageSpec(parts[0], parts[1]))
    else
      var name := PathName(spec);
      var i :- Index(name, PortraitMarker);
      assert FirstMarker(name, i);
      Ok(ImageSpec(name[i + |PortraitMarker|..], spec))
  }

  /** Writing a name and a path as `name:path` and parsing it back recovers both, when neither has a colon. */
  lemma ImageSpecRoundTrip(name: string, path: string)
    requires ':' !in name && ':' !in path
    ensures ParseImageSpec(name + ":" + path) == Ok(ImageSpec(name, path))
  {
    var spec := name + ":" + path;
    assert spec[|name|] == ':';
    assert Join([name, path], [':']) == spec;
    SplitJoin([name, path], ':');
  }

  // ---------------------------------------------------------------- avatar files

  /** This portrait is never reported unused; a KeyError when it is not among the portraits. */
  const SerikaPortrait: string := "Student_Portrait_Serika_Shibasek"

  /** A portrait file is a candidate for the unused report unless its stripped stem ends with "_Small". */
  predicate UnusedCandidate(file: string) {
    !EndsWith(Strip(PathStem(file)), "_Small")
  }

  /**
   * The initial unused set (lines 52-53): the stems of the portrait files that
   * are candidates, without Serika's portrait, which must be among them.
   */
  function InitialUnused(charFiles: seq<string>): (r: Result<set<string>>)
    ensures r.Ok? <==> exists f :: f in charFiles && UnusedCandidate(f) && PathStem(f) == SerikaPortrait
    ensures r.Ok? ==> forall x :: x in r.value <==>
      x != SerikaPortrait && exists f :: f in charFiles && UnusedCandidate(f) && PathStem(f) == x
  {
    var stems := set f | f in charFiles && UnusedCandidate(f) :: PathStem(f);
    if SerikaPortrait !in stems then Err(KeyError(SerikaPortrait)) else Ok(stems - {SerikaPortrait})
  }

  /** The images of the character being built, and the catalogue-wide avatar files and unused stems. */
  datatype Avatars = Avatars(images: seq<string>, files: map<string, string>, unused: set<string>)

  /**
   * One entry of `image_files` (lines 94-110): the name must be non-empty and
   * new to the catalogue and `path.png` must exist, each an AssertionError;
   * then the name is appended, its file recorded and the file's stem no longer
   * counts as unused.
   */
  function AddImage(spec: string, av: Avatars, existing: set<string>): (r: Result<Avatars>)
    ensures r.Ok? <==>
      && ParseImageSpec(spec).Ok?
      && |ParseImageSpec(spec).value.name| > 0
      && ParseImageSpec(spec).value.name !in av.files
      && ParseImageSpec(spec).value.path + ".png" in existing
    ensures r.Ok? ==>
      var s := ParseImageSpec(spec).value;
      r.value == Avatars(av.images + [s.name], av.files[s.name := s.path + ".png"],
                         av.unused - {PathStem(s.path + ".png")})
  {
    var s :- ParseImageSpec(spec);
    if |s.name| == 0 then Err(AssertionError("len(name) > 0"))
    else if s.name in av.files then Err(AssertionError("Duplicate"))
    else if s.path + ".png" !in existing then Err(AssertionError("img_file.exists()"))
    else Ok(Avatars(av.images + [s.name], av.files[s.name := s.path + ".png"],
                    av.unused - {PathStem(s.path + ".png")}))
  }

  /** All image specs of one character, in order; the first failure ends it. */
  function AddImages(specs: seq<string>, av: Avatars, existing: set<string>): Result<Avatars>
    decreases |specs|
  {
    if specs == [] then Ok(av)
    else
      var next :- AddImage(specs[0], av, existing);
      AddImages(specs[1..], next, existing)
  }

  /** The names the image specs give, in order (a spec that does not parse gives none). */
  function SpecNames(specs: seq<string>): seq<string> {
    if specs == [] then []
    else
      var s := ParseImageSpec(specs[0]);
      (if s.Ok? then [s.value.name] else []) + SpecNames(specs[1..])
  }

  /** The images a successful run over the specs appends are exactly their names, one per spec, in order. */
  lemma {:induction false} AddImagesNames(specs: seq<string>, av: Avatars, existing: set<string>)
    requires AddImages(specs, av, existing).Ok?
    ensures AddImages(specs, av, existing).value.images == av.images + SpecNames(specs)
    ensures |SpecNames(specs)| == |specs|
    decreases |specs|
  {
    if specs != [] {
      var step := AddImage(specs[0], av, existing);
      assert step.Ok?;
      var name := ParseImageSpec(specs[0]).value.name;
      assert step.value.images == av.images + [name];
      assert SpecNames(specs) == [name] + SpecNames(specs[1..]);
      AddImagesNames(specs[1..], step.value, existing);
      AppendAssoc(av.images, [name], SpecNames(specs[1..]));
    }
  }

  /** The stems of the recorded avatar files. */
  ghost function Stems(files: map<string, string>): set<string> {
    set n | n in files :: PathStem(files[n])
  }

  /**
   * What the image loop keeps true: the names taken so far (`prior`, then this
   * character's) are exactly the avatar keys, each once; every name is non-empty
   * and its file exists; the unused stems are the initial ones minus the stems
   * of the recorded files.
   */
  ghost predicate AvatarsInv(prior: seq<string>, av: Avatars, unused0: set<string>, existing: set<string>) {
    && multiset(prior + av.images) == multiset(av.files.Keys)
    && (forall n :: n in av.files ==> |n| > 0 && av.files[n] in existing)
    && av.unused == unused0 - Stems(av.files)
  }

  lemma AddImageInv(spec: string, prior: seq<string>, av: Avatars, unused0: set<string>, existing: set<string>)
    requires AvatarsInv(prior, av, unused0, existing)
    requires AddImage(spec, av, existing).Ok?
    ensures AvatarsInv(prior, AddImage(spec, av, existing).value, unused0, existing)
  {
    var s := ParseImageSpec(spec).value;
    AddNameInv(s.name, s.path + ".png", prior, av, unused0, existing);
  }

  /** Recording a new, non-empty name with an existing file keeps the invariant. */
  lemma AddNameInv(name: string, file: string, prior: seq<string>, av: Avatars, unused0: set<string>,
                   existing: set<string>)
    requires AvatarsInv(prior, av, unused0, existing)
    requires |name| > 0 && name !in av.files && file in existing
    ensures AvatarsInv(prior, Avatars(av.images + [name], av.files[name := file], av.unused - {PathStem(file)}),
                       unused0, existing)
  {
    var next := Avatars(av.images + [name], av.files[name := file], av.unused - {PathStem(file)});
    AddKeyMultiset(av.files, name, file);
    AppendAssoc(prior, av.images, [name]);
    assert multiset(prior + next.images) == multiset(next.files.Keys);
    assert forall n :: n in next.files ==> |n| > 0 && next.files[n] in existing;
    AddKeyStems(av.files, name, file);
    assert next.unused == unused0 - Stems(next.files);
  }

  lemma AddKeyMultiset(files: map<string, string>, name: string, file: string)
    requires name !in files
    ensures multiset(files[name := file].Keys) == multiset(files.Keys) + multiset{name}
  {
    assert files[name := file].Keys == files.Keys + {name};
  }

  lemma AddKeyStems(files: map<string, string>, name: string, file: string)
    requires name !in files
    ensures Stems(files[name := file]) == Stems(files) + {PathStem(file)}
  {
    var next := files[name := file];
    assert next[name] == file;
    forall x | x in Stems(files) ensures x in Stems(next) {
      var n :| n in files && PathStem(files[n]) == x;
      assert next[n] == files[n];
    }
  }

  lemma {:induction false} AddImagesInv(specs: seq<string>, prior: seq<string>, av: Avatars,
                                        unused0: set<string>, existing: set<string>)
    requires AvatarsInv(prior, av, unused0, existing)
    requires AddImages(specs, av, existing).Ok?
    ensures AvatarsInv(prior, AddImages(specs, av, existing).value, unused0, existing)
    decreases |specs|
  {
    if specs != [] {
      AddImageInv(specs[0], prior, av, unused0, existing);
      AddImagesInv(specs[1..], prior, AddImage(specs[0], av, existing).value, unused0, existing);
    }
  }

  /** A sequence whose multiset is that of a set holds each element once. */
  lemma DistinctFromSet(s: seq<string>, keys: set<string>)
    requires multiset(s) == multiset(keys)
    ensures forall i, j :: 0 <= i < j < |s| ==> s[i] != s[j]
  {
    forall i, j | 0 <= i < j < |s| ensures s[i] != s[j] {
      assert s == s[..i] + [s[i]] + s[i + 1..j] + [s[j]] + s[j + 1..];
      assert multiset(keys)[s[i]] <= 1;
    }
  }

  // ---------------------------------------------------------------- the catalogue

  /** `[gp.id for gp in groups if cid in gp.members]`: the groups listing the character, in group order. */
  function GroupsOf(groups: seq<GroupData>, cid: string): (r: seq<string>)
    ensures forall x :: x in r <==> exists g :: g in groups && g.id == x && cid in g.members
  {
    if groups == [] then []
    else
      var rest := GroupsOf(groups[1..], cid);
      assert forall g :: g in groups <==> g == groups[0] || g in groups[1..];
      if cid in groups[0].members then [groups[0].id] + rest else rest
  }

  /** The inputs every character shares: clubs and schools, the languages, the resource files, the romanizer. */
  datatype CharsContext = CharsContext(
    groups: seq<GroupData>,
    allLangs: seq<string>,
    existing: set<string>,
    roma: Romanizer)

  /** The catalogue so far, the avatar files, the unused stems, the translations and whether they changed. */
  datatype CharsState = CharsState(
    chars: seq<Character>,
    files: map<string, string>,
    unused: set<string>,
    translations: map<string, CharLangData>,
    updated: bool)

  /**
   * One entry of chars.yaml (lines 71-113): a missing translation is replaced
   * by the default and marks the translations updated; the character gets the
   * translation's names, the filled short names, its sorted images and the
   * sorted ids of its groups.
   */
  function CharStep(cid: string, data: SimpleCharData, st: CharsState, ctx: CharsContext): Result<CharsState> {
    var trans :- if cid in st.translations then Ok(st.translations[cid]) else DefaultLangData(data, ctx.roma);
    var short :- ShortNames(ManualShortNames(trans), trans.name, ctx.allLangs);
    var av :- AddImages(data.imageFiles, Avatars([], st.files, st.unused), ctx.existing);
    var ch := Character(cid, trans.name, short, SortStrings(av.images), SortStrings(GroupsOf(ctx.groups, cid)));
    Ok(CharsState(st.chars + [ch], av.files, av.unused, st.translations[cid := trans],
                  st.updated || cid !in st.translations))
  }

  /** The entries of chars.yaml in order; the first failure ends the run. */
  function CharsFold(entries: seq<(string, SimpleCharData)>, st: CharsState, ctx: CharsContext): Result<CharsState>
    decreases |entries|
  {
    if entries == [] then Ok(st)
    else
      var next :- CharStep(entries[0].0, entries[0].1, st, ctx);
      CharsFold(entries[1..], next, ctx)
  }

  /** Characters compare by their lower-cased id. */
  function ByLowerId(): (Character, Character) -> bool {
    ByKey((c: Character) => Lower(c.id))
  }

  /** `get_chars` (lines 49-136): the unused set, the loop over chars.yaml, then the sort by lower-cased id. */
  function GetCharsSpec(entries: seq<(string, SimpleCharData)>, translations: map<string, CharLangData>,
                        charFiles: seq<string>, ctx: CharsContext): Result<CharsState>
  {
    var unused0 :- InitialUnused(charFiles);
    var st :- CharsFold(entries, CharsState([], map[], unused0, translations, false), ctx);
    Ok(st.(chars := SortBy(st.chars, ByLowerId())))
  }

  // ---------------------------------------------------------------- what the catalogue loop keeps

  /** `tr` still holds every entry of `base` unchanged. */
  ghost predicate Extends(tr: map<string, CharLangData>, base: map<string, CharLangData>) {
    forall id :: id in base ==> id in tr && tr[id] == base[id]
  }

  /**
   * The catalogue invariant: the image names of all characters are the avatar
   * keys, each once, non-empty and backed by an existing file; the unused stems
   * are the initial ones minus those of the avatar files; no earlier translation
   * changed.
   */
  ghost predicate CatalogueInv(st: CharsState, unused0: set<string>, base: map<string, CharLangData>,
                               existing: set<string>) {
    && AvatarsInv(AllImages(st.chars), Avatars([], st.files, st.unused), unused0, existing)
    && Extends(st.translations, base)
  }

  /**
   * `c` is the character built for the entry `cid`, `data`: its translation's
   * names and short names, the names of the entry's image specs sorted, and its
   * groups sorted.
   */
  ghost predicate CharacterFor(c: Character, cid: string, data: SimpleCharData, tr: map<string, CharLangData>,
                               ctx: CharsContext) {
    && c.id == cid
    && cid in tr
    && c.names == tr[cid].name
    && ShortNames(ManualShortNames(tr[cid]), tr[cid].name, ctx.allLangs) == Ok(c.shortNames)
    && c.images == SortStrings(SpecNames(data.imageFiles))
    && SortedBy(c.images, StrLe)
    && SortedBy(c.searches, StrLe)
    && multiset(c.searches) == multiset(GroupsOf(ctx.groups, cid))
  }

  /** The parts a successful step is made of. */
  lemma CharStepParts(cid: string, data: SimpleCharData, st: CharsState, ctx: CharsContext)
    requires CharStep(cid, data, st, ctx).Ok?
    ensures var trans := if cid in st.translations then st.translations[cid] else DefaultLangData(data, ctx.roma).value;
      && (cid !in st.translations ==> DefaultLangData(data, ctx.roma).Ok?)
      && ShortNames(ManualShortNames(trans), trans.name, ctx.allLangs).Ok?
      && AddImages(data.imageFiles, Avatars([], st.files, st.unused), ctx.existing).Ok?
      && var short := ShortNames(ManualShortNames(trans), trans.name, ctx.allLangs).value;
         var av := AddImages(data.imageFiles, Avatars([], st.files, st.unused), ctx.existing).value;
         CharStep(cid, data, st, ctx).value == CharsState(
           st.chars + [Character(cid, trans.name, short, SortStrings(av.images), SortStrings(GroupsOf(ctx.groups, cid)))],
           av.files, av.unused, st.translations[cid := trans], st.updated || cid !in st.translations)
  {
  }

  lemma CharStepInv(cid: string, data: SimpleCharData, st: CharsState, ctx: CharsContext,
                    unused0: set<string>, base: map<string, CharLangData>)
    requires CatalogueInv(st, unused0, base, ctx.existing)
    requires CharStep(cid, data, st, ctx).Ok?
    ensures CatalogueInv(CharStep(cid, data, st, ctx).value, unused0, base, ctx.existing)
  {
    CharStepParts(cid, data, st, ctx);
    var next := CharStep(cid, data, st, ctx).value;
    var trans := if cid in st.translations then st.translations[cid] else DefaultLangData(data, ctx.roma).value;
    var av0 := Avatars([], st.files, st.unused);
    var av := AddImages(data.imageFiles, av0, ctx.existing).value;
    var ch := Character(cid, trans.name, ShortNames(ManualShortNames(trans), trans.name, ctx.allLangs).value,
                        SortStrings(av.images), SortStrings(GroupsOf(ctx.groups, cid)));
    assert next.chars == st.chars + [ch];
    StepAvatars(st.chars, ch, av0, av, data.imageFiles, unused0, ctx.existing);
  }

  lemma CharStepBuilds(cid: string, data: SimpleCharData, st: CharsState, ctx: CharsContext)
    requires CharStep(cid, data, st, ctx).Ok?
    ensures Extends(CharStep(cid, data, st, ctx).value.translations, st.translations)
    ensures var next := CharStep(cid, data, st, ctx).value;
      && |next.chars| == |st.chars| + 1
      && next.chars[..|st.chars|] == st.chars
      && CharacterFor(next.chars[|st.chars|], cid, data, next.translations, ctx)
  {
    CharStepParts(cid, data, st, ctx);
    var next := CharStep(cid, data, st, ctx).value;
    var trans := if cid in st.translations then st.translations[cid] else DefaultLangData(data, ctx.roma).value;
    var short := ShortNames(ManualShortNames(trans), trans.name, ctx.allLangs).value;
    var av := AddImages(data.imageFiles, Avatars([], st.files, st.unused), ctx.existing).value;
    var ch := Character(cid, trans.name, short, SortStrings(av.images), SortStrings(GroupsOf(ctx.groups, cid)));
    assert next.chars == st.chars + [ch];
    assert next.translations == st.translations[cid := trans];
    assert (st.chars + [ch])[..|st.chars|] == st.chars;
    assert next.chars[|st.chars|] == ch;
    assert next.translations[cid] == trans;
    AddImagesNames(data.imageFiles, Avatars([], st.files, st.unused), ctx.existing);
    assert av.images == [] + SpecNames(data.imageFiles);
    BuiltCharacter(cid, data, trans, short, av.images, next.translations, ctx);
  }

  lemma BuiltCharacter(cid: string, data: SimpleCharData, trans: CharLangData, short: map<string, string>,
                       images: seq<string>, tr: map<string, CharLangData>, ctx: CharsContext)
    requires cid in tr && tr[cid] == trans
    requires images == SpecNames(data.imageFiles)
    requires ShortNames(ManualShortNames(trans), trans.name, ctx.allLangs) == Ok(short)
    ensures CharacterFor(Character(cid, trans.name, short, SortStrings(images), SortStrings(GroupsOf(ctx.groups, cid))),
                         cid, data, tr, ctx)
  {
    StrLeIsTotalPreorder();
  }

  lemma StepAvatars(chars: seq<Character>, ch: Character, av0: Avatars, av: Avatars, specs: seq<string>,
                    unused0: set<string>, existing: set<string>)
    requires av0.images == []
    requires AvatarsInv(AllImages(chars), av0, unused0, existing)
    requires AddImages(specs, av0, existing) == Ok(av)
    requires multiset(ch.images) == multiset(av.images)
    ensures AvatarsInv(AllImages(chars + [ch]), Avatars([], av.files, av.unused), unused0, existing)
  {
    var prior := AllImages(chars);
    assert prior + av0.images == prior;
    AddImagesInv(specs, prior, av0, unused0, existing);
    AllImagesAppend(chars, [ch]);
    assert AllImages([ch]) == ch.images;
    calc {
      multiset(AllImages(chars + [ch]));
      multiset(prior) + multiset(ch.images);
      multiset(prior + av.images);
    }
    AvatarsInvClose(AllImages(chars + [ch]), prior, av, unused0, existing);
  }

  /** Images of a finished character move into the prior ones without changing the invariant. */
  lemma AvatarsInvClose(prior': seq<string>, prior: seq<string>, av: Avatars, unused0: set<string>,
                        existing: set<string>)
    requires AvatarsInv(prior, av, unused0, existing)
    requires multiset(prior') == multiset(prior + av.images)
    ensures AvatarsInv(prior', Avatars([], av.files, av.unused), unused0, existing)
  {
    assert prior' + [] == prior';
  }

  /** Later steps keep a character built for an earlier translation, since translations only grow. */
  lemma CharacterForExtends(c: Character, cid: string, data: SimpleCharData, tr: map<string, CharLangData>,
                            tr': map<string, CharLangData>, ctx: CharsContext)
    requires CharacterFor(c, cid, data, tr, ctx)
    requires Extends(tr', tr)
    ensures CharacterFor(c, cid, data, tr', ctx)
  {
  }

  /** A run that succeeds succeeds on its first step and then on the rest. */
  lemma CharsFoldCons(entries: seq<(string, SimpleCharData)>, st: CharsState, ctx: CharsContext)
    requires entries != []
    requires CharsFold(entries, st, ctx).Ok?
    ensures CharStep(entries[0].0, entries[0].1, st, ctx).Ok?
    ensures CharsFold(entries, st, ctx)
      == CharsFold(entries[1..], CharStep(entries[0].0, entries[0].1, st, ctx).value, ctx)
  {
  }

  lemma {:induction false} CharsFoldInv(entries: seq<(string, SimpleCharData)>, st: CharsState, ctx: CharsContext,
                                        unused0: set<string>, base: map<string, CharLangData>)
    requires CatalogueInv(st, unused0, base, ctx.existing)
    requires CharsFold(entries, st, ctx).Ok?
    ensures CatalogueInv(CharsFold(entries, st, ctx).value, unused0, base, ctx.existing)
    decreases |entries|
  {
    if entries != [] {
      CharsFoldCons(entries, st, ctx);
      CharStepInv(entries[0].0, entries[0].1, st, ctx, unused0, base);
      CharsFoldInv(entries[1..], CharStep(entries[0].0, entries[0].1, st, ctx).value, ctx, unused0, base);
    }
  }

  lemma {:induction false} CharsFoldGrows(entries: seq<(string, SimpleCharData)>, st: CharsState, ctx: CharsContext)
    requires CharsFold(entries, st, ctx).Ok?
    ensures var r := CharsFold(entries, st, ctx).value;
      && Extends(r.translations, st.translations)
      && |r.chars| == |st.chars| + |entries|
      && r.chars[..|st.chars|] == st.chars
    decreases |entries|
  {
    if entries != [] {
      CharsFoldCons(entries, st, ctx);
      var next := CharStep(entries[0].0, entries[0].1, st, ctx).value;
      CharStepBuilds(entries[0].0, entries[0].1, st, ctx);
      CharsFoldGrows(entries[1..], next, ctx);
      var r := CharsFold(entries, st, ctx).value;
      assert r.chars[..|st.chars|] == r.chars[..|next.chars|][..|st.chars|];
    }
  }

  /** The characters after `prior` in `chars` were built, in order, from `entries` against the translations `tr`. */
  ghost predicate BuiltAfter(chars: seq<Character>, prior: seq<Character>, entries: seq<(string, SimpleCharData)>,
                             tr: map<string, CharLangData>, ctx: CharsContext) {
    && |chars| == |prior| + |entries| && chars[..|prior|] == prior
    && forall k :: 0 <= k < |entries| ==> CharacterFor(chars[|prior| + k], entries[k].0, entries[k].1, tr, ctx)
  }

  lemma BuiltAfterCons(chars: seq<Character>, next: seq<Character>, prior: seq<Character>,
                       entries: seq<(string, SimpleCharData)>, tr: map<string, CharLangData>, ctx: CharsContext)
    requires entries != []
    requires |next| == |prior| + 1 && next[..|prior|] == prior
    requires CharacterFor(next[|prior|], entries[0].0, entries[0].1, tr, ctx)
    requires BuiltAfter(chars, next, entries[1..], tr, ctx)
    ensures BuiltAfter(chars, prior, entries, tr, ctx)
  {
    assert chars[..|next|][..|prior|] == prior;
    forall k | 0 <= k < |entries| ensures CharacterFor(chars[|prior| + k], entries[k].0, entries[k].1, tr, ctx) {
      if k == 0 {
        assert chars[..|next|][|prior|] == next[|prior|];
      } else {
        assert entries[1..][k - 1] == entries[k];
      }
    }
  }

  /** What a run appends is one character per entry, in order, each built against the final translations. */
  lemma {:induction false} CharsFoldBuiltFrom(entries: seq<(string, SimpleCharData)>, st: CharsState, ctx: CharsContext)
    requires CharsFold(entries, st, ctx).Ok?
    ensures var r := CharsFold(entries, st, ctx).value;
      && Extends(r.translations, st.translations)
      && BuiltAfter(r.chars, st.chars, entries, r.translations, ctx)
    decreases |entries|
  {
    if entries != [] {
      CharsFoldCons(entries, st, ctx);
      CharStepBuilds(entries[0].0, entries[0].1, st, ctx);
      var next := CharStep(entries[0].0, entries[0].1, st, ctx).value;
      CharsFoldBuiltFrom(entries[1..], next, ctx);
      var r := CharsFold(entries, st, ctx).value;
      assert r == CharsFold(entries[1..], next, ctx).value;
      CharacterForExtends(next.chars[|st.chars|], entries[0].0, entries[0].1, next.translations, r.translations, ctx);
      BuiltAfterCons(r.chars, next.chars, st.chars, entries, r.translations, ctx);
    }
  }

  lemma CharStepTranslations(cid: string, data: SimpleCharData, st: CharsState, ctx: CharsContext)
    requires CharStep(cid, data, st, ctx).Ok?
    ensures var next := CharStep(cid, data, st, ctx).value;
      && next.translations.Keys == st.translations.Keys + {cid}
      && Extends(next.translations, st.translations)
      && (next.updated <==> st.updated || cid !in st.translations)
      && (cid !in st.translations ==> DefaultLangData(data, ctx.roma) == Ok(next.translations[cid]))
  {
    CharStepParts(cid, data, st, ctx);
  }

  /** The ids of the entries of chars.yaml. */
  ghost function EntryIds(entries: seq<(string, SimpleCharData)>): set<string> {
    set k | 0 <= k < |entries| :: entries[k].0
  }

  /** A translation the run adds is the default translation of an entry with that id. */
  ghost predicate AddedByDefault(id: string, entries: seq<(string, SimpleCharData)>, t: CharLangData, roma: Romanizer) {
    exists k :: 0 <= k < |entries| && entries[k].0 == id && DefaultLangData(entries[k].1, roma) == Ok(t)
  }

  lemma EntryIdsCons(entries: seq<(string, SimpleCharData)>)
    requires entries != []
    ensures EntryIds(entries) == {entries[0].0} + EntryIds(entries[1..])
  {
    forall x | x in EntryIds(entries) ensures x in {entries[0].0} + EntryIds(entries[1..]) {
      var k :| 0 <= k < |entries| && entries[k].0 == x;
      if k > 0 { assert entries[1..][k - 1] == entries[k]; }
    }
    forall x | x in EntryIds(entries[1..]) ensures x in EntryIds(entries) {
      var k :| 0 <= k < |entries[1..]| && entries[1..][k].0 == x;
      assert entries[k + 1] == entries[1..][k];
    }
  }

  /** The run gives a translation to exactly the earlier ids and the ids of chars.yaml. */
  lemma {:induction false} CharsFoldTranslationKeys(entries: seq<(string, SimpleCharData)>, st: CharsState,
                                                    ctx: CharsContext)
    requires CharsFold(entries, st, ctx).Ok?
    ensures CharsFold(entries, st, ctx).value.translations.Keys == st.translations.Keys + EntryIds(entries)
    decreases |entries|
  {
    if entries != [] {
      CharsFoldCons(entries, st, ctx);
      CharStepTranslations(entries[0].0, entries[0].1, st, ctx);
      CharsFoldTranslationKeys(entries[1..], CharStep(entries[0].0, entries[0].1, st, ctx).value, ctx);
      EntryIdsCons(entries);
    }
  }

  /** The translations count as updated exactly when some id of chars.yaml had none. */
  lemma {:induction false} CharsFoldUpdated(entries: seq<(string, SimpleCharData)>, st: CharsState, ctx: CharsContext)
    requires CharsFold(entries, st, ctx).Ok?
    ensures CharsFold(entries, st, ctx).value.updated <==>
      st.updated || exists k :: 0 <= k < |entries| && entries[k].0 !in st.translations
    decreases |entries|
  {
    if entries != [] {
      CharsFoldCons(entries, st, ctx);
      var next := CharStep(entries[0].0, entries[0].1, st, ctx).value;
      CharStepTranslations(entries[0].0, entries[0].1, st, ctx);
      CharsFoldUpdated(entries[1..], next, ctx);
      if exists k :: 0 <= k < |entries[1..]| && entries[1..][k].0 !in next.translations {
        var k :| 0 <= k < |entries[1..]| && entries[1..][k].0 !in next.translations;
        assert entries[k + 1] == entries[1..][k];
      }
      if exists k :: 0 <= k < |entries| && entries[k].0 !in st.translations {
        var k :| 0 <= k < |entries| && entries[k].0 !in st.translations;
        if k > 0 && entries[0].0 in st.translations {
          assert entries[1..][k - 1] == entries[k];
        }
      }
    }
  }

  /** Every translation the run adds is the default translation of an entry with that id. */
  lemma {:induction false} CharsFoldDefaults(entries: seq<(string, SimpleCharData)>, st: CharsState, ctx: CharsContext)
    requires CharsFold(entries, st, ctx).Ok?
    ensures var r := CharsFold(entries, st, ctx).value;
      forall id :: id in r.translations && id !in st.translations ==>
        AddedByDefault(id, entries, r.translations[id], ctx.roma)
    decreases |entries|
  {
    if entries != [] {
      CharsFoldCons(entries, st, ctx);
      var next := CharStep(entries[0].0, entries[0].1, st, ctx).value;
      var r := CharsFold(entries, st, ctx).value;
      assert r == CharsFold(entries[1..], next, ctx).value;
      CharStepTranslations(entries[0].0, entries[0].1, st, ctx);
      CharsFoldDefaults(entries[1..], next, ctx);
      CharsFoldGrows(entries[1..], next, ctx);
      forall id | id in r.translations && id !in st.translations
        ensures AddedByDefault(id, entries, r.translations[id], ctx.roma)
      {
        if id == entries[0].0 {
          assert r.translations[id] == next.translations[id];
        } else {
          var k :| 0 <= k < |entries[1..]| && entries[1..][k].0 == id
            && DefaultLangData(entries[1..][k].1, ctx.roma) == Ok(r.translations[id]);
          assert entries[k + 1] == entries[1..][k];
        }
      }
    }
  }

  lemma CatalogueInvWeaken(st: CharsState, unused0: set<string>, base: map<string, CharLangData>,
                           base': map<string, CharLangData>, existing: set<string>)
    requires CatalogueInv(st, unused0, base, existing)
    requires Extends(st.translations, base')
    ensures CatalogueInv(st, unused0, base', existing)
  {
  }

  // ---------------------------------------------------------------- what get_chars promises

  /** A successful run: the unused set, a successful loop from the empty catalogue, the sorted result. */
  lemma GetCharsParts(entries: seq<(string, SimpleCharData)>, translations: map<string, CharLangData>,
                      charFiles: seq<string>, ctx: CharsContext)
    requires GetCharsSpec(entries, translations, charFiles, ctx).Ok?
    ensures InitialUnused(charFiles).Ok?
    ensures var st0 := CharsState([], map[], InitialUnused(charFiles).value, translations, false);
      && CharsFold(entries, st0, ctx).Ok?
      && var st := CharsFold(entries, st0, ctx).value;
         GetCharsSpec(entries, translations, charFiles, ctx) == Ok(st.(chars := SortBy(st.chars, ByLowerId())))
  {
  }

  /** The catalogue invariant holds at the end of a successful run. */
  lemma GetCharsFinalInv(entries: seq<(string, SimpleCharData)>, translations: map<string, CharLangData>,
                         charFiles: seq<string>, ctx: CharsContext)
    requires GetCharsSpec(entries, translations, charFiles, ctx).Ok?
    ensures InitialUnused(charFiles).Ok?
    ensures var st0 := CharsState([], map[], InitialUnused(charFiles).value, translations, false);
      && CharsFold(entries, st0, ctx).Ok?
      && var st := CharsFold(entries, st0, ctx).value;
         && CatalogueInv(st, InitialUnused(charFiles).value, translations, ctx.existing)
         && GetCharsSpec(entries, translations, charFiles, ctx) == Ok(st.(chars := SortBy(st.chars, ByLowerId())))
  {
    GetCharsParts(entries, translations, charFiles, ctx);
    var unused0 := InitialUnused(charFiles).value;
    CatalogueStart(unused0, translations, ctx.existing);
    CharsFoldInv(entries, CharsState([], map[], unused0, translations, false), ctx, unused0, translations);
  }

  /** The empty catalogue meets the invariant. */
  lemma CatalogueStart(unused0: set<string>, base: map<string, CharLangData>, existing: set<string>)
    ensures CatalogueInv(CharsState([], map[], unused0, base, false), unused0, base, existing)
  {
    assert Stems(map[]) == {};
    assert AllImages([]) == [];
  }

  /** Images of characters that are a permutation of those the avatar invariant describes are unique and keyed. */
  lemma ImagesUniqueOf(chars: seq<Character>, sorted: seq<Character>, av: Avatars, unused0: set<string>,
                       existing: set<string>)
    requires av.images == []
    requires AvatarsInv(AllImages(chars), av, unused0, existing)
    requires multiset(sorted) == multiset(chars)
    ensures forall i, j :: 0 <= i < j < |AllImages(sorted)| ==> AllImages(sorted)[i] != AllImages(sorted)[j]
    ensures forall n :: n in AllImages(sorted) <==> n in av.files
    ensures forall n :: n in av.files ==> |n| > 0 && av.files[n] in existing
  {
    AllImagesPermutation(sorted, chars);
    assert AllImages(chars) + av.images == AllImages(chars);
    DistinctFromSet(AllImages(sorted), av.files.Keys);
    forall n ensures n in AllImages(sorted) <==> n in av.files {
      assert n in AllImages(sorted) <==> n in multiset(AllImages(sorted));
    }
  }

  /**
   * Image names are unique across the whole catalogue (lines 100-101): no name
   * appears twice among all characters' images, the names are exactly the
   * avatar keys, each is non-empty and each avatar file exists (line 104).
   */
  lemma GetCharsImagesUnique(entries: seq<(string, SimpleCharData)>, translations: map<string, CharLangData>,
                             charFiles: seq<string>, ctx: CharsContext)
    requires GetCharsSpec(entries, translations, charFiles, ctx).Ok?
    ensures var r := GetCharsSpec(entries, translations, charFiles, ctx).value;
      && (forall i, j :: 0 <= i < j < |AllImages(r.chars)| ==> AllImages(r.chars)[i] != AllImages(r.chars)[j])
      && (forall n :: n in AllImages(r.chars) <==> n in r.files)
      && (forall n :: n in r.files ==> |n| > 0 && r.files[n] in ctx.existing)
  {
    GetCharsFinalInv(entries, translations, charFiles, ctx);
    var st := CharsFold(entries, CharsState([], map[], InitialUnused(charFiles).value, translations, false), ctx).value;
    ImagesUniqueOf(st.chars, SortBy(st.chars, ByLowerId()), Avatars([], st.files, st.unused),
                   InitialUnused(charFiles).value, ctx.existing);
  }

  /**
   * The unused portraits (lines 52-53, 109-110) are the initial candidates less
   * Serika's portrait and less the stem of every avatar file the catalogue uses.
   */
  lemma GetCharsUnused(entries: seq<(string, SimpleCharData)>, translations: map<string, CharLangData>,
                       charFiles: seq<string>, ctx: CharsContext)
    requires GetCharsSpec(entries, translations, charFiles, ctx).Ok?
    ensures var r := GetCharsSpec(entries, translations, charFiles, ctx).value;
      r.unused == InitialUnused(charFiles).value - Stems(r.files)
  {
    GetCharsFinalInv(entries, translations, charFiles, ctx);
  }

  /**
   * Translations (lines 72-76): existing entries are kept unchanged, every id of
   * chars.yaml gains one, each added one is that id's default, and the flag says
   * whether any id lacked a translation.
   */
  lemma GetCharsTranslations(entries: seq<(string, SimpleCharData)>, translations: map<string, CharLangData>,
                             charFiles: seq<string>, ctx: CharsContext)
    requires GetCharsSpec(entries, translations, charFiles, ctx).Ok?
    ensures var r := GetCharsSpec(entries, translations, charFiles, ctx).value;
      && Extends(r.translations, translations)
      && r.translations.Keys == translations.Keys + EntryIds(entries)
      && (r.updated <==> exists k :: 0 <= k < |entries| && entries[k].0 !in translations)
      && forall id :: id in r.translations && id !in translations ==>
           AddedByDefault(id, entries, r.translations[id], ctx.roma)
  {
    GetCharsParts(entries, translations, charFiles, ctx);
    var st0 := CharsState([], map[], InitialUnused(charFiles).value, translations, false);
    CharsFoldGrows(entries, st0, ctx);
    CharsFoldTranslationKeys(entries, st0, ctx);
    CharsFoldUpdated(entries, st0, ctx);
    CharsFoldDefaults(entries, st0, ctx);
  }

  /**
   * The catalogue (lines 84-113, 135): the characters built one per entry, in
   * entry order, each from its entry's translation, image names and groups,
   * then rearranged in order of lower-cased id.
   */
  lemma GetCharsCatalogue(entries: seq<(string, SimpleCharData)>, translations: map<string, CharLangData>,
                          charFiles: seq<string>, ctx: CharsContext)
    requires GetCharsSpec(entries, translations, charFiles, ctx).Ok?
    ensures var r := GetCharsSpec(entries, translations, charFiles, ctx).value;
      && |r.chars| == |entries|
      && SortedBy(r.chars, ByLowerId())
      && (exists built :: BuiltAfter(built, [], entries, r.translations, ctx) && multiset(r.chars) == multiset(built))
      && forall i :: 0 <= i < |r.chars| ==>
           exists k :: 0 <= k < |entries| && CharacterFor(r.chars[i], entries[k].0, entries[k].1, r.translations, ctx)
  {
    GetCharsParts(entries, translations, charFiles, ctx);
    var st0 := CharsState([], map[], InitialUnused(charFiles).value, translations, false);
    CharsFoldBuiltFrom(entries, st0, ctx);
    var st := CharsFold(entries, st0, ctx).value;
    SortedBuilt(st.chars, entries, st.translations, ctx);
    assert BuiltAfter(st.chars, [], entries, st.translations, ctx);
  }

  /** Sorting characters built one per entry rearranges them, each kept once, in order of lower-cased id. */
  lemma SortedBuilt(chars: seq<Character>, entries: seq<(string, SimpleCharData)>, tr: map<string, CharLangData>,
                    ctx: CharsContext)
    requires BuiltAfter(chars, [], entries, tr, ctx)
    ensures var sorted := SortBy(chars, ByLowerId());
      && |sorted| == |entries|
      && SortedBy(sorted, ByLowerId())
      && multiset(sorted) == multiset(chars)
      && forall i :: 0 <= i < |sorted| ==>
           exists k :: 0 <= k < |entries| && CharacterFor(sorted[i], entries[k].0, entries[k].1, tr, ctx)
  {
    var sorted := SortBy(chars, ByLowerId());
    ByKeyIsTotalPreorder((c: Character) => Lower(c.id));
    SortBySorted(chars, ByLowerId());
    forall i | 0 <= i < |sorted|
      ensures exists k :: 0 <= k < |entries| && CharacterFor(sorted[i], entries[k].0, entries[k].1, tr, ctx)
    {
      assert sorted[i] in multiset(chars);
      var k :| 0 <= k < |chars| && chars[k] == sorted[i];
      assert CharacterFor(chars[0 + k], entries[k].0, entries[k].1, tr, ctx);
    }
  }

  // ---------------------------------------------------------------- the loops

  /** The short-name loop (lines 79-82). */
  method FillShortNames(trans: CharLangData, langs: seq<string>) returns (r: Result<map<string, string>>)
    ensures r == ShortNames(ManualShortNames(trans), trans.name, langs)
  {
    var short := ManualShortNames(trans);
    var i := 0;
    while i < |langs|
      invariant 0 <= i <= |langs|
      invariant ShortNames(ManualShortNames(trans), trans.name, langs)
        == ShortNames(short, trans.name, langs[i..])
    {
      var lang := langs[i];
      assert langs[i..][0] == lang && langs[i..][1..] == langs[i + 1..];
      if !KeepsManual(short, lang) {
        if lang !in trans.name {
          return Err(KeyError(lang));
        }
        short := short[lang := LastSegment(trans.name[lang], ' ')];
      }
      i := i + 1;
    }
    return Ok(short);
  }

  /** The image loop of one character (lines 93-110). */
  method AddImageFiles(specs: seq<string>, av: Avatars, existing: set<string>) returns (r: Result<Avatars>)
    ensures r == AddImages(specs, av, existing)
  {
    var images, files, unused := av.images, av.files, av.unused;
    var i := 0;
    while i < |specs|
      invariant 0 <= i <= |specs|
      invariant AddImages(specs, av, existing) == AddImages(specs[i..], Avatars(images, files, unused), existing)
    {
      assert specs[i..][0] == specs[i] && specs[i..][1..] == specs[i + 1..];
      var spec := ParseImageSpec(specs[i]);
      if spec.Err? {
        return Err(spec.error);
      }
      var name, path := spec.value.name, spec.value.path;
      if |name| == 0 {
        return Err(AssertionError("len(name) > 0"));
      }
      if name in files {
        return Err(AssertionError("Duplicate"));
      }
      var imgFile := path + ".png";
      if imgFile !in existing {
        return Err(AssertionError("img_file.exists()"));
      }
      images := images + [name];
      files := files[name := imgFile];
      unused := unused - {PathStem(imgFile)};
      i := i + 1;
    }
    return Ok(Avatars(images, files, unused));
  }

  /** The translation a step uses: the existing one, else the default. */
  function StepTranslation(cid: string, data: SimpleCharData, st: CharsState, ctx: CharsContext): Result<CharLangData> {
    if cid in st.translations then Ok(st.translations[cid]) else DefaultLangData(data, ctx.roma)
  }

  /** How a step ends, by the first of its parts that fails. */
  lemma CharStepCases(cid: string, data: SimpleCharData, st: CharsState, ctx: CharsContext)
    ensures var t := StepTranslation(cid, data, st, ctx);
      if t.Err? then CharStep(cid, data, st, ctx) == Err(t.error)
      else
        var sh := ShortNames(ManualShortNames(t.value), t.value.name, ctx.allLangs);
        if sh.Err? then CharStep(cid, data, st, ctx) == Err(sh.error)
        else
          var av := AddImages(data.imageFiles, Avatars([], st.files, st.unused), ctx.existing);
          if av.Err? then CharStep(cid, data, st, ctx) == Err(av.error)
          else CharStep(cid, data, st, ctx) == Ok(CharsState(
            st.chars + [Character(cid, t.value.name, sh.value, SortStrings(av.value.images),
                                  SortStrings(GroupsOf(ctx.groups, cid)))],
            av.value.files, av.value.unused, st.translations[cid := t.value], st.updated || cid !in st.translations))
  {
  }

  lemma CharsFoldStep(entries: seq<(string, SimpleCharData)>, st: CharsState, ctx: CharsContext)
    requires entries != []
    ensures var step := CharStep(entries[0].0, entries[0].1, st, ctx);
      CharsFold(entries, st, ctx) == if step.Err? then Err(step.error) else CharsFold(entries[1..], step.value, ctx)
  {
  }

  /** One iteration of the loop over chars.yaml (lines 72-117). */
  method AddCharacter(cid: string, data: SimpleCharData, st: CharsState, ctx: CharsContext)
    returns (r: Result<CharsState>)
    ensures r == CharStep(cid, data, st, ctx)
  {
    CharStepCases(cid, data, st, ctx);
    var trans: CharLangData;
    var tr := st.translations;
    var updated := st.updated;
    if cid in tr {
      trans := tr[cid];
    } else {
      var d := DefaultLangData(data, ctx.roma);
      if d.Err? {
        return Err(d.error);
      }
      trans := d.value;
      tr := tr[cid := trans];
      updated := true;
    }
    assert StepTranslation(cid, data, st, ctx) == Ok(trans);
    var short := FillShortNames(trans, ctx.allLangs);
    if short.Err? {
      return Err(short.error);
    }
    var av := AddImageFiles(data.imageFiles, Avatars([], st.files, st.unused), ctx.existing);
    if av.Err? {
      return Err(av.error);
    }
    var ch := Character(cid, trans.name, short.value, SortStrings(av.value.images), SortStrings(GroupsOf(ctx.groups, cid)));
    assert tr == st.translations[cid := trans];
    assert updated == (st.updated || cid !in st.translations);
    return Ok(CharsState(st.chars + [ch], av.value.files, av.value.unused, tr, updated));
  }

  /** `get_chars` (lines 49-136) over the loaded tables; clubs and schools are the two group files. */
  method GetChars(entries: seq<(string, SimpleCharData)>, clubs: seq<GroupData>, schools: seq<GroupData>,
                  translations: map<string, CharLangData>, allLangs: seq<string>, existing: set<string>,
                  charFiles: seq<string>, roma: Romanizer)
    returns (r: Result<CharsState>)
    ensures r == GetCharsSpec(entries, translations, charFiles, CharsContext(clubs + schools, allLangs, existing, roma))
  {
    var ctx := CharsContext(clubs + schools, allLangs, existing, roma);
    var unused0 := InitialUnused(charFiles);
    if unused0.Err? {
      return Err(unused0.error);
    }
    var st0 := CharsState([], map[], unused0.value, translations, false);
    var st := st0;
    var i := 0;
    while i < |entries|
      invariant 0 <= i <= |entries|
      invariant CharsFold(entries, st0, ctx) == CharsFold(entries[i..], st, ctx)
    {
      assert entries[i..][0] == entries[i] && entries[i..][1..] == entries[i + 1..];
      CharsFoldStep(entries[i..], st, ctx);
      var next := AddCharacter(entries[i].0, entries[i].1, st, ctx);
      if next.Err? {
        return Err(next.error);
      }
      st := next.value;
      i := i + 1;
    }
    assert entries[i..] == [];
    return Ok(st.(chars := SortBy(st.chars, ByLowerId())));
  }

  // ---------------------------------------------------------------- stamps

  /** The number in a stamp file name (line 142): its third `_`-separated part read as an int. */
  function StampKey(file: string): Result<int> {
    var parts := Split(PathName(file), '_');
    if |parts| < 3 then Err(IndexError("split(\"_\")[2]")) else ParseInt(parts[2])
  }

  /** The number of a stamp file as a total function, for comparing files whose numbers all read. */
  function StampNumber(file: string): int {
    match StampKey(file)
    case Ok(v) => v
    case Err(_) => 0
  }

  function ByStampNumber(): (string, string) -> bool {
    (a: string, b: string) => StampNumber(a) <= StampNumber(b)
  }

  lemma ByStampNumberIsTotalPreorder()
    ensures TotalPreorder(ByStampNumber())
  {
  }

  /**
   * `get_stamps` (lines 138-142) on the globbed files: every file's number is
   * read first, so one unreadable name fails the whole call with that file's
   * error; otherwise the files, each kept once per occurrence, in increasing
   * order of their numbers, equal numbers in glob order.
   */
  function GetStamps(files: seq<string>): (r: Result<seq<string>>)
    ensures r.Ok? <==> forall i :: 0 <= i < |files| ==> StampKey(files[i]).Ok?
  {
    var keys :- MapAll(files, StampKey);
    Ok(SortBy(files, ByStampNumber()))
  }

  /** Files with the same number as `f` keep their glob order among the stamps. */
  lemma GetStampsStable(files: seq<string>, f: string)
    requires GetStamps(files).Ok?
    ensures Ties(GetStamps(files).value, f, ByStampNumber()) == Ties(files, f, ByStampNumber())
  {
    ByStampNumberIsTotalPreorder();
    SortByStable(files, f, ByStampNumber());
  }

  /** The stamps are the globbed files reordered. */
  lemma GetStampsPermutation(files: seq<string>)
    requires GetStamps(files).Ok?
    ensures multiset(GetStamps(files).value) == multiset(files)
  {
  }

  /** A failing stamp list fails with the error of the first unreadable name. */
  lemma GetStampsError(files: seq<string>)
    requires GetStamps(files).Err?
    ensures exists i :: 0 <= i < |files| && StampKey(files[i]) == Err(GetStamps(files).error) &&
                       forall j :: 0 <= j < i ==> StampKey(files[j]).Ok?
  {
    var m := MapAll(files, StampKey);
    assert m.Err?;
  }

  /** The stamps come in nondecreasing order of their numbers. */
  lemma GetStampsOrdered(files: seq<string>)
    requires GetStamps(files).Ok?
    ensures forall i, j :: 0 <= i < j < |GetStamps(files).value| ==>
      StampKey(GetStamps(files).value[i]).Ok? && StampKey(GetStamps(files).value[j]).Ok? &&
      StampKey(GetStamps(files).value[i]).value <= StampKey(GetStamps(files).value[j]).value
  {
    var r := GetStamps(files).value;
    ByStampNumberIsTotalPreorder();
    SortBySorted(files, ByStampNumber());
    forall i | 0 <= i < |r| ensures StampKey(r[i]).Ok? && StampNumber(r[i]) == StampKey(r[i]).value {
      assert r[i] in multiset(files);
    }
  }

  /** A stamp file named `ClanChat_Emoji_<n>_Jp.png`, in any directory, has number `n`. */
  lemma StampKeyOfName(dir: string, n: nat)
    ensures StampKey(dir + "/" + ("ClanChat_Emoji_" + DecimalString(n) + "_Jp.png")) == Ok(n)
  {
    var d := DecimalString(n);
    var name := "ClanChat_Emoji_" + d + "_Jp.png";
    assert '/' !in d && '_' !in d;
    assert '/' !in name;
    LastSegmentAfter(dir, '/', name);
    assert dir + "/" + name == dir + ['/'] + name;
    var parts := ["ClanChat", "Emoji", d, "Jp.png"];
    assert Join(["Jp.png"], "_") == "Jp.png";
    assert parts[2..][1..] == ["Jp.png"];
    assert Join(parts[2..], "_") == d + "_" + "Jp.png";
    assert parts[1..][1..] == parts[2..];
    assert Join(parts[1..], "_") == "Emoji" + "_" + (d + "_" + "Jp.png");
    assert Join(parts, "_") == "ClanChat" + "_" + ("Emoji" + "_" + (d + "_" + "Jp.png"));
    assert Join(parts, "_") == name;
    SplitJoin(parts, '_');
    ParseDecimalString(n);
  }

  // ---------------------------------------------------------------- filters

  /** `gp.name[k] or ""`: an absent or empty title reads as "". */
  function OrEmpty(v: Option<string>): string {
    match v
    case Some(s) => s
    case None => ""
  }

  /** `{k: gp.name[k] or "" for k in all_langs}` (line 152): a KeyError for the first language with no entry. */
  function GroupTitles(name: map<string, Option<string>>, langs: seq<string>): (r: Result<map<string, string>>)
    ensures r.Ok? <==> forall i :: 0 <= i < |langs| ==> langs[i] in name
    ensures r.Ok? ==> r.value.Keys == set l | l in langs
    ensures r.Ok? ==> forall l :: l in r.value ==> r.value[l] == OrEmpty(name[l])
  {
    if langs == [] then Ok(map[])
    else if langs[0] !in name then Err(KeyError(langs[0]))
    else
      var rest :- GroupTitles(name, langs[1..]);
      assert forall i :: 1 <= i < |langs| ==> langs[i] == langs[1..][i - 1];
      Ok(rest[langs[0] := OrEmpty(name[langs[0]])])
  }

  /** The groups of one panel in order of id (line 149), each group kept once per occurrence. */
  function SortedGroups(groups: seq<GroupLangData>): (r: seq<GroupLangData>)
    ensures multiset(r) == multiset(groups)
    ensures SortedBy(r, ByKey((g: GroupLangData) => g.id))
  {
    ByKeyIsTotalPreorder((g: GroupLangData) => g.id);
    SortBySorted(groups, ByKey((g: GroupLangData) => g.id));
    SortBy(groups, ByKey((g: GroupLangData) => g.id))
  }

  function TitlesIn(langs: seq<string>): GroupLangData -> Result<map<string, string>> {
    (g: GroupLangData) => GroupTitles(g.name, langs)
  }

  /**
   * One filter panel (lines 148-159): the groups in order of id, each with its
   * titles in every language, all inactive, under the panel's translated title.
   */
  function FilterGroupFor(key: string, groups: seq<GroupLangData>, typeNames: map<string, map<string, string>>,
                          langs: seq<string>): Result<FilterGroup>
  {
    var sorted := SortedGroups(groups);
    var titles :- MapAll(sorted, TitlesIn(langs));
    var title :- Lookup(typeNames, key, key);
    Ok(FilterGroup(key, title, seq(|sorted|, k requires 0 <= k < |sorted| => sorted[k].id), titles,
                   seq(|sorted|, _ => false)))
  }

  /** The titles of the sorted groups can all be read exactly when every group has every language. */
  lemma SortedTitlesOk(groups: seq<GroupLangData>, langs: seq<string>)
    ensures MapAll(SortedGroups(groups), TitlesIn(langs)).Ok? <==>
      forall g, i :: g in groups && 0 <= i < |langs| ==> langs[i] in g.name
  {
    var sorted := SortedGroups(groups);
    assert forall g :: g in sorted <==> g in groups by {
      assert forall g :: g in sorted <==> g in multiset(sorted);
    }
    if forall g, i :: g in groups && 0 <= i < |langs| ==> langs[i] in g.name {
      forall k | 0 <= k < |sorted| ensures TitlesIn(langs)(sorted[k]).Ok? {
        assert sorted[k] in sorted;
      }
    } else {
      var g, i :| g in groups && 0 <= i < |langs| && langs[i] !in g.name;
      assert g in sorted;
      var k :| 0 <= k < |sorted| && sorted[k] == g;
      assert TitlesIn(langs)(sorted[k]).Err?;
    }
  }

  /** A panel is built exactly when every group has an entry for every language and the panel has a title. */
  lemma FilterGroupForOk(key: string, groups: seq<GroupLangData>, typeNames: map<string, map<string, string>>,
                         langs: seq<string>)
    ensures FilterGroupFor(key, groups, typeNames, langs).Ok? <==>
      (forall g, i :: g in groups && 0 <= i < |langs| ==> langs[i] in g.name) && key in typeNames
  {
    SortedTitlesOk(groups, langs);
  }

  /**
   * A built panel lists the groups in order of id, entry `k` carrying the id and
   * the titles of the `k`-th group so ordered, every entry inactive.
   */
  lemma FilterGroupForEntries(key: string, groups: seq<GroupLangData>, typeNames: map<string, map<string, string>>,
                              langs: seq<string>)
    requires FilterGroupFor(key, groups, typeNames, langs).Ok?
    ensures var f := FilterGroupFor(key, groups, typeNames, langs).value;
      && f.groupKey == key && f.groupName == typeNames[key]
      && |f.filterSearches| == |groups| && |f.filterNames| == |groups| && |f.active| == |groups|
      && SortedBy(f.filterSearches, StrLe)
      && (forall k :: 0 <= k < |groups| ==> !f.active[k])
      && (forall k :: 0 <= k < |groups| ==>
            f.filterSearches[k] == SortedGroups(groups)[k].id
            && GroupTitles(SortedGroups(groups)[k].name, langs) == Ok(f.filterNames[k]))
  {
    var sorted := SortedGroups(groups);
    assert |sorted| == |multiset(sorted)| == |groups|;
  }

  /** `get_filters` (lines 144-161): the schools panel, then the clubs panel. */
  function GetFiltersSpec(schools: seq<GroupLangData>, clubs: seq<GroupLangData>,
                          typeNames: map<string, map<string, string>>, langs: seq<string>): Result<seq<FilterGroup>>
  {
    var s :- FilterGroupFor("schools", schools, typeNames, langs);
    var c :- FilterGroupFor("clubs", clubs, typeNames, langs);
    Ok([s, c])
  }

  /** The titles of the sorted groups, one group at a time as the loop at lines 150-152 rewrites them. */
  method GroupsTitlesLoop(sorted: seq<GroupLangData>, langs: seq<string>) returns (r: Result<seq<map<string, string>>>)
    ensures r == MapAll(sorted, TitlesIn(langs))
  {
    var titles: seq<map<string, string>> := [];
    var i := 0;
    while i < |sorted|
      invariant 0 <= i <= |sorted| && |titles| == i
      invariant forall j :: 0 <= j < i ==> TitlesIn(langs)(sorted[j]) == Ok(titles[j])
    {
      var t := GroupTitles(sorted[i].name, langs);
      if t.Err? {
        MapAllFirstError(sorted, TitlesIn(langs), i);
        return Err(t.error);
      }
      titles := titles + [t.value];
      i := i + 1;
    }
    MapAllOfValues(sorted, TitlesIn(langs), titles);
    return Ok(titles);
  }

  /** One panel of `get_filters` (lines 148-159). */
  method BuildPanel(key: string, groups: seq<GroupLangData>, typeNames: map<string, map<string, string>>,
                    langs: seq<string>) returns (r: Result<FilterGroup>)
    ensures r == FilterGroupFor(key, groups, typeNames, langs)
  {
    var sorted := SortedGroups(groups);
    var titles := GroupsTitlesLoop(sorted, langs);
    if titles.Err? {
      return Err(titles.error);
    }
    if key !in typeNames {
      return Err(KeyError(key));
    }
    var ids := seq(|sorted|, k requires 0 <= k < |sorted| => sorted[k].id);
    return Ok(FilterGroup(key, typeNames[key], ids, titles.value, seq(|sorted|, _ => false)));
  }

  /** `get_filters`, panel by panel. */
  method GetFilters(schools: seq<GroupLangData>, clubs: seq<GroupLangData>,
                    typeNames: map<string, map<string, string>>, langs: seq<string>) returns (r: Result<seq<FilterGroup>>)
    ensures r == GetFiltersSpec(schools, clubs, typeNames, langs)
  {
    var result: seq<FilterGroup> := [];
    var keys := ["schools", "clubs"];
    var i := 0;
    while i < 2
      invariant 0 <= i <= 2 && |result| == i
      invariant forall j :: 0 <= j < i ==>
        FilterGroupFor(keys[j], if j == 0 then schools else clubs, typeNames, langs) == Ok(result[j])
    {
      var panel := BuildPanel(keys[i], if i == 0 then schools else clubs, typeNames, langs);
      if panel.Err? {
        assert i == 1 ==> FilterGroupFor("schools", schools, typeNames, langs) == Ok(result[0]);
        return Err(panel.error);
      }
      result := result + [panel.value];
      i := i + 1;
    }
    assert result == [result[0], result[1]];
    return Ok(result);
  }
}
