/**
 * The Arknights processor (arknights/get_resources.py): operators of the
 * Chinese character table that have a basic avatar sprite, with their elite
 * and skin sprites as further images, then the named enemies that have a
 * sprite, then the Japanese, English and traditional Chinese names from the
 * merged operator and enemy tables, and Closure in front when she is missing.
 */
module Arknights {
  import opened Results
  import opened Text
  import opened Sorting
  import opened Models

  // ---------------------------------------------------------------- inputs

  /** An entry of character_table.json: the fields read (lines 48, 55-56). */
  datatype OperatorEntry = OperatorEntry(name: string, appellation: string)

  /** An entry of enemy_handbook_table.json: the field read (line 69). */
  datatype EnemyEntry = EnemyEntry(name: string)

  /** The two tables downloaded for one language (lines 36-40). */
  datatype GameTables = GameTables(operators: map<string, OperatorEntry>, enemies: map<string, EnemyEntry>)

  /**
   * The resource tree, relative to its root: the paths of the files that exist,
   * and the file names of the elite and skin sprite directories in the order
   * the file system lists them.
   */
  datatype SpriteFiles = SpriteFiles(existing: set<string>, elite: seq<string>, skins: seq<string>)

  /** File names as a directory lists them: none contains a `/`. */
  predicate IsListing(names: seq<string>) {
    forall i :: 0 <= i < |names| ==> '/' !in names[i]
  }

  /** The languages downloaded (line 27); every one but the first is filled afterwards (line 87). */
  const Langs: seq<string> := ["zh-cn", "ja", "en", "zh-tw"]

  const CharSpriteDir := "spritepack/ui_char_avatar_h1_0/Sprite"
  const EliteSpriteDir := "spritepack/ui_char_avatar_h1_elite_0/Sprite"
  const SkinSpriteDir := "spritepack/ui_char_avatar_h1_skins_0/Sprite"
  const EnemySpriteDir := "spritepack/icon_enemies_h2_0/Sprite"

  /** The basic avatar sprite of an operator (line 49). */
  function CharSprite(k: string): string {
    CharSpriteDir + "/" + k + ".png"
  }

  /** The sprite of an enemy (line 73). */
  function EnemySprite(k: string): string {
    EnemySpriteDir + "/" + k + ".png"
  }

  // ---------------------------------------------------------------- further images of an operator

  /** A name `glob` matches with `{k}*.png`: the key, anything, then ".png". */
  predicate GlobMatch(name: string, k: string) {
    |name| >= |k| + 4 && StartsWith(name, k) && EndsWith(name, ".png")
  }

  /** `glob(dir/{k}*.png)` (lines 59-60): the matching files of the directory, in listing order. */
  function Glob(dir: string, listing: seq<string>, k: string): (r: seq<string>)
    decreases |listing|
  {
    if listing == [] then []
    else (if GlobMatch(listing[0], k) then [dir + "/" + listing[0]] else []) + Glob(dir, listing[1..], k)
  }

  /** The sprites after the basic one, elite sprites first (lines 59-60). */
  function ExtraFiles(k: string, fs: SpriteFiles): seq<string> {
    Glob(EliteSpriteDir, fs.elite, k) + Glob(SkinSpriteDir, fs.skins, k)
  }

  /** `os.path.splitext(os.path.split(file)[1])[0]` (line 62). */
  function ImageName(file: string): string {
    SplitExtRoot(PathName(file))
  }

  function ImageNames(files: seq<string>): seq<string> {
    seq(|files|, i requires 0 <= i < |files| => ImageName(files[i]))
  }

  /** The image names of a prefix one file longer end with that file's image name. */
  lemma ImageNamesSnoc(files: seq<string>, i: nat)
    requires i < |files|
    ensures ImageNames(files[..i + 1]) == ImageNames(files[..i]) + [ImageName(files[i])]
  {
  }

  /** The image name of a matched file starts with the key. */
  lemma ImageNameOfMatch(dir: string, name: string, k: string)
    requires '/' !in name && GlobMatch(name, k)
    ensures StartsWith(ImageName(dir + "/" + name), k)
  {
    LastSegmentAfter(dir, '/', name);
    assert dir + "/" + name == dir + ['/'] + name;
    var i := |name| - 4;
    assert name[i..] == ".png";
    assert name[i] == '.' && forall j :: i < j < |name| ==> name[j] != '.';
    var r := SplitExtRoot(name);
    assert RFind(name, '.') == Some(i);
    assert |r| >= |k|;
  }

  /** Every file the glob yields has an image name starting with the key. */
  lemma {:induction false} GlobImagesStartWithKey(dir: string, listing: seq<string>, k: string)
    requires IsListing(listing)
    ensures forall f :: f in Glob(dir, listing, k) ==> StartsWith(ImageName(f), k)
    decreases |listing|
  {
    if listing != [] {
      GlobImagesStartWithKey(dir, listing[1..], k);
      if GlobMatch(listing[0], k) {
        ImageNameOfMatch(dir, listing[0], k);
      }
    }
  }

  /** Every further image of an operator is named after a sprite whose name starts with the operator's key (line 59-62). */
  lemma ExtraImagesStartWithKey(k: string, fs: SpriteFiles)
    requires IsListing(fs.elite) && IsListing(fs.skins)
    ensures forall n :: n in ImageNames(ExtraFiles(k, fs)) ==> StartsWith(n, k)
  {
    GlobImagesStartWithKey(EliteSpriteDir, fs.elite, k);
    GlobImagesStartWithKey(SkinSpriteDir, fs.skins, k);
    var files := ExtraFiles(k, fs);
    assert forall i :: 0 <= i < |files| ==> files[i] in Glob(EliteSpriteDir, fs.elite, k) || files[i] in Glob(SkinSpriteDir, fs.skins, k);
  }

  /** The avatar files after recording each file under its image name, later files winning (line 63). */
  function RecordFiles(files: seq<string>, avatars: map<string, string>): (r: map<string, string>)
    decreases |files|
  {
    if files == [] then avatars else RecordFiles(files[1..], avatars[ImageName(files[0]) := files[0]])
  }

  /** Recording files adds exactly their image names as keys. */
  lemma {:induction false} RecordFilesKeys(files: seq<string>, avatars: map<string, string>)
    ensures forall x :: x in RecordFiles(files, avatars) <==> x in avatars || x in ImageNames(files)
    decreases |files|
  {
    if files != [] {
      RecordFilesKeys(files[1..], avatars[ImageName(files[0]) := files[0]]);
      assert ImageNames(files) == [ImageName(files[0])] + ImageNames(files[1..]);
    }
  }

  // ---------------------------------------------------------------- building the list

  /** What the two loops build: the characters, the avatar files and the operators' appellations. */
  datatype Build = Build(chars: seq<Character>, avatars: map<string, string>, appellations: map<string, string>)

  /** The character of an operator with a basic sprite (lines 55, 59-64). */
  function OperatorCharacter(k: string, v: OperatorEntry, fs: SpriteFiles): Character {
    Character(k, map["zh-cn" := v.name], map["zh-cn" := v.name], [k] + ImageNames(ExtraFiles(k, fs)), [v.appellation])
  }

  /** One operator (lines 48-66): skipped without a basic sprite, otherwise added with all its sprites. */
  function OperatorStep(item: (string, OperatorEntry), b: Build, fs: SpriteFiles): Build {
    var (k, v) := item;
    if CharSprite(k) !in fs.existing then b
    else
      Build(b.chars + [OperatorCharacter(k, v, fs)],
            RecordFiles(ExtraFiles(k, fs), b.avatars[k := CharSprite(k)]),
            b.appellations[k := v.appellation])
  }

  function OperatorsFold(items: seq<(string, OperatorEntry)>, b: Build, fs: SpriteFiles): Build
    decreases |items|
  {
    if items == [] then b else OperatorsFold(items[1..], OperatorStep(items[0], b, fs), fs)
  }

  /** Reference definition: the operators that have a basic sprite, in the given order. */
  function IncludedOperators(items: seq<(string, OperatorEntry)>, fs: SpriteFiles): seq<(string, OperatorEntry)>
    decreases |items|
  {
    if items == [] then []
    else (if CharSprite(items[0].0) in fs.existing then [items[0]] else []) + IncludedOperators(items[1..], fs)
  }

  /** An operator is included exactly when it is listed and its basic sprite exists; the order is kept. */
  lemma {:induction false} IncludedOperatorsIff(items: seq<(string, OperatorEntry)>, fs: SpriteFiles)
    ensures forall x :: x in IncludedOperators(items, fs) <==> x in items && CharSprite(x.0) in fs.existing
    decreases |items|
  {
    if items != [] {
      IncludedOperatorsIff(items[1..], fs);
    }
  }

  /** Operators listed in increasing key order are included in increasing key order. */
  lemma {:induction false} IncludedOperatorsSorted(items: seq<(string, OperatorEntry)>, fs: SpriteFiles)
    requires forall i, j :: 0 <= i < j < |items| ==> StrLt(items[i].0, items[j].0)
    ensures forall i, j :: 0 <= i < j < |IncludedOperators(items, fs)| ==>
      StrLt(IncludedOperators(items, fs)[i].0, IncludedOperators(items, fs)[j].0)
    decreases |items|
  {
    if items != [] {
      var rest := IncludedOperators(items[1..], fs);
      IncludedOperatorsSorted(items[1..], fs);
      assert forall i, j :: 0 <= i < j < |rest| ==> StrLt(rest[i].0, rest[j].0);
      IncludedOperatorsIff(items[1..], fs);
      forall x | x in rest ensures StrLt(items[0].0, x.0) {
        var j :| 0 <= j < |items[1..]| && items[1..][j] == x;
        assert items[j + 1] == x;
      }
      if CharSprite(items[0].0) in fs.existing {
        assert IncludedOperators(items, fs) == [items[0]] + rest;
        ConsIncreasing(items[0], rest);
      } else {
        assert IncludedOperators(items, fs) == rest;
      }
    }
  }

  /** An item below every key of an increasing list keeps it increasing in front. */
  lemma ConsIncreasing<V>(x: (string, V), rest: seq<(string, V)>)
    requires forall y :: y in rest ==> StrLt(x.0, y.0)
    requires forall i, j :: 0 <= i < j < |rest| ==> StrLt(rest[i].0, rest[j].0)
    ensures var s := [x] + rest; forall i, j :: 0 <= i < j < |s| ==> StrLt(s[i].0, s[j].0)
  {
    var s := [x] + rest;
    forall i, j | 0 <= i < j < |s| ensures StrLt(s[i].0, s[j].0) {
      assert s[j] == rest[j - 1];
      if i > 0 {
        assert s[i] == rest[i - 1];
      } else {
        assert s[j] in rest;
      }
    }
  }

  /** The characters of a list of included operators, in order. */
  function OperatorCharacters(inc: seq<(string, OperatorEntry)>, fs: SpriteFiles): seq<Character> {
    seq(|inc|, j requires 0 <= j < |inc| => OperatorCharacter(inc[j].0, inc[j].1, fs))
  }

  /** The operator loop appends exactly the characters of the operators with a basic sprite, in order. */
  lemma {:induction false} OperatorsFoldChars(items: seq<(string, OperatorEntry)>, b: Build, fs: SpriteFiles)
    ensures OperatorsFold(items, b, fs).chars == b.chars + OperatorCharacters(IncludedOperators(items, fs), fs)
    decreases |items|
  {
    if items != [] {
      var next := OperatorStep(items[0], b, fs);
      OperatorsFoldChars(items[1..], next, fs);
      var rest := OperatorCharacters(IncludedOperators(items[1..], fs), fs);
      if CharSprite(items[0].0) in fs.existing {
        var ch := OperatorCharacter(items[0].0, items[0].1, fs);
        assert IncludedOperators(items, fs) == [items[0]] + IncludedOperators(items[1..], fs);
        assert OperatorCharacters(IncludedOperators(items, fs), fs) == [ch] + rest;
        AppendAssoc(b.chars, [ch], rest);
      } else {
        assert IncludedOperators(items, fs) == IncludedOperators(items[1..], fs);
      }
    }
  }

  /** The keys of the included operators. */
  function IncludedKeys(items: seq<(string, OperatorEntry)>, fs: SpriteFiles): set<string> {
    set x | x in IncludedOperators(items, fs) :: x.0
  }

  /** The included keys of a list are those of its head, when included, and those of its tail. */
  lemma IncludedKeysCons(items: seq<(string, OperatorEntry)>, fs: SpriteFiles)
    requires items != []
    ensures IncludedKeys(items, fs)
      == (if CharSprite(items[0].0) in fs.existing then {items[0].0} else {}) + IncludedKeys(items[1..], fs)
  {
    if CharSprite(items[0].0) in fs.existing {
      assert IncludedOperators(items, fs) == [items[0]] + IncludedOperators(items[1..], fs);
    } else {
      assert IncludedOperators(items, fs) == IncludedOperators(items[1..], fs);
    }
  }

  /**
   * The operator loop records an appellation for every included operator and
   * for nothing else, and leaves the other recorded appellations alone (line 56).
   */
  lemma {:induction false} OperatorsFoldAppellationKeys(items: seq<(string, OperatorEntry)>, b: Build, fs: SpriteFiles)
    ensures OperatorsFold(items, b, fs).appellations.Keys == b.appellations.Keys + IncludedKeys(items, fs)
    ensures forall id :: id in b.appellations && id !in IncludedKeys(items, fs) ==>
      OperatorsFold(items, b, fs).appellations[id] == b.appellations[id]
    decreases |items|
  {
    if items != [] {
      OperatorsFoldAppellationKeys(items[1..], OperatorStep(items[0], b, fs), fs);
      IncludedKeysCons(items, fs);
    }
  }

  /** With distinct keys no appellation is overwritten: each included operator keeps its own (line 56). */
  lemma {:induction false} OperatorsFoldAppellations(items: seq<(string, OperatorEntry)>, b: Build, fs: SpriteFiles)
    requires forall i, j :: 0 <= i < j < |items| ==> items[i].0 != items[j].0
    ensures forall x :: x in IncludedOperators(items, fs) ==>
      x.0 in OperatorsFold(items, b, fs).appellations && OperatorsFold(items, b, fs).appellations[x.0] == x.1.appellation
    decreases |items|
  {
    if items != [] {
      var next := OperatorStep(items[0], b, fs);
      OperatorsFoldAppellations(items[1..], next, fs);
      OperatorsFoldAppellationKeys(items[1..], next, fs);
      IncludedOperatorsIff(items[1..], fs);
      assert items[0].0 !in IncludedKeys(items[1..], fs);
      if CharSprite(items[0].0) in fs.existing {
        assert IncludedOperators(items, fs) == [items[0]] + IncludedOperators(items[1..], fs);
      } else {
        assert IncludedOperators(items, fs) == IncludedOperators(items[1..], fs);
      }
    }
  }

  /** Every image name of every character has an avatar file, and every avatar file belongs to an image name. */
  ghost predicate Pictured(chars: seq<Character>, avatars: map<string, string>) {
    forall x :: x in avatars <==> x in AllImages(chars)
  }

  /** Appending a character whose image names are exactly the new avatar keys keeps the lists matched. */
  lemma PicturedAppend(chars: seq<Character>, avatars: map<string, string>, ch: Character, avatars': map<string, string>)
    requires Pictured(chars, avatars)
    requires forall x :: x in avatars' <==> x in avatars || x in ch.images
    ensures Pictured(chars + [ch], avatars')
  {
    AllImagesAppend(chars, [ch]);
    assert AllImages([ch]) == ch.images + AllImages([]);
  }

  /** One operator keeps every image matched with an avatar file. */
  lemma OperatorStepPictured(item: (string, OperatorEntry), b: Build, fs: SpriteFiles)
    requires Pictured(b.chars, b.avatars)
    ensures var r := OperatorStep(item, b, fs); Pictured(r.chars, r.avatars)
  {
    var k := item.0;
    if CharSprite(k) in fs.existing {
      var extra := ExtraFiles(k, fs);
      RecordFilesKeys(extra, b.avatars[k := CharSprite(k)]);
      var ch := OperatorCharacter(k, item.1, fs);
      assert forall x :: x in ch.images <==> x == k || x in ImageNames(extra);
      PicturedAppend(b.chars, b.avatars, ch, OperatorStep(item, b, fs).avatars);
    }
  }

  lemma {:induction false} OperatorsFoldPictured(items: seq<(string, OperatorEntry)>, b: Build, fs: SpriteFiles)
    requires Pictured(b.chars, b.avatars)
    ensures var r := OperatorsFold(items, b, fs); Pictured(r.chars, r.avatars)
    decreases |items|
  {
    if items != [] {
      OperatorStepPictured(items[0], b, fs);
      OperatorsFoldPictured(items[1..], OperatorStep(items[0], b, fs), fs);
    }
  }

  // ---------------------------------------------------------------- enemies

  /** An enemy is added when it is named (not "-") and its sprite exists (lines 70-76). */
  predicate EnemyIncluded(item: (string, EnemyEntry), fs: SpriteFiles) {
    item.1.name != "-" && EnemySprite(item.0) in fs.existing
  }

  /** The character of an included enemy: its own sprite as only image, no searches (line 79). */
  function EnemyCharacter(k: string, v: EnemyEntry): Character {
    Character(k, map["zh-cn" := v.name], map["zh-cn" := v.name], [k], [])
  }

  /** One enemy (lines 69-79). */
  function EnemyStep(item: (string, EnemyEntry), b: Build, fs: SpriteFiles): Build {
    if !EnemyIncluded(item, fs) then b
    else b.(chars := b.chars + [EnemyCharacter(item.0, item.1)], avatars := b.avatars[item.0 := EnemySprite(item.0)])
  }

  function EnemiesFold(items: seq<(string, EnemyEntry)>, b: Build, fs: SpriteFiles): Build
    decreases |items|
  {
    if items == [] then b else EnemiesFold(items[1..], EnemyStep(items[0], b, fs), fs)
  }

  /** Reference definition: the enemies that are named and have a sprite, in the given order. */
  function IncludedEnemies(items: seq<(string, EnemyEntry)>, fs: SpriteFiles): seq<(string, EnemyEntry)>
    decreases |items|
  {
    if items == [] then []
    else (if EnemyIncluded(items[0], fs) then [items[0]] else []) + IncludedEnemies(items[1..], fs)
  }

  /** An enemy is included exactly when it is listed, named other than "-" and has a sprite. */
  lemma {:induction false} IncludedEnemiesIff(items: seq<(string, EnemyEntry)>, fs: SpriteFiles)
    ensures forall x :: x in IncludedEnemies(items, fs) <==>
      x in items && x.1.name != "-" && EnemySprite(x.0) in fs.existing
    decreases |items|
  {
    if items != [] {
      IncludedEnemiesIff(items[1..], fs);
    }
  }

  function EnemyCharacters(inc: seq<(string, EnemyEntry)>): seq<Character> {
    seq(|inc|, j requires 0 <= j < |inc| => EnemyCharacter(inc[j].0, inc[j].1))
  }

  /** The enemy loop appends exactly the included enemies' characters and records no appellation. */
  lemma {:induction false} EnemiesFoldChars(items: seq<(string, EnemyEntry)>, b: Build, fs: SpriteFiles)
    ensures EnemiesFold(items, b, fs).chars == b.chars + EnemyCharacters(IncludedEnemies(items, fs))
    ensures EnemiesFold(items, b, fs).appellations == b.appellations
    decreases |items|
  {
    if items != [] {
      var next := EnemyStep(items[0], b, fs);
      EnemiesFoldChars(items[1..], next, fs);
      var rest := EnemyCharacters(IncludedEnemies(items[1..], fs));
      if EnemyIncluded(items[0], fs) {
        var ch := EnemyCharacter(items[0].0, items[0].1);
        assert IncludedEnemies(items, fs) == [items[0]] + IncludedEnemies(items[1..], fs);
        assert EnemyCharacters(IncludedEnemies(items, fs)) == [ch] + rest;
        AppendAssoc(b.chars, [ch], rest);
      } else {
        assert IncludedEnemies(items, fs) == IncludedEnemies(items[1..], fs);
      }
    }
  }

  lemma {:induction false} EnemiesFoldPictured(items: seq<(string, EnemyEntry)>, b: Build, fs: SpriteFiles)
    requires Pictured(b.chars, b.avatars)
    ensures var r := EnemiesFold(items, b, fs); Pictured(r.chars, r.avatars)
    decreases |items|
  {
    if items != [] {
      var next := EnemyStep(items[0], b, fs);
      if EnemyIncluded(items[0], fs) {
        PicturedAppend(b.chars, b.avatars, EnemyCharacter(items[0].0, items[0].1), next.avatars);
      }
      EnemiesFoldPictured(items[1..], next, fs);
    }
  }

  // ---------------------------------------------------------------- other languages

  /**
   * The table of one language after `update` (line 84), reduced to the name
   * read from it: operator names, overridden by enemy names of the same key.
   */
  function NameTable(t: GameTables): (r: map<string, string>)
    ensures r.Keys == t.operators.Keys + t.enemies.Keys
    ensures forall k :: k in t.enemies ==> r[k] == t.enemies[k].name
    ensures forall k :: k in t.operators && k !in t.enemies ==> r[k] == t.operators[k].name
  {
    (map k | k in t.operators :: t.operators[k].name) + (map k | k in t.enemies :: t.enemies[k].name)
  }

  /** `appellations[id]` on the defaultdict (lines 45, 92): "" for an id never recorded. */
  function Appellation(apps: map<string, string>, id: string): string {
    if id in apps then apps[id] else ""
  }

  /** The name a character gets for `lang` (lines 90-92): the table's, or for English and Japanese the appellation when that is empty. */
  function LangName(tbl: map<string, string>, apps: map<string, string>, id: string, lang: string): string {
    var name := if id in tbl then tbl[id] else "";
    if name == "" && (lang == "en" || lang == "ja") then Appellation(apps, id) else name
  }

  /** `ch.names[lang] = ch.short_names[lang] = name` (line 93). */
  function Named(ch: Character, lang: string, name: string): Character {
    ch.(names := ch.names[lang := name], shortNames := ch.shortNames[lang := name])
  }

  /** One language over all characters (lines 88-93). */
  function FillNames(chars: seq<Character>, lang: string, tbl: map<string, string>, apps: map<string, string>)
    : seq<Character>
  {
    seq(|chars|, i requires 0 <= i < |chars| => Named(chars[i], lang, LangName(tbl, apps, chars[i].id, lang)))
  }

  /** The languages in turn (line 87). */
  function FillLangs(chars: seq<Character>, langs: seq<string>, tables: map<string, GameTables>,
                     apps: map<string, string>): seq<Character>
    requires forall l :: l in langs ==> l in tables
    decreases |langs|
  {
    if langs == [] then chars
    else FillLangs(FillNames(chars, langs[0], NameTable(tables[langs[0]]), apps), langs[1..], tables, apps)
  }

  /** Characters that differ only in names have the same images in the same order. */
  lemma {:induction false} AllImagesSameImages(a: seq<Character>, b: seq<Character>)
    requires |a| == |b| && forall i :: 0 <= i < |a| ==> a[i].images == b[i].images
    ensures AllImages(a) == AllImages(b)
    decreases |a|
  {
    if a != [] {
      AllImagesSameImages(a[1..], b[1..]);
    }
  }

  /** Filling one language keeps ids, images and searches, adds the language to both name maps and keeps them equal when they were. */
  lemma FillNamesShape(chars: seq<Character>, lang: string, tbl: map<string, string>, apps: map<string, string>)
    ensures |FillNames(chars, lang, tbl, apps)| == |chars|
    ensures forall i :: 0 <= i < |chars| ==>
      && FillNames(chars, lang, tbl, apps)[i].id == chars[i].id
      && FillNames(chars, lang, tbl, apps)[i].images == chars[i].images
      && FillNames(chars, lang, tbl, apps)[i].searches == chars[i].searches
      && FillNames(chars, lang, tbl, apps)[i].names.Keys == chars[i].names.Keys + {lang}
      && FillNames(chars, lang, tbl, apps)[i].shortNames.Keys == chars[i].shortNames.Keys + {lang}
      && (chars[i].names == chars[i].shortNames ==>
            FillNames(chars, lang, tbl, apps)[i].names == FillNames(chars, lang, tbl, apps)[i].shortNames)
  {
  }

  /** Filling languages keeps every character's id, images and searches. */
  lemma {:induction false} FillLangsKeep(chars: seq<Character>, langs: seq<string>, tables: map<string, GameTables>,
                                         apps: map<string, string>)
    requires forall l :: l in langs ==> l in tables
    ensures |FillLangs(chars, langs, tables, apps)| == |chars|
    ensures forall i :: 0 <= i < |chars| ==>
      && FillLangs(chars, langs, tables, apps)[i].id == chars[i].id
      && FillLangs(chars, langs, tables, apps)[i].images == chars[i].images
      && FillLangs(chars, langs, tables, apps)[i].searches == chars[i].searches
    decreases |langs|
  {
    if langs != [] {
      var next := FillNames(chars, langs[0], NameTable(tables[langs[0]]), apps);
      FillNamesShape(chars, langs[0], NameTable(tables[langs[0]]), apps);
      FillLangsKeep(next, langs[1..], tables, apps);
    }
  }

  /** The languages of a list, as a set. */
  function LangSet(langs: seq<string>): set<string>
    decreases |langs|
  {
    if langs == [] then {} else {langs[0]} + LangSet(langs[1..])
  }

  /**
   * Filling languages adds exactly the filled languages to every character's
   * names and short names, and keeps its short names equal to its names when
   * they were.
   */
  lemma {:induction false} FillLangsKeys(chars: seq<Character>, langs: seq<string>, tables: map<string, GameTables>,
                                         apps: map<string, string>)
    requires forall l :: l in langs ==> l in tables
    ensures |FillLangs(chars, langs, tables, apps)| == |chars|
    ensures forall i :: 0 <= i < |chars| ==>
      && FillLangs(chars, langs, tables, apps)[i].names.Keys == chars[i].names.Keys + LangSet(langs)
      && FillLangs(chars, langs, tables, apps)[i].shortNames.Keys == chars[i].shortNames.Keys + LangSet(langs)
    ensures forall i :: 0 <= i < |chars| && chars[i].names == chars[i].shortNames ==>
      FillLangs(chars, langs, tables, apps)[i].names == FillLangs(chars, langs, tables, apps)[i].shortNames
    decreases |langs|
  {
    if langs != [] {
      var next := FillNames(chars, langs[0], NameTable(tables[langs[0]]), apps);
      FillNamesShape(chars, langs[0], NameTable(tables[langs[0]]), apps);
      FillLangsKeys(next, langs[1..], tables, apps);
    }
  }

  /**
   * Each character gets, for each filled language, the table's name as name
   * and short name, or its appellation for English and Japanese when the
   * table's name is empty or missing; its other names stay.
   */
  lemma FillNamesValues(chars: seq<Character>, lang: string, tbl: map<string, string>, apps: map<string, string>)
    ensures forall i :: 0 <= i < |chars| ==>
      var name := FillNames(chars, lang, tbl, apps)[i].names[lang];
      && FillNames(chars, lang, tbl, apps)[i].shortNames[lang] == name
      && (chars[i].id in tbl && tbl[chars[i].id] != "" ==> name == tbl[chars[i].id])
      && (lang != "en" && lang != "ja" ==> name == if chars[i].id in tbl then tbl[chars[i].id] else "")
      && ((lang == "en" || lang == "ja") && (chars[i].id !in tbl || tbl[chars[i].id] == "") ==>
            name == Appellation(apps, chars[i].id))
      && forall l :: l in chars[i].names && l != lang ==> FillNames(chars, lang, tbl, apps)[i].names[l] == chars[i].names[l]
  {
  }

  /** An id without a recorded appellation (an enemy) keeps an empty or missing table name empty (line 45). */
  lemma EnemyFallback(tbl: map<string, string>, apps: map<string, string>, id: string, lang: string)
    requires id !in apps
    ensures LangName(tbl, apps, id, lang) == if id in tbl then tbl[id] else ""
  {
  }

  // ---------------------------------------------------------------- Closure

  const ClosureId := "char_007_closre"

  /** Her fixed names in the four languages (lines 98-103). */
  const ClosureNames: map<string, string> := map[
    "zh-cn" := "\U{53EF}\U{9732}\U{5E0C}\U{5C14}",
    "zh-tw" := "\U{53EF}\U{9732}\U{5E0C}\U{723E}",
    "ja" := "\U{30AF}\U{30ED}\U{30FC}\U{30B8}\U{30E3}",
    "en" := "Closure"]

  /** Closure's character: her names as both names and short names, her id as only image (lines 104-110). */
  const ClosureCharacter := Character(ClosureId, ClosureNames, ClosureNames, [ClosureId], [])

  /** Closure is prepended, with her sprite variant as avatar file, unless her id already has one (lines 96-111). */
  function WithClosure(chars: seq<Character>, avatars: map<string, string>): (seq<Character>, map<string, string>) {
    if ClosureId in avatars then (chars, avatars)
    else ([ClosureCharacter] + chars, avatars[ClosureId := CharSpriteDir + "/" + ClosureId + "_1.png"])
  }

  /**
   * Afterwards Closure's id has an avatar file and is an image name; the list
   * gains Closure in front exactly when her id had no avatar file, and is
   * otherwise unchanged; images and avatar files stay matched.
   */
  lemma WithClosurePictured(chars: seq<Character>, avatars: map<string, string>)
    requires Pictured(chars, avatars)
    ensures var r := WithClosure(chars, avatars);
      && Pictured(r.0, r.1)
      && ClosureId in r.1 && ClosureId in AllImages(r.0)
      && (ClosureId in avatars <==> r.0 == chars)
      && (ClosureId !in avatars <==> r.0 == [ClosureCharacter] + chars)
  {
    if ClosureId !in avatars {
      AllImagesAppend([ClosureCharacter], chars);
      assert AllImages([ClosureCharacter]) == [ClosureId] + AllImages([]);
      assert |[ClosureCharacter] + chars| != |chars|;
    }
  }

  // ---------------------------------------------------------------- the whole run

  /** The characters, avatar files and appellations after both loops (lines 43-79), from their items. */
  function BuiltFrom(ops: seq<(string, OperatorEntry)>, enemies: seq<(string, EnemyEntry)>, fs: SpriteFiles): Build {
    EnemiesFold(enemies, OperatorsFold(ops, Build([], map[], map[]), fs), fs)
  }

  /** The characters, avatar files and appellations before the other languages (lines 43-79). */
  function Built(zh: GameTables, fs: SpriteFiles): Build {
    BuiltFrom(SortedItems(zh.operators), SortedItems(zh.enemies), fs)
  }

  /** `get_chars` (lines 23-113) on the tables downloaded for the four languages and the resource tree. */
  function GetCharsSpec(tables: map<string, GameTables>, fs: SpriteFiles): (seq<Character>, map<string, string>)
    requires forall l :: l in Langs ==> l in tables
  {
    var b := Built(tables["zh-cn"], fs);
    WithClosure(FillLangs(b.chars, Langs[1..], tables, b.appellations), b.avatars)
  }

  /** After both loops, the list is the included operators, then the included enemies, each in the given order. */
  lemma BuiltChars(ops: seq<(string, OperatorEntry)>, enemies: seq<(string, EnemyEntry)>, fs: SpriteFiles)
    ensures BuiltFrom(ops, enemies, fs).chars
      == OperatorCharacters(IncludedOperators(ops, fs), fs) + EnemyCharacters(IncludedEnemies(enemies, fs))
    ensures BuiltFrom(ops, enemies, fs).appellations == OperatorsFold(ops, Build([], map[], map[]), fs).appellations
  {
    var b0 := Build([], map[], map[]);
    OperatorsFoldChars(ops, b0, fs);
    EnemiesFoldChars(enemies, OperatorsFold(ops, b0, fs), fs);
    assert [] + OperatorCharacters(IncludedOperators(ops, fs), fs) == OperatorCharacters(IncludedOperators(ops, fs), fs);
  }

  /** Appellations are recorded for exactly the included operators, each its own when the keys are distinct (line 56). */
  lemma BuiltAppellations(ops: seq<(string, OperatorEntry)>, enemies: seq<(string, EnemyEntry)>, fs: SpriteFiles)
    requires forall i, j :: 0 <= i < j < |ops| ==> ops[i].0 != ops[j].0
    ensures BuiltFrom(ops, enemies, fs).appellations.Keys == IncludedKeys(ops, fs)
    ensures forall x :: x in IncludedOperators(ops, fs) ==>
      BuiltFrom(ops, enemies, fs).appellations[x.0] == x.1.appellation
  {
    BuiltChars(ops, enemies, fs);
    OperatorsFoldAppellationKeys(ops, Build([], map[], map[]), fs);
    OperatorsFoldAppellations(ops, Build([], map[], map[]), fs);
  }

  /** After both loops, the image names of the list are exactly the keys of the avatar files. */
  lemma BuiltPictured(ops: seq<(string, OperatorEntry)>, enemies: seq<(string, EnemyEntry)>, fs: SpriteFiles)
    ensures Pictured(BuiltFrom(ops, enemies, fs).chars, BuiltFrom(ops, enemies, fs).avatars)
  {
    var b0 := Build([], map[], map[]);
    assert AllImages([]) == [];
    OperatorsFoldPictured(ops, b0, fs);
    EnemiesFoldPictured(enemies, OperatorsFold(ops, b0, fs), fs);
  }

  /** After both loops, every character is named in Chinese only, with equal names and short names. */
  lemma BuiltNames(ops: seq<(string, OperatorEntry)>, enemies: seq<(string, EnemyEntry)>, fs: SpriteFiles)
    ensures NamedIn(BuiltFrom(ops, enemies, fs).chars, {"zh-cn"})
  {
    BuiltChars(ops, enemies, fs);
    var oc := OperatorCharacters(IncludedOperators(ops, fs), fs);
    var ec := EnemyCharacters(IncludedEnemies(enemies, fs));
    var chars := oc + ec;
    forall i | 0 <= i < |chars| ensures chars[i].names.Keys == {"zh-cn"} && chars[i].names == chars[i].shortNames {
      if i < |oc| {
        assert chars[i] == oc[i];
      } else {
        assert chars[i] == ec[i - |oc|];
      }
    }
  }

  /** Every character has names in exactly the given languages, and its short names equal its names. */
  predicate NamedIn(chars: seq<Character>, langs: set<string>) {
    forall i :: 0 <= i < |chars| ==> chars[i].names.Keys == langs && chars[i].names == chars[i].shortNames
  }

  /** Filling the three other languages into characters named in Chinese only names them in all four. */
  lemma FilledNamedInAll(chars: seq<Character>, tables: map<string, GameTables>, apps: map<string, string>)
    requires forall l :: l in Langs[1..] ==> l in tables
    requires NamedIn(chars, {"zh-cn"})
    ensures NamedIn(FillLangs(chars, Langs[1..], tables, apps), {"zh-cn", "ja", "en", "zh-tw"})
  {
    FillLangsKeys(chars, Langs[1..], tables, apps);
    var l := Langs[1..];
    assert l == ["ja", "en", "zh-tw"];
    assert l[1..] == ["en", "zh-tw"] && l[1..][1..] == ["zh-tw"] && l[1..][1..][1..] == [];
    assert LangSet(l[1..][1..]) == {"zh-tw"} + LangSet([]);
    assert LangSet(l[1..]) == {"en"} + LangSet(l[1..][1..]);
    assert LangSet(l) == {"ja"} + LangSet(l[1..]);
  }

  /** Putting Closure in front keeps every character named in exactly her four languages. */
  lemma WithClosureNamed(chars: seq<Character>, avatars: map<string, string>)
    requires NamedIn(chars, ClosureNames.Keys)
    ensures NamedIn(WithClosure(chars, avatars).0, ClosureNames.Keys)
  {
    if ClosureId !in avatars {
      var r := [ClosureCharacter] + chars;
      forall i | 0 <= i < |r| ensures r[i].names.Keys == ClosureNames.Keys && r[i].names == r[i].shortNames {
        if i > 0 {
          assert r[i] == chars[i - 1];
        }
      }
    }
  }

  /** Every character the run returns has names and short names in exactly the four languages, and the two agree. */
  lemma GetCharsNames(tables: map<string, GameTables>, fs: SpriteFiles)
    requires forall l :: l in Langs ==> l in tables
    ensures NamedIn(GetCharsSpec(tables, fs).0, {"zh-cn", "ja", "en", "zh-tw"})
  {
    var zh := tables["zh-cn"];
    var b := Built(zh, fs);
    BuiltNames(SortedItems(zh.operators), SortedItems(zh.enemies), fs);
    FilledNamedInAll(b.chars, tables, b.appellations);
    assert ClosureNames.Keys == {"zh-cn", "ja", "en", "zh-tw"};
    WithClosureNamed(FillLangs(b.chars, Langs[1..], tables, b.appellations), b.avatars);
  }

  /**
   * The run returns every image name with an avatar file and no avatar file
   * without an image name; Closure's id is among them, and she is put in front
   * exactly when her id had no avatar file after the two loops.
   */
  lemma GetCharsPictured(tables: map<string, GameTables>, fs: SpriteFiles)
    requires forall l :: l in Langs ==> l in tables
    ensures var r := GetCharsSpec(tables, fs);
      && Pictured(r.0, r.1)
      && ClosureId in AllImages(r.0)
    ensures var b := Built(tables["zh-cn"], fs); var filled := FillLangs(b.chars, Langs[1..], tables, b.appellations);
      GetCharsSpec(tables, fs).0 == if ClosureId in b.avatars then filled else [ClosureCharacter] + filled
  {
    var b := Built(tables["zh-cn"], fs);
    var filled := FillLangs(b.chars, Langs[1..], tables, b.appellations);
    BuiltPictured(SortedItems(tables["zh-cn"].operators), SortedItems(tables["zh-cn"].enemies), fs);
    FillLangsKeep(b.chars, Langs[1..], tables, b.appellations);
    AllImagesSameImages(filled, b.chars);
    WithClosurePictured(filled, b.avatars);
  }

  // ---------------------------------------------------------------- the loops

  /** The sprites after the basic one (lines 61-64): each recorded under its image name and appended to the images. */
  method AddExtraImages(ch: Character, files: seq<string>, avatars: map<string, string>)
    returns (ch': Character, avatars': map<string, string>)
    ensures ch' == ch.(images := ch.images + ImageNames(files))
    ensures avatars' == RecordFiles(files, avatars)
  {
    ch', avatars' := ch, avatars;
    var i := 0;
    while i < |files|
      invariant 0 <= i <= |files|
      invariant ch' == ch.(images := ch.images + ImageNames(files[..i]))
      invariant RecordFiles(files, avatars) == RecordFiles(files[i..], avatars')
    {
      assert files[i..][0] == files[i] && files[i..][1..] == files[i + 1..];
      var imgName := ImageName(files[i]);
      avatars' := avatars'[imgName := files[i]];
      ImageNamesSnoc(files, i);
      ch' := ch'.(images := ch'.images + [imgName]);
      i := i + 1;
    }
    assert files[..i] == files && files[i..] == [];
  }

  /** One operator (lines 48-66). */
  method AddOperator(item: (string, OperatorEntry), b: Build, fs: SpriteFiles) returns (b': Build)
    ensures b' == OperatorStep(item, b, fs)
  {
    var (k, v) := item;
    if CharSprite(k) !in fs.existing {
      return b;
    }
    var avatars := b.avatars[k := CharSprite(k)];
    var ch := Character(k, map["zh-cn" := v.name], map["zh-cn" := v.name], [k], [v.appellation]);
    var appellations := b.appellations[k := v.appellation];
    var additional := Glob(EliteSpriteDir, fs.elite, k) + Glob(SkinSpriteDir, fs.skins, k);
    ch, avatars := AddExtraImages(ch, additional, avatars);
    return Build(b.chars + [ch], avatars, appellations);
  }

  /** The operator loop (lines 47-66), over the Chinese character table in key order. */
  method AddOperators(table: map<string, OperatorEntry>, fs: SpriteFiles) returns (b: Build)
    ensures b == OperatorsFold(SortedItems(table), Build([], map[], map[]), fs)
  {
    var items := SortedItems(table);
    b := Build([], map[], map[]);
    var i := 0;
    while i < |items|
      invariant 0 <= i <= |items|
      invariant OperatorsFold(items, Build([], map[], map[]), fs) == OperatorsFold(items[i..], b, fs)
    {
      assert items[i..][0] == items[i] && items[i..][1..] == items[i + 1..];
      b := AddOperator(items[i], b, fs);
      i := i + 1;
    }
    assert items[i..] == [];
  }

  /** The enemy loop (lines 68-79), over the Chinese enemy table in key order. */
  method AddEnemies(table: map<string, EnemyEntry>, b0: Build, fs: SpriteFiles) returns (b: Build)
    ensures b == EnemiesFold(SortedItems(table), b0, fs)
  {
    var items := SortedItems(table);
    b := b0;
    var i := 0;
    while i < |items|
      invariant 0 <= i <= |items|
      invariant EnemiesFold(items, b0, fs) == EnemiesFold(items[i..], b, fs)
    {
      assert items[i..][0] == items[i] && items[i..][1..] == items[i + 1..];
      var (k, v) := items[i];
      if v.name != "-" && EnemySprite(k) in fs.existing {
        b := b.(chars := b.chars + [Character(k, map["zh-cn" := v.name], map["zh-cn" := v.name], [k], [])],
                avatars := b.avatars[k := EnemySprite(k)]);
      }
      i := i + 1;
    }
    assert items[i..] == [];
  }

  /** One language over all characters (lines 88-93). */
  method FillLanguage(chars: seq<Character>, lang: string, tbl: map<string, string>, apps: map<string, string>)
    returns (r: seq<Character>)
    ensures r == FillNames(chars, lang, tbl, apps)
  {
    r := chars;
    var i := 0;
    while i < |r|
      invariant 0 <= i <= |r| == |chars|
      invariant forall j :: 0 <= j < i ==> r[j] == FillNames(chars, lang, tbl, apps)[j]
      invariant forall j :: i <= j < |r| ==> r[j] == chars[j]
    {
      var ch := r[i];
      var name := if ch.id in tbl then tbl[ch.id] else "";
      if name == "" && (lang == "en" || lang == "ja") {
        name := Appellation(apps, ch.id);
      }
      r := r[i := ch.(names := ch.names[lang := name], shortNames := ch.shortNames[lang := name])];
      i := i + 1;
    }
  }

  /** `get_chars` (lines 23-113), from the downloaded tables of the four languages and the resource tree. */
  method GetChars(tables: map<string, GameTables>, fs: SpriteFiles) returns (chars: seq<Character>, avatars: map<string, string>)
    requires forall l :: l in Langs ==> l in tables
    ensures (chars, avatars) == GetCharsSpec(tables, fs)
  {
    var b := AddOperators(tables["zh-cn"].operators, fs);
    b := AddEnemies(tables["zh-cn"].enemies, b, fs);
    chars, avatars := b.chars, b.avatars;
    var j := 1;
    while j < |Langs|
      invariant 1 <= j <= |Langs|
      invariant FillLangs(b.chars, Langs[1..], tables, b.appellations)
        == FillLangs(chars, Langs[j..], tables, b.appellations)
    {
      assert Langs[j..][0] == Langs[j] && Langs[j..][1..] == Langs[j + 1..];
      chars := FillLanguage(chars, Langs[j], NameTable(tables[Langs[j]]), b.appellations);
      j := j + 1;
    }
    assert Langs[j..] == [];
    if ClosureId !in avatars {
      chars := [Character(ClosureId, ClosureNames, ClosureNames, [ClosureId], [])] + chars;
      avatars := avatars[ClosureId := CharSpriteDir + "/" + ClosureId + "_1.png"];
    }
  }
}
