/**
 * The pipeline shared by all processors (utils/resource_utils.py): which steps
 * run, the version stamps merged into versions.json, the source and
 * destination lists of the avatar and stamp images, and the filter that only
 * converts images whose output is missing.
 */
module ResourceUtils {
  import opened Results
  import opened Text
  import opened Models

  // ---------------------------------------------------------------- steps

  /** The three skip switches of the command line. */
  datatype Flags = Flags(skipChars: bool, skipStamps: bool, skipFilters: bool)

  datatype Step = Chars | Avatars | Stamps | Filters | Versions

  /** `main` (lines 54-63): the steps in the order they run. */
  function Steps(flags: Flags): (r: seq<Step>)
    ensures |r| > 0 && r[|r| - 1] == Versions
  {
    Optional(flags) + [Versions]
  }

  /** The steps before the versions, each unless skipped. */
  function Optional(flags: Flags): seq<Step> {
    (if flags.skipChars then [] else [Chars, Avatars])
    + (if flags.skipStamps then [] else [Stamps])
    + (if flags.skipFilters then [] else [Filters])
  }

  /**
   * Each of the characters, stamps and filters steps runs exactly when its skip
   * switch is off, and the avatars exactly with the characters.
   */
  lemma StepsRun(flags: Flags)
    ensures Chars in Steps(flags) <==> !flags.skipChars
    ensures Avatars in Steps(flags) <==> !flags.skipChars
    ensures Stamps in Steps(flags) <==> !flags.skipStamps
    ensures Filters in Steps(flags) <==> !flags.skipFilters
  {
    var a: seq<Step> := if flags.skipChars then [] else [Chars, Avatars];
    var b: seq<Step> := if flags.skipStamps then [] else [Stamps];
    var c: seq<Step> := if flags.skipFilters then [] else [Filters];
    assert Steps(flags) == a + b + c + [Versions];
  }

  /** The avatars come right after the characters, first of all; the versions come last and only once. */
  lemma StepsOrder(flags: Flags)
    ensures !flags.skipChars ==> Steps(flags)[0] == Chars && Steps(flags)[1] == Avatars
    ensures forall i :: 0 <= i < |Steps(flags)| - 1 ==> Steps(flags)[i] != Versions
  {
    var before := Optional(flags);
    assert Steps(flags) == before + [Versions];
    assert Versions !in before;
    assert forall i :: 0 <= i < |before| ==> Steps(flags)[i] == before[i];
  }

  // ---------------------------------------------------------------- versions

  /**
   * `_get_versions` (lines 70-74): every entry `k: v` of the processor's
   * versions becomes `key-k: v`; a KeyError when the resource versions have no
   * entry for the processor's key.
   */
  function GetVersions(key: string, resVers: map<string, map<string, string>>): Result<map<string, string>> {
    var vers :- Lookup(resVers, key, key);
    PrefixedKeysInjective(key);
    Ok(map k | k in vers :: key + "-" + k := vers[k])
  }

  /** The prefixing is one-to-one: each resource entry appears once under its prefixed key, and there is nothing else. */
  lemma GetVersionsEntries(key: string, resVers: map<string, map<string, string>>)
    ensures GetVersions(key, resVers).Ok? <==> key in resVers
    ensures GetVersions(key, resVers).Ok? ==>
      forall k :: k in resVers[key] ==>
        key + "-" + k in GetVersions(key, resVers).value && GetVersions(key, resVers).value[key + "-" + k] == resVers[key][k]
    ensures GetVersions(key, resVers).Ok? ==>
      forall x :: x in GetVersions(key, resVers).value ==>
        exists k :: k in resVers[key] && x == key + "-" + k
  {
    PrefixedKeysInjective(key);
  }

  /** Different resource keys get different prefixed keys. */
  lemma PrefixedKeysInjective(key: string)
    ensures forall a: string, b: string :: key + "-" + a == key + "-" + b ==> a == b
  {
    forall a: string, b: string | key + "-" + a == key + "-" + b ensures a == b {
      var n := |key| + 1;
      assert a == (key + "-" + a)[n..];
      assert b == (key + "-" + b)[n..];
    }
  }

  /** `all_vers.update(...)` (lines 66-68): the new entries win, old entries without a new one stay. */
  function ProcessVersions(allVers: map<string, string>, incoming: map<string, string>): (r: map<string, string>)
    ensures r.Keys == allVers.Keys + incoming.Keys
    ensures forall k :: k in incoming ==> r[k] == incoming[k]
    ensures forall k :: k in allVers && k !in incoming ==> r[k] == allVers[k]
  {
    allVers + incoming
  }

  /** Merging the same versions again changes nothing. */
  lemma ProcessVersionsIdempotent(allVers: map<string, string>, incoming: map<string, string>)
    ensures ProcessVersions(ProcessVersions(allVers, incoming), incoming) == ProcessVersions(allVers, incoming)
  {
    var once := ProcessVersions(allVers, incoming);
    assert ProcessVersions(once, incoming).Keys == once.Keys;
  }

  // ---------------------------------------------------------------- image lists

  /** `out_root / "characters" / f"{img}.webp"` (line 90). */
  function AvatarDst(outRoot: string, img: string): string {
    outRoot + "/characters/" + img + ".webp"
  }

  /**
   * `_process_avatars` (lines 89-90): the source of every image name of every
   * character, in character-then-image order, a KeyError when an image name has
   * no file; and its destination.
   */
  function AvatarLists(chars: seq<Character>, paths: map<string, string>, outRoot: string)
    : Result<(seq<string>, seq<string>)>
  {
    var imgs := AllImages(chars);
    var src :- MapAll(imgs, (img: string) => Lookup(paths, img, "image_paths[img]"));
    Ok((src, seq(|imgs|, i requires 0 <= i < |imgs| => AvatarDst(outRoot, imgs[i]))))
  }

  /**
   * The lists are built when every image name has a file; then they are equally
   * long, one pair per image name, the source its file and the destination its
   * WebP under characters/.
   */
  lemma AvatarListsPairs(chars: seq<Character>, paths: map<string, string>, outRoot: string)
    ensures AvatarLists(chars, paths, outRoot).Ok? <==> forall img :: img in AllImages(chars) ==> img in paths
    ensures AvatarLists(chars, paths, outRoot).Ok? ==>
      var imgs := AllImages(chars);
      && |AvatarLists(chars, paths, outRoot).value.0| == |imgs|
      && |AvatarLists(chars, paths, outRoot).value.1| == |imgs|
      && forall i :: 0 <= i < |imgs| ==>
           && AvatarLists(chars, paths, outRoot).value.0[i] == paths[imgs[i]]
           && AvatarLists(chars, paths, outRoot).value.1[i] == AvatarDst(outRoot, imgs[i])
  {
    var imgs := AllImages(chars);
    var f := (img: string) => Lookup(paths, img, "image_paths[img]");
    assert (forall i :: 0 <= i < |imgs| ==> f(imgs[i]).Ok?) <==> forall img :: img in imgs ==> img in paths;
  }

  /** `os.path.splitext(os.path.split(f)[1])[0]` (line 101). */
  function StampName(f: string): string {
    SplitExtRoot(PathName(f))
  }

  /** The output file of a stamp (line 104): `<out>/stamps/<name>.webp`. */
  function StampDst(outRoot: string, name: string): string {
    outRoot + "/stamps/" + name + ".webp"
  }

  /**
   * The stamp names and their destinations (lines 101-104): one of each per
   * stamp file, in input order, the i-th name that of the i-th file and the i-th
   * destination the output file of that name.
   */
  function StampLists(files: seq<string>, outRoot: string): (r: (seq<string>, seq<string>))
    ensures |r.0| == |files| && |r.1| == |files|
    ensures forall i :: 0 <= i < |files| ==> r.0[i] == StampName(files[i]) && r.1[i] == StampDst(outRoot, r.0[i])
  {
    var names := seq(|files|, i requires 0 <= i < |files| => StampName(files[i]));
    (names, seq(|names|, i requires 0 <= i < |names| => StampDst(outRoot, names[i])))
  }

  /** Different stamp names never share an output file. */
  lemma StampDstInjective(outRoot: string, a: string, b: string)
    requires StampDst(outRoot, a) == StampDst(outRoot, b)
    ensures a == b
  {
    var prefix := outRoot + "/stamps/";
    var x := StampDst(outRoot, a);
    assert x == prefix + a + ".webp" && x == prefix + b + ".webp";
    assert |a| == |b|;
    assert a == x[|prefix|..|prefix| + |a|];
    assert b == x[|prefix|..|prefix| + |b|];
  }

  /**
   * For files `dir/n.png` the names written to stamps.json are the `n`s, in
   * order, and distinct files get distinct destinations.
   */
  lemma StampListsOfPng(dir: string, ns: seq<string>, outRoot: string)
    requires forall i :: 0 <= i < |ns| ==> '/' !in ns[i] && exists j :: 0 <= j < |ns[i]| && ns[i][j] != '.'
    ensures var files := seq(|ns|, i requires 0 <= i < |ns| => dir + "/" + ns[i] + ".png");
      && StampLists(files, outRoot).0 == ns
      && forall i, j :: 0 <= i < |ns| && 0 <= j < |ns| && files[i] != files[j] ==>
           StampLists(files, outRoot).1[i] != StampLists(files, outRoot).1[j]
  {
    var files := seq(|ns|, i requires 0 <= i < |ns| => dir + "/" + ns[i] + ".png");
    var r := StampLists(files, outRoot);
    forall i | 0 <= i < |ns| ensures r.0[i] == ns[i] {
      StampNameOf(dir, ns[i]);
    }
    forall i, j | 0 <= i < |ns| && 0 <= j < |ns| && files[i] != files[j] ensures r.1[i] != r.1[j] {
      if r.1[i] == r.1[j] {
        StampDstInjective(outRoot, ns[i], ns[j]);
      }
    }
  }

  /** The name of `dir/n.png` is `n`, when `n` has no slash and is not only dots. */
  lemma StampNameOf(dir: string, n: string)
    requires '/' !in n
    requires exists j :: 0 <= j < |n| && n[j] != '.'
    ensures StampName(dir + "/" + n + ".png") == n
  {
    var base := n + ".png";
    assert dir + "/" + n + ".png" == dir + ['/'] + base;
    LastSegmentAfter(dir, '/', base);
    SplitExtRootPng(n);
  }

  /** Splitting the extension off `n.png` gives back `n`, when `n` is not only dots. */
  lemma SplitExtRootPng(n: string)
    requires exists j :: 0 <= j < |n| && n[j] != '.'
    ensures SplitExtRoot(n + ".png") == n
  {
    var base := n + ".png";
    assert base[|n|] == '.' && forall j :: |n| < j < |base| ==> base[j] != '.';
    var j :| 0 <= j < |n| && n[j] != '.';
    assert base[j] == n[j];
    assert base[..|n|] == n;
  }

  // ---------------------------------------------------------------- the pending filter

  /** `list(zip(src_files, dst_files))` (line 111): pairs up to the shorter list. */
  function Zip(src: seq<string>, dst: seq<string>): (r: seq<(string, string)>)
    ensures |r| == if |src| < |dst| then |src| else |dst|
  {
    var n := if |src| < |dst| then |src| else |dst|;
    seq(n, i requires 0 <= i < n => (src[i], dst[i]))
  }

  /** The pairs whose destination is not yet a file (lines 112-114), in order. */
  function Pending(pairs: seq<(string, string)>, files: set<string>): seq<(string, string)> {
    if pairs == [] then []
    else (if pairs[0].1 in files then [] else [pairs[0]]) + Pending(pairs[1..], files)
  }

  /** A pair is pending exactly when it is listed and its destination is missing. */
  lemma {:induction false} PendingMembers(pairs: seq<(string, string)>, files: set<string>)
    ensures forall p :: p in Pending(pairs, files) <==> p in pairs && p.1 !in files
    ensures |Pending(pairs, files)| <= |pairs|
    decreases |pairs|
  {
    if pairs != [] {
      PendingMembers(pairs[1..], files);
      assert forall p :: p in pairs <==> p == pairs[0] || p in pairs[1..];
    }
  }

  /** The filter keeps order: it filters each part of a concatenation separately. */
  lemma {:induction false} PendingAppend(a: seq<(string, string)>, b: seq<(string, string)>, files: set<string>)
    ensures Pending(a + b, files) == Pending(a, files) + Pending(b, files)
    decreases |a|
  {
    if a == [] {
      assert a + b == b;
    } else {
      assert (a + b)[0] == a[0] && (a + b)[1..] == a[1..] + b;
      PendingAppend(a[1..], b, files);
      AppendAssoc(if a[0].1 in files then [] else [a[0]], Pending(a[1..], files), Pending(b, files));
    }
  }

  /** The destinations of some pairs. */
  function Dsts(pairs: seq<(string, string)>): set<string> {
    set p | p in pairs :: p.1
  }

  /** Nothing is pending when every destination is a file. */
  lemma {:induction false} PendingNone(pairs: seq<(string, string)>, files: set<string>)
    requires forall p :: p in pairs ==> p.1 in files
    ensures Pending(pairs, files) == []
    decreases |pairs|
  {
    if pairs != [] {
      assert pairs[0] in pairs;
      PendingNone(pairs[1..], files);
    }
  }

  /** Once the pending images are written, a rerun finds nothing pending. */
  lemma PendingRerun(pairs: seq<(string, string)>, files: set<string>)
    ensures Pending(pairs, files + Dsts(Pending(pairs, files))) == []
  {
    var after := files + Dsts(Pending(pairs, files));
    PendingMembers(pairs, files);
    forall p | p in pairs ensures p.1 in after {
      if p.1 !in files {
        assert p in Pending(pairs, files);
      }
    }
    PendingNone(pairs, after);
  }

  /**
   * `_process_image_list` (lines 110-126): the pairs are zipped and filtered,
   * nothing happens when none is pending, and each pending pair is converted in
   * order, its destination becoming a file.
   */
  method ProcessImageList(src: seq<string>, dst: seq<string>, files: set<string>)
    returns (processed: seq<(string, string)>, files': set<string>)
    ensures processed == Pending(Zip(src, dst), files)
    ensures files' == files + Dsts(processed)
  {
    var allFiles := Zip(src, dst);
    var pending := Pending(allFiles, files);
    processed, files' := [], files;
    if |pending| == 0 {
      assert Dsts([]) == {};
      return;
    }
    var i := 0;
    while i < |pending|
      invariant 0 <= i <= |pending|
      invariant processed == pending[..i]
      invariant files' == files + Dsts(pending[..i])
    {
      var (s, d) := pending[i];
      assert pending[..i + 1] == pending[..i] + [(s, d)];
      processed := processed + [(s, d)];
      files' := files' + {d};
      i := i + 1;
    }
    assert pending[..i] == pending;
  }

  /**
   * `_process_stamps` (lines 98-108): the stamp names and destinations are
   * listed, the stamps whose output file is missing are converted, and the
   * names are what stamps.json receives.
   */
  method ProcessStamps(stampFiles: seq<string>, outRoot: string, files: set<string>)
    returns (names: seq<string>, processed: seq<(string, string)>, files': set<string>)
    ensures names == StampLists(stampFiles, outRoot).0
    ensures processed == Pending(Zip(stampFiles, StampLists(stampFiles, outRoot).1), files)
    ensures files' == files + Dsts(processed)
  {
    var lists := StampLists(stampFiles, outRoot);
    names := lists.0;
    processed, files' := ProcessImageList(stampFiles, lists.1, files);
  }

  /** Every stamp is paired with its own destination, so after a run each one's output file exists. */
  lemma StampsAllConverted(stampFiles: seq<string>, outRoot: string, files: set<string>)
    ensures var dsts := StampLists(stampFiles, outRoot).1;
      var after := files + Dsts(Pending(Zip(stampFiles, dsts), files));
      forall i :: 0 <= i < |stampFiles| ==> dsts[i] in after
  {
    var dsts := StampLists(stampFiles, outRoot).1;
    var pairs := Zip(stampFiles, dsts);
    PendingMembers(pairs, files);
    forall i | 0 <= i < |stampFiles| ensures dsts[i] in files + Dsts(Pending(pairs, files)) {
      assert pairs[i] == (stampFiles[i], dsts[i]);
      if dsts[i] !in files {
        assert pairs[i] in Pending(pairs, files);
      }
    }
  }
}
