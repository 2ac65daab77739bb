# ClosureTalk resource scripts, modelled in Dafny

ClosureTalk's resource scripts build the character catalogues of a chat-mockup
site for two games. This project models their core logic in Dafny and proves
what that logic promises. File reads, downloads, image encoding and writes are
left out. Loaded tables, directory listings and the set of existing files are
inputs.

The model covers four groups of scripts:

- **The profile ↔ portrait join** (`blue_archive/update_data.py`).
  - Scenario portraits are indexed by Japanese display name.
  - Every profile whose personal name has portraits becomes one record.
  - Names with portraits but no profile are reported.
  - Ids come from `name_to_id` (`blue_archive/common.py`). They pass through an override map, which `blue_archive/legacy/init_id_mapping.py` infers.
- **Catalogue assembly**: the `get_chars` of the current Blue Archive processor (`get_resources_v3.py`), of the two older ones (`get_resources_v2.py`, `get_resources.py`) and of the Arknights processor.
  - Default translations and short names.
  - Image-spec parsing.
  - Unique image names.
  - The unused-portrait set.
  - The candidate-file search, with its rewrite of the mapping file.
  - The per-language name tables, the appellation fallback and the Closure insertion.
  - The orderings.
  - The stamp order and the filter panels.
- **The legacy migrations**: `init_v3.py`, `init_groups.py`, `init_lang.py` and `check_compatibility.py`.
- **The shared pipeline** (`utils/resource_utils.py`):
  - the steps that run;
  - the version stamps;
  - the source and destination image lists;
  - the filter that converts only images whose output is missing.

Where the scripts loop and update state, the model does the same.
- A `method` carries a `while` loop and its invariants. Each method's `ensures` equates its result to a specification function, usually a fold over the input.
- The promises of the source are proved as lemmas about those functions.
- Comprehensions and single expressions become functions.

Python exceptions become `Results.Result` values. The error cases are part of every contract: `KeyError`, `IndexError`, `ValueError`, and a failed `assert` (`AssertionError`). `romkan.to_roma` is a function-valued parameter, `Common.Romanizer`, about which nothing is assumed.

Sorting follows Python's `sorted`:
- `Sorting.SortBy` is a stable insertion sort on a key order;
- `Sorting.SortedFromSet` lists a set once each, in increasing order;
- string order is code-point order (`Text.StrLe`, a proved total order).

Two facts about the code shape the join and the catalogues:
- Images are not owned exclusively at the join. Every profile sharing a personal name gets the whole portrait set (`blue_archive/update_data.py:42`). Uniqueness of image names is only an assertion in the catalogue scripts (`get_resources_v3.py:101`, `get_resources_v2.py:113`).
- A portrait name without a profile gets no record of its own. The script only reports it (`update_data.py:48-54`).

## Model

| member | source | states |
|---|---|---|
| Common.NameToId | blue_archive/common.py:45-47 | The id is the romaji with its first letter upper-cased and the rest unchanged, so it has the romaji's length; an IndexError exactly when the romaji is empty |
| Common.NameToIdCapitalized | blue_archive/common.py:47 | Capitalizing a derived id again gives it back unchanged |
| Common.LoadExcelTableList | blue_archive/common.py:38-42 | One record per `DataList` element, the i-th built from the i-th element |
| Text.CapitalizeFirst | blue_archive/common.py:47 | `s[0].upper() + s[1:]` with ASCII case mapping: same length, first letter upper-cased, rest unchanged; an IndexError exactly on "" |
| Text.Lower | blue_archive/get_resources_v3.py:135 | `str.lower` with ASCII case mapping, letter by letter, same length |
| Text.JoinSplit | blue_archive/get_resources_v3.py:82 | Joining the pieces of `s.split(sep)` with `sep` gives `s` back |
| Text.Split | blue_archive/get_resources_v3.py:82 | `s.split(sep)` has at least one piece, and no piece holds the separator |
| Text.SplitJoin | blue_archive/get_resources_v3.py:94-95 | Splitting a join recovers the pieces when none holds the separator |
| Text.LastSegment | blue_archive/get_resources_v2.py:19 | `s.split(sep)[-1]` is the suffix of `s` after its last separator and holds no separator |
| Text.LastSegmentAfter | blue_archive/get_resources_v2.py:19 | The last segment of `a + sep + b` is `b` when `b` has no separator |
| Text.StripStart | blue_archive/get_resources_v2.py:68 | `lstrip()` drops the longest prefix of Python whitespace (ASCII, NEL, and the Unicode space, line and paragraph separators): every dropped character is whitespace and the result has no leading whitespace |
| Text.StripEnd | blue_archive/get_resources_v2.py:68 | `rstrip()` drops the longest suffix of Python whitespace: every dropped character is whitespace and the result has no trailing whitespace |
| Text.Index | blue_archive/get_resources_v3.py:98 | `s.index(pat)` is the lowest occurrence; a ValueError exactly when there is none |
| Text.RFind | blue_archive/legacy/init_v3.py:25 | The last position of a character, or none when it does not occur |
| Text.PathStem | blue_archive/legacy/init_v3.py:25 | `Path(f).stem` is a prefix of the file name |
| Text.PathStemPng | blue_archive/legacy/init_v3.py:25 | The stem of `d/n.png` is `n`, for any non-empty `n` without `/` |
| Text.SplitExtRoot | utils/resource_utils.py:101 | `os.path.splitext(name)[0]` is a prefix of the name |
| Text.StrLeIsTotalOrder | blue_archive/legacy/init_lang.py:22 | String comparison is reflexive, total, antisymmetric and transitive |
| Text.DecimalString | blue_archive/legacy/check_compatibility.py:19 | `str(n)` is a string of digits |
| Text.ParseDecimalString | blue_archive/get_resources_v3.py:142 | `int(str(n)) == n` |
| Sorting.SortBy | blue_archive/legacy/init_lang.py:22 | `sorted(s, key=...)` is a permutation of `s` of the same length |
| Sorting.SortBySorted | blue_archive/legacy/init_lang.py:22 | On a total preorder the result of `sorted` is in order |
| Sorting.SortByStable | blue_archive/legacy/init_lang.py:22 | `sorted` is stable: on a total preorder, the elements equal to any given one keep their input order |
| Sorting.SortStrings | blue_archive/legacy/init_groups.py:33 | `sorted(strings)` is in order and a permutation of its input |
| Sorting.SortedFromSet | blue_archive/update_data.py:42 | `sorted(list(s))` for a set lists each element once, in strictly increasing order |
| Sorting.SortedItemsFacts | blue_archive/legacy/init_groups.py:14-17 | The items of a dict sorted by key hold every entry once, in strictly increasing key order |
| Sorting.SortedItemsDistinct | arknights/get_resources.py:47 | The keys of a dict's sorted items are pairwise different |
| Results.Lookup | utils/resource_utils.py:73 | `m[k]` gives the value of `k`, a KeyError exactly when `k` is absent |
| Results.MapAll | utils/resource_utils.py:89 | A list comprehension whose element function may raise: all values in order, or the error of the first element that raises |
| Results.MapAllFirstError | utils/resource_utils.py:89 | When the first `i` elements succeed and element `i` raises, the comprehension raises that error |
| UpdateData.BuildPortraitIndex | blue_archive/update_data.py:23-27 | The loop builds the index of the row-by-row specification |
| UpdateData.PortraitIndexIndexed | blue_archive/update_data.py:23-27 | The index maps a name to a portrait exactly when a scenario entry pairs them and the portrait is not a `NPC_Portrait_Null` placeholder; no name maps to an empty set |
| UpdateData.IndexedExtend | blue_archive/update_data.py:24-27 | One more scenario entry adds exactly its own pair, unless its portrait is a placeholder |
| UpdateData.GetId | blue_archive/update_data.py:31-33 | The override of the derived id when there is one, else the derived id; an IndexError exactly on empty romaji |
| UpdateData.Emitted | blue_archive/update_data.py:44-45 | The profiles kept are exactly those whose personal name is an index key, no more than the profiles |
| UpdateData.EmittedAppend | blue_archive/update_data.py:44-45 | The filter keeps profile order: filtering a concatenation concatenates the filtered parts |
| UpdateData.EmittedSingle | blue_archive/update_data.py:45 | A single profile is kept exactly when its personal name is indexed |
| UpdateData.EmittedNames | blue_archive/update_data.py:45 | An indexed name belongs to a kept profile exactly when some profile carries it |
| UpdateData.Records | blue_archive/update_data.py:35-46 | One record per kept profile, in order; the first IndexError ends the list |
| UpdateData.CharRecords | blue_archive/update_data.py:35-46 | The list succeeds exactly when every kept name has non-empty romaji. Then the k-th record is built from the k-th kept profile: its id, its copied fields and its name's sorted portraits |
| UpdateData.SharedNameSharedImages | blue_archive/update_data.py:42 | Two records with the same personal name have identical portrait lists |
| UpdateData.RecordImages | blue_archive/update_data.py:42 | A record's portraits are strictly increasing and are exactly its name's portraits |
| UpdateData.ImagesWithoutProfiles | blue_archive/update_data.py:48-51 | Exactly the index keys that no profile carries, each with its portrait set unchanged |
| UpdateData.IndexKeysPartition | blue_archive/update_data.py:35-51 | Every indexed name is either some record's personal name or reported without profile, never both |
| UpdateData.UpdateCharData | blue_archive/update_data.py:23-51 | The records are those of the portrait index, one per profile with portraits in profile order, or the first IndexError. Each lists exactly the portraits the scenario gives its name, never none. The report holds exactly the portrait names no profile carries, with exactly their portraits |
| InitIdMapping.ExistingIds | blue_archive/legacy/init_id_mapping.py:25-27 | A KeyError exactly when some character has no Japanese short name. Otherwise each key traces to a character with that short name and id |
| InitIdMapping.ExistingIdsLast | blue_archive/legacy/init_id_mapping.py:25-27 | Each short name maps to the id of the last character with that short name |
| InitIdMapping.MappingsFoldOk | blue_archive/legacy/init_id_mapping.py:29-41 | The loop raises exactly when a looked-up name (non-empty, with a published id) has empty romaji |
| InitIdMapping.MappingsFoldEntries | blue_archive/legacy/init_id_mapping.py:30-41 | The loop never adds an identity pair, and every value is a published id. Every new key comes from a profile with a non-empty name whose published id differs from its derived id |
| InitIdMapping.MappingsFoldLast | blue_archive/legacy/init_id_mapping.py:41 | A derived id maps to the published id of the last profile contributing it |
| InitIdMapping.MappingsFoldKeeps | blue_archive/legacy/init_id_mapping.py:31-41 | A key that no later profile contributes keeps its value |
| InitIdMapping.InitIdMappingEntries | blue_archive/legacy/init_id_mapping.py:25-41 | In the result, no key maps to itself. Every value is some character's id, and every key is `name_to_id` of some profile's name |
| InitIdMapping.InitIdMappingMain | blue_archive/legacy/init_id_mapping.py:25-43 | The loop, with both `continue`s, computes the specification's map or error |
| InitV3.RewriteFileParses | blue_archive/legacy/init_v3.py:25 | A rewritten `name:file` parses back to the name and the file under the v3 spec parser, and an unmapped file keeps its path, when nothing contains a colon |
| InitV3.ImageFiles | blue_archive/legacy/init_v3.py:24-26 | A character's files come out sorted, as many as it listed, as a permutation of the rewritten files |
| InitV3.IdsMembers | blue_archive/legacy/init_v3.py:19-29 | An id is a key exactly when some character has it |
| InitV3.BuildDataKeys | blue_archive/legacy/init_v3.py:19-29 | The data has exactly the characters' ids as keys |
| InitV3.BuildDataLast | blue_archive/legacy/init_v3.py:19-29 | An id's entry is that of the last character with the id |
| InitV3.WithoutShibasekMembers | blue_archive/legacy/init_v3.py:30 | The filter keeps exactly the files whose stem is not `Student_Portrait_Serika_Shibasek` |
| InitV3.WithoutShibasekAppend | blue_archive/legacy/init_v3.py:30 | The filter keeps order: filtering a concatenation concatenates the filtered parts |
| InitV3.WithoutShibasekNone | blue_archive/legacy/init_v3.py:30 | A list without that portrait is unchanged |
| InitV3.DropShibasek | blue_archive/legacy/init_v3.py:30 | A KeyError exactly when "Serika" is missing. Otherwise only Serika's files are filtered, and her other fields and every other entry are unchanged |
| InitV3.InitV3Entries | blue_archive/legacy/init_v3.py:14-30 | The script succeeds exactly when some character is "Serika". Every other id's entry copies its last character's name parts and has that character's rewritten files, sorted, equally many |
| InitGroups.LangGroupsListing | blue_archive/legacy/init_groups.py:14-17 | The title listing has one entry per group of the file, with its own titles, in strictly increasing id order |
| InitGroups.LangGroupsComplete | blue_archive/legacy/init_groups.py:14-17 | Every group of the file is listed |
| InitGroups.HitsCount | blue_archive/legacy/init_groups.py:29-31 | A character's id is appended to a group once per occurrence of the group among its searches, and nothing else is |
| InitGroups.MembersIff | blue_archive/legacy/init_groups.py:28-31 | An id is a member of a group exactly when a character with that id searches for it |
| InitGroups.GroupsSpecMembers | blue_archive/legacy/init_groups.py:21-35 | The groups follow the title listing in id order. Each group's members are sorted, are the collected ids counted once per search, and are exactly the ids of characters searching for it |
| InitGroups.AddMembers | blue_archive/legacy/init_groups.py:29-31 | The inner loop appends the id to each known group once per matching search; unknown searches change nothing |
| InitGroups.CollectMembers | blue_archive/legacy/init_groups.py:28-31 | The character loop appends exactly the collected members to every group and adds no group |
| InitGroups.SortMembers | blue_archive/legacy/init_groups.py:32-33 | Every group keeps its id and gets its members sorted |
| InitGroups.OrderGroups | blue_archive/legacy/init_groups.py:32-35 | Sorted members, groups in id order, as the specification says |
| InitGroups.InitGroupsType | blue_archive/legacy/init_groups.py:13-35 | One type: the title listing and the membership, both as specified |
| InitGroups.InitGroupsMain | blue_archive/legacy/init_groups.py:9-37 | Clubs, then schools, each as specified |
| InitLang.DefaultedKeys | blue_archive/legacy/init_lang.py:17-18 | A table has exactly the supported languages. A language the character has keeps its text, and any other gets "" |
| InitLang.DefaultedIdempotent | blue_archive/legacy/init_lang.py:17-18 | Defaulting twice changes nothing, and a table with exactly the supported languages is unchanged |
| InitLang.InitLangEntries | blue_archive/legacy/init_lang.py:14-22 | One entry per character, as a permutation of the entries, in case-sensitive id order |
| InitLang.InitLangStable | blue_archive/legacy/init_lang.py:22 | Entries with equal ids keep the order of their characters |
| InitLang.InitLangEntryShape | blue_archive/legacy/init_lang.py:14-21 | Each entry is some character's id with both name tables defaulted to exactly the supported languages |
| CheckCompatibility.Compare | blue_archive/legacy/check_compatibility.py:13-17 | Missing = old ids not among the new; added = new ids not among the old |
| CheckCompatibility.CompareDuplicate | blue_archive/legacy/check_compatibility.py:13-17 | Only the id sets matter: repeating an old or a new id changes nothing in the report |
| CheckCompatibility.CompareDisjoint | blue_archive/legacy/check_compatibility.py:16-17 | Missing is disjoint from new, added from old, and the two from each other. Both are empty exactly when the id sets are equal |
| CheckCompatibility.CompareListing | blue_archive/legacy/check_compatibility.py:21 | The listing holds each missing id once, in increasing order |
| CheckCompatibility.Lines | blue_archive/legacy/check_compatibility.py:19-22 | The missing count first and the added count last. The listing, each id on its own indented line, sits between them exactly when something is missing |
| ResourceUtils.Steps | utils/resource_utils.py:54-63 | The versions step always runs, and runs last |
| ResourceUtils.StepsRun | utils/resource_utils.py:56-62 | The characters, stamps and filters steps each run exactly when their skip switch is off, and the avatars exactly with the characters |
| ResourceUtils.StepsOrder | utils/resource_utils.py:56-63 | The characters come first and the avatars right after them; the versions appear only at the end |
| ResourceUtils.GetVersionsEntries | utils/resource_utils.py:70-74 | A KeyError exactly when the processor's key is missing. Otherwise each entry `k: v` appears as `key-k: v`, and nothing else does |
| ResourceUtils.PrefixedKeysInjective | utils/resource_utils.py:73 | Different keys get different prefixed keys |
| ResourceUtils.ProcessVersions | utils/resource_utils.py:65-68 | New entries win; old entries without a new one stay; no other key appears |
| ResourceUtils.ProcessVersionsIdempotent | utils/resource_utils.py:67 | Merging the same versions again changes nothing |
| ResourceUtils.AvatarListsPairs | utils/resource_utils.py:87-90 | The lists are built exactly when every image name has a file. They are equally long, one pair per image name in character-then-image order: the name's file and `characters/<name>.webp` |
| ResourceUtils.StampNameOf | utils/resource_utils.py:101 | The name of `dir/n.png` is `n` when `n` has no slash and is not only dots |
| ResourceUtils.SplitExtRootPng | utils/resource_utils.py:101 | `os.path.splitext(n + ".png")[0] == n` when `n` is not only dots |
| ResourceUtils.StampLists | utils/resource_utils.py:101-104 | One name and one destination per stamp file, in order: the file's name without extension and `<out>/stamps/<name>.webp` |
| ResourceUtils.StampDstInjective | utils/resource_utils.py:104 | Different stamp names never share an output file |
| ResourceUtils.StampListsOfPng | utils/resource_utils.py:101-108 | For files `dir/n.png` the names written to stamps.json are the `n`s in order, and distinct files get distinct destinations |
| ResourceUtils.Zip | utils/resource_utils.py:111 | `zip` stops at the shorter list |
| ResourceUtils.PendingMembers | utils/resource_utils.py:112-114 | A pair is pending exactly when it is listed and its destination is not a file |
| ResourceUtils.PendingAppend | utils/resource_utils.py:112-114 | The pending filter keeps order |
| ResourceUtils.PendingNone | utils/resource_utils.py:117-118 | Nothing is pending when every destination exists |
| ResourceUtils.PendingRerun | utils/resource_utils.py:110-126 | Once the pending images are written, a rerun finds nothing pending |
| ResourceUtils.ProcessImageList | utils/resource_utils.py:110-126 | Exactly the pending pairs are converted, in order; afterwards their destinations are files too |
| ResourceUtils.ProcessStamps | utils/resource_utils.py:98-108 | The stamp names as listed, and exactly the stamps whose output is missing converted, in order |
| ResourceUtils.StampsAllConverted | utils/resource_utils.py:98-108 | After the conversion every stamp's output file exists |
| ResourcesV3.TitleFromId | blue_archive/get_resources_v3.py:31 | The English title succeeds exactly when no `_`-segment of the id is empty |
| ResourcesV3.TitleWords | blue_archive/get_resources_v3.py:31 | For an id without spaces, the title's words are its non-"npc" segments, each capitalized |
| ResourcesV3.DefaultLangData | blue_archive/get_resources_v3.py:22-42 | With a family name: "family personal" in Japanese, and in English the romanized family reading followed by the romanized personal reading, or by the id when there is none. Without one: the personal name and the id's title. "" for ko, zh-cn and zh-tw. Errors exactly on an empty romaji or segment |
| ResourcesV3.DefaultEnglishShortName | blue_archive/get_resources_v3.py:29-82 | A new family-less character gets the last capitalized segment of its id as English short name |
| ResourcesV3.ShortNamesOk | blue_archive/get_resources_v3.py:79-82 | The short names are found exactly when every language keeps a manual one or has a full name |
| ResourcesV3.ShortNamesKeys | blue_archive/get_resources_v3.py:79-82 | The short names are the manual ones plus one per language |
| ResourcesV3.ShortNamesValues | blue_archive/get_resources_v3.py:79-82 | A non-empty manual short name stays; any other becomes the last space-separated word of the full name |
| ResourcesV3.FillShortNames | blue_archive/get_resources_v3.py:79-82 | The loop computes the specification's short names |
| ResourcesV3.ParseImageSpec | blue_archive/get_resources_v3.py:93-98 | `name:path` splits at its only colon, and a ValueError is raised unless there is exactly one. Otherwise the path is the spec itself and the name follows the first `Portrait_` of the file name, a ValueError without one |
| ResourcesV3.ImageSpecRoundTrip | blue_archive/get_resources_v3.py:94-95 | Parsing `name:path` recovers both when neither has a colon |
| ResourcesV3.InitialUnused | blue_archive/get_resources_v3.py:52-53 | The stems of the non-`_Small` portraits without Serika's Shibasek portrait; a KeyError exactly when that portrait is not among them |
| ResourcesV3.AddImage | blue_archive/get_resources_v3.py:93-110 | An entry succeeds exactly when it parses, its name is non-empty and new, and its `.png` exists. Then the name is appended, its file recorded and its stem no longer unused |
| ResourcesV3.AddNameInv | blue_archive/get_resources_v3.py:100-110 | Recording a new non-empty name with an existing file keeps the avatar invariant |
| ResourcesV3.AddImagesNames | blue_archive/get_resources_v3.py:93-108 | A successful image loop appends exactly the names of the entry's specs, one per spec, in order |
| ResourcesV3.AddImageFiles | blue_archive/get_resources_v3.py:93-110 | The image loop computes the specification's fold |
| ResourcesV3.GroupsOf | blue_archive/get_resources_v3.py:89 | The groups listing the character are exactly those whose members contain its id |
| ResourcesV3.AddCharacter | blue_archive/get_resources_v3.py:71-117 | One iteration computes the specification's step |
| ResourcesV3.CharsFoldTranslationKeys | blue_archive/get_resources_v3.py:72-76 | Translations exist for exactly the earlier ids and the ids of chars.yaml |
| ResourcesV3.CharsFoldUpdated | blue_archive/get_resources_v3.py:67-76 | The translations count as updated exactly when some id had none |
| ResourcesV3.CharsFoldDefaults | blue_archive/get_resources_v3.py:75 | Every added translation is the default of an entry with that id |
| ResourcesV3.CharStepTranslations | blue_archive/get_resources_v3.py:72-76 | One step adds a translation for its id only, keeps the old ones, raises the flag exactly when the id was new, and then stores the id's default |
| ResourcesV3.CharStepBuilds | blue_archive/get_resources_v3.py:84-113 | One step keeps the earlier characters and appends the character of its entry: its translation's names and short names, the sorted names of its image specs, and its sorted groups |
| ResourcesV3.CharsFoldBuiltFrom | blue_archive/get_resources_v3.py:84-113 | The loop appends one character per entry, in order: each has its entry's id, its translation's names and short names, exactly the sorted names of its image specs, and its sorted groups |
| ResourcesV3.GetCharsImagesUnique | blue_archive/get_resources_v3.py:100-107 | No image name appears twice in the catalogue. The names are exactly the avatar keys; each is non-empty and its file exists |
| ResourcesV3.GetCharsUnused | blue_archive/get_resources_v3.py:52-110 | The unused set is the initial candidates less the stem of every avatar file |
| ResourcesV3.GetCharsTranslations | blue_archive/get_resources_v3.py:72-76 | Existing translations stay unchanged and every id gains one. Each added one is that id's default, and the flag is raised exactly when some id lacked one |
| ResourcesV3.GetCharsCatalogue | blue_archive/get_resources_v3.py:84-135 | The catalogue is the characters built one per entry (id, translation's names and short names, sorted image-spec names, sorted groups), each kept exactly once, rearranged in order of lower-cased id |
| ResourcesV3.SortedBuilt | blue_archive/get_resources_v3.py:135 | Sorting by lower-cased id is a permutation of the built characters, in that order |
| ResourcesV3.GetChars | blue_archive/get_resources_v3.py:49-136 | The whole loop computes the specification's catalogue, avatar files, unused set and translations |
| ResourcesV3.GetStamps | blue_archive/get_resources_v3.py:138-142 | The stamps are listed exactly when every file's number can be read |
| ResourcesV3.GetStampsPermutation | blue_archive/get_resources_v3.py:142 | The stamps are the globbed files reordered |
| ResourcesV3.GetStampsStable | blue_archive/get_resources_v3.py:142 | Files with equal numbers keep their glob order |
| ResourcesV3.GetStampsError | blue_archive/get_resources_v3.py:142 | A failure is the error of the first unreadable name |
| ResourcesV3.GetStampsOrdered | blue_archive/get_resources_v3.py:142 | The stamps come in nondecreasing order of their numbers |
| ResourcesV3.StampKeyOfName | blue_archive/get_resources_v3.py:141-142 | `ClanChat_Emoji_<n>_Jp.png` in any directory has number `n` |
| ResourcesV3.GroupTitles | blue_archive/get_resources_v3.py:151-152 | Exactly the supported languages, each with its title or "" for none; a KeyError exactly when a language has no entry |
| ResourcesV3.SortedGroups | blue_archive/get_resources_v3.py:149 | The groups, permuted into id order |
| ResourcesV3.SortedTitlesOk | blue_archive/get_resources_v3.py:150-152 | The titles can all be read exactly when every group has every language |
| ResourcesV3.FilterGroupForOk | blue_archive/get_resources_v3.py:148-159 | A panel is built exactly when every group has every language and the type has a title |
| ResourcesV3.FilterGroupForEntries | blue_archive/get_resources_v3.py:148-159 | A panel lists the groups in id order. Entry k is the k-th sorted group's id and titles, every entry inactive |
| ResourcesV3.GroupsTitlesLoop | blue_archive/get_resources_v3.py:150-152 | The loop computes every sorted group's titles, or the first error |
| ResourcesV3.BuildPanel | blue_archive/get_resources_v3.py:148-159 | One panel as specified |
| ResourcesV3.GetFilters | blue_archive/get_resources_v3.py:144-161 | The schools panel, then the clubs panel |
| ResourcesV2.LegacyImageMappings | blue_archive/get_resources_v2.py:16-20 | Each non-empty value's last `/` segment maps to its key, the last entry winning; empty values are dropped |
| ResourcesV2.LegacyImageMappingsSource | blue_archive/get_resources_v2.py:18-20 | Each mapped file name leads back to an entry whose non-empty value names it |
| ResourcesV2.LegacyImageMappingsLast | blue_archive/get_resources_v2.py:18-20 | The key that wins is that of the last entry naming the file |
| ResourcesV2.DefaultLangData | blue_archive/get_resources_v2.py:23-47 | With a family name: "family personal" in Japanese, the romanized family reading and the id in English, and the id as English short name. Without one: the personal name, the id's title, and the title as English short name. The Japanese short name is the personal name; "" for Chinese |
| ResourcesV2.DefaultEnglishShortName | blue_archive/get_resources_v2.py:27-31 | The default English short name is the last word of the English name when the id has no space |
| ResourcesV2.DefaultNamesAgreeWithV3 | blue_archive/get_resources_v2.py:24-26 | With a family name and no personal reading, the full names agree with the current processor's |
| ResourcesV2.UpdateTranslation | blue_archive/get_resources_v2.py:80-92 | Afterwards the id is translated with the default Japanese name; a KeyError exactly when a stored translation has no Japanese name |
| ResourcesV2.UpdateTranslationEffect | blue_archive/get_resources_v2.py:80-92 | A new id gets the default and raises the flag; other entries stay. A stored one changes exactly when its Japanese name differs from the default, and then only its Japanese and English names |
| ResourcesV2.UpdateTranslationIdempotent | blue_archive/get_resources_v2.py:80-92 | A second update with the same default changes nothing |
| ResourcesV2.ImageName | blue_archive/get_resources_v2.py:104-111 | Excluded file names give none. A mapped one gives its legacy name. Any other gives the text after its first `Portrait_`, and a ValueError without one |
| ResourcesV2.StudentPortraitName | blue_archive/get_resources_v2.py:104-111 | `dir/Student_Portrait_<n>`, neither excluded nor mapped, is named `n` |
| ResourcesV2.ImageNameAgreesWithV3 | blue_archive/get_resources_v2.py:111 | On a plain path the name agrees with the current processor's parser |
| ResourcesV2.AddImage | blue_archive/get_resources_v2.py:103-119 | Excluded adds nothing. A named image succeeds exactly when its name is non-empty and new and `img.png` exists; then the name is appended and its file recorded |
| ResourcesV2.AddImagesNames | blue_archive/get_resources_v2.py:103-118 | A successful image loop appends exactly the names of the non-excluded paths, in order |
| ResourcesV2.AddImageFiles | blue_archive/get_resources_v2.py:103-119 | The image loop computes the specification's fold |
| ResourcesV2.ExcludedPortraits | blue_archive/get_resources_v2.py:67-68 | Exactly the stripped lines |
| ResourcesV2.NoGroupReportOkIff | blue_archive/get_resources_v2.py:131-133 | The report is written exactly when every listed character has a Japanese name and an image |
| ResourcesV2.NoGroupReportPrefixErr | blue_archive/get_resources_v2.py:132-133 | The first record that cannot be written ends the report with its error |
| ResourcesV2.NoGroup | blue_archive/get_resources_v2.py:123-124 | The characters with no group, and only those |
| ResourcesV2.GetCharsCatalogue | blue_archive/get_resources_v2.py:94-122 | One character per entry, in order: its id, its default Japanese name, the stored names (when no later entry has its id) and short names, the sorted names of its non-excluded portraits, and the sorted ids of its groups |
| ResourcesV2.GetCharsImagesUnique | blue_archive/get_resources_v2.py:112-119 | Image names are unique across the catalogue and non-empty. They are exactly the avatar keys, and each file exists |
| ResourcesV2.GetCharsTranslations | blue_archive/get_resources_v2.py:80-92 | The translations gain the entries' ids, keep the others and change only Japanese and English names. With no update flagged they are unchanged |
| ResourcesV2.CharsFoldTranslations | blue_archive/get_resources_v2.py:80-92 | Across the loop the translations hold exactly the stored ids and the entries' ids. Stored ones are only refreshed in their Japanese and English names, and those not seen are untouched. An unflagged run changes nothing |
| ResourcesV2.CharStepBuilds | blue_archive/get_resources_v2.py:94-121 | One step keeps the earlier characters and appends its entry's character: the stored names and short names, the sorted names of its non-excluded portraits, its sorted groups |
| ResourcesV2.CharacterForLater | blue_archive/get_resources_v2.py:80-97 | Later entries refresh only their own ids' names, so a character keeps its short names and, unless its id recurs, its names |
| ResourcesV2.CharsFoldBuiltFrom | blue_archive/get_resources_v2.py:94-121 | The loop appends one character per entry, in order, each with its entry's id, default Japanese name, the final names (when its id does not recur) and short names, exactly the sorted names of its non-excluded portraits, and its sorted groups |
| ResourcesV2.NoGroupReportOk | blue_archive/get_resources_v2.py:131-133 | The report fails exactly when a character with no group has no image (`char.images[0]`) |
| ResourcesV2.GetCharsReport | blue_archive/get_resources_v2.py:126-135 | Once the loop succeeds, the run fails exactly when a character with no group has no image |
| ResourcesV2.WriteNoGroup | blue_archive/get_resources_v2.py:131-133 | The writing loop produces the specified report |
| ResourcesV2.AddCharacter | blue_archive/get_resources_v2.py:76-124 | One iteration computes the specification's step |
| ResourcesV2.GetChars | blue_archive/get_resources_v2.py:54-135 | The whole run computes the specification's catalogue and report |
| ResourcesV2.GetStamps | blue_archive/get_resources_v2.py:137-139 | The stamp files, permuted into string order |
| ResourcesV1.SortEntries | blue_archive/get_resources.py:28 | The entries permuted into order of English first name; a KeyError exactly when one has none |
| ResourcesV1.NewCharacter | blue_archive/get_resources.py:41-47 | "last first" for Japanese and English, the first name as short name, the school then the clubs as searches; a KeyError exactly when a part is missing |
| ResourcesV1.FirstExistingNone | blue_archive/get_resources.py:58-65 | The search finds nothing exactly when no candidate file exists |
| ResourcesV1.FirstExistingAt | blue_archive/get_resources.py:58-65 | The search yields the first candidate whose file exists |
| ResourcesV1.FindImage | blue_archive/get_resources.py:58-65 | The candidate loop with its `break` computes the first existing candidate |
| ResourcesV1.ClearUnfound | blue_archive/get_resources.py:67-68 | Clearing an unfound id's mapping finds nothing new |
| ResourcesV1.ImageStepImages | blue_archive/get_resources.py:49-65 | An image id joins the images exactly when a candidate exists |
| ResourcesV1.ImageStepAvatars | blue_archive/get_resources.py:59-65 | A found id records its first existing candidate, the same under any settled mapping |
| ResourcesV1.ImageStepStable | blue_archive/get_resources.py:67-69 | A stable id leaves the mapping and the flag alone |
| ResourcesV1.ImageStepStabilizes | blue_archive/get_resources.py:58-69 | After its step an image id is stable, and ids stable before stay stable |
| ResourcesV1.AddImage | blue_archive/get_resources.py:49-69 | One image id computes the specification's step |
| ResourcesV1.ImagesFoldImages | blue_archive/get_resources.py:49-69 | The image loop appends exactly the found ids, in order |
| ResourcesV1.ImagesFoldAvatars | blue_archive/get_resources.py:59-65 | The image loop records each found id's first existing candidate |
| ResourcesV1.ImagesFoldStable | blue_archive/get_resources.py:67-69 | With all ids stable, the image loop changes neither mapping nor flag |
| ResourcesV1.ImagesFoldStabilizes | blue_archive/get_resources.py:49-69 | The image loop leaves every id it saw stable, and ids stable before stay stable |
| ResourcesV1.AddImages | blue_archive/get_resources.py:49-69 | The image loop computes the specification's fold |
| ResourcesV1.FoundOfFound | blue_archive/get_resources.py:59-65 | Every found id is one of the character's ids with an existing candidate |
| ResourcesV1.KeptCharsImages | blue_archive/get_resources.py:71-72 | Every kept character has an image, and each of its images was found |
| ResourcesV1.CharsFoldOk | blue_archive/get_resources.py:37-47 | The character loop fails exactly when an entry lacks a name part |
| ResourcesV1.CharStepKept | blue_archive/get_resources.py:37-74 | One entry is kept exactly when an image id is found |
| ResourcesV1.CharsFoldChars | blue_archive/get_resources.py:37-74 | The loop keeps exactly the characters with a found image, in order |
| ResourcesV1.CharsFoldAvatars | blue_archive/get_resources.py:59-65 | The loop records the reference's avatar files |
| ResourcesV1.CharsFoldStable | blue_archive/get_resources.py:67-69 | With every id stable the loop changes neither the mapping nor the flag |
| ResourcesV1.CharsFoldStabilizes | blue_archive/get_resources.py:37-74 | The character loop leaves every image id of every entry stable, so the written mapping is settled |
| ResourcesV1.CharsFoldRerun | blue_archive/get_resources.py:67-77 | A rerun with the mapping it wrote raises no update and gives the same result |
| ResourcesV1.AddCharacter | blue_archive/get_resources.py:38-74 | One entry computes the specification's step |
| ResourcesV1.AddCharacters | blue_archive/get_resources.py:31-74 | The character loop computes the specification's fold |
| ResourcesV1.FillLangOk | blue_archive/get_resources.py:84-89 | Filling fails exactly when a listed entry lacks "name" or "short_name" |
| ResourcesV1.FillLangFile | blue_archive/get_resources.py:84-87 | Existing entries stay, each missing id gets the empty entry, and the flag says whether one was missing |
| ResourcesV1.FillLangChars | blue_archive/get_resources.py:88-89 | Each character gets the file's name and short name for the language |
| ResourcesV1.FillLanguage | blue_archive/get_resources.py:83-89 | The language loop computes the specification's fill |
| ResourcesV1.GetCharsKept | blue_archive/get_resources.py:28-93 | The characters kept, in first-name order, each with its Chinese names from the files |
| ResourcesV1.GetCharsAvatars | blue_archive/get_resources.py:28-74 | Each found id's first existing candidate is recorded |
| ResourcesV1.GetChars | blue_archive/get_resources.py:23-93 | The whole run computes the specification's result |
| Arknights.IncludedOperatorsIff | arknights/get_resources.py:47-52 | An operator is included exactly when it is listed and its basic sprite exists |
| Arknights.IncludedOperatorsSorted | arknights/get_resources.py:47 | Operators come in increasing key order |
| Arknights.OperatorsFoldChars | arknights/get_resources.py:47-66 | The operator loop appends exactly the included operators' characters, in order |
| Arknights.ExtraImagesStartWithKey | arknights/get_resources.py:59-64 | Every extra image is named after a sprite starting with the operator's key |
| Arknights.GlobImagesStartWithKey | arknights/get_resources.py:59-60 | Every file the `<key>*.png` glob yields has an image name starting with the key |
| Arknights.RecordFilesKeys | arknights/get_resources.py:61-63 | Recording files adds exactly their image names as keys |
| Arknights.AddExtraImages | arknights/get_resources.py:61-64 | Each sprite is recorded under its image name and appended, in order |
| Arknights.OperatorsFoldAppellationKeys | arknights/get_resources.py:56 | Appellations are recorded for exactly the included operators |
| Arknights.OperatorsFoldAppellations | arknights/get_resources.py:56 | With distinct keys each included operator keeps its own appellation |
| Arknights.AddOperator | arknights/get_resources.py:48-66 | One operator computes the specification's step |
| Arknights.AddOperators | arknights/get_resources.py:47-66 | The operator loop over the sorted table computes the specification's fold |
| Arknights.IncludedEnemiesIff | arknights/get_resources.py:68-79 | An enemy is included exactly when listed, not named "-", and its sprite exists |
| Arknights.EnemiesFoldChars | arknights/get_resources.py:68-79 | The enemy loop appends exactly the included enemies' characters and records no appellation |
| Arknights.AddEnemies | arknights/get_resources.py:68-79 | The enemy loop computes the specification's fold |
| Arknights.NameTable | arknights/get_resources.py:82-90 | The merged table's names: enemies override operators of the same key |
| Arknights.FillNamesShape | arknights/get_resources.py:89-93 | Filling one language keeps ids, images and searches and adds the language to both name tables |
| Arknights.FillNamesValues | arknights/get_resources.py:89-93 | Name and short name are equal. The table's name is used when non-empty; English and Japanese fall back to the appellation; other languages use "" when absent |
| Arknights.EnemyFallback | arknights/get_resources.py:45-92 | An id with no appellation (an enemy) keeps an empty or missing name empty |
| Arknights.FillLanguage | arknights/get_resources.py:88-93 | The language loop computes the specification's fill |
| Arknights.FillLangsKeep | arknights/get_resources.py:87-93 | Filling keeps ids, images and searches |
| Arknights.FillLangsKeys | arknights/get_resources.py:87-93 | Filling adds exactly the filled languages and keeps names equal to short names |
| Arknights.WithClosurePictured | arknights/get_resources.py:96-111 | Closure is put in front exactly when her id has no avatar file, and the list is otherwise unchanged. Either way her id is an image name with a file |
| Arknights.WithClosureNamed | arknights/get_resources.py:98-110 | Putting Closure in front keeps every character named in exactly the four languages |
| Arknights.BuiltChars | arknights/get_resources.py:47-79 | After both loops: the included operators, then the included enemies |
| Arknights.BuiltAppellations | arknights/get_resources.py:56 | Appellations exist for exactly the included operators, each its own |
| Arknights.BuiltPictured | arknights/get_resources.py:54-78 | The image names are exactly the avatar keys |
| Arknights.BuiltNames | arknights/get_resources.py:55-79 | Every character is named in Chinese only, with equal names and short names |
| Arknights.FilledNamedInAll | arknights/get_resources.py:87-93 | Filling the other three languages names everyone in all four |
| Arknights.GetCharsNames | arknights/get_resources.py:23-113 | Every character has names and short names in exactly the four languages, and the two agree |
| Arknights.GetCharsPictured | arknights/get_resources.py:23-113 | Image names and avatar files match and Closure is among them; she is in front exactly when she had no avatar |
| Arknights.GetChars | arknights/get_resources.py:23-113 | The whole run computes the specification's result |

## Left out

- CapitalizeFirst: maps case for ASCII letters only. Python's `str.upper` also maps other letters and may lengthen the string (`'ß'.upper() == 'SS'`). For a romaji starting with a non-ASCII letter the model's id keeps that letter unchanged; `Common.NameToId` inherits the gap.
- Lower: maps case for ASCII letters only. Python's `str.lower` also maps other letters, so the catalogue order of ids with non-ASCII letters (`get_resources_v3.py:135`) may differ from the model's.
- CheckCompatibility.Compare: a record without "id" (a KeyError at `check_compatibility.py:13-14`) is not modelled; the id columns are inputs.
- File reads and writes, YAML/JSON (de)serialization, downloads, logging and `print` output are not modelled; loaded tables are inputs. `CheckCompatibility.Lines` models the printed text.
- The mapping and language files written back, and the unused portraits copied to disk, are left out. Their contents are part of the model (`get_resources.py:76-77, 90-91`, `get_resources_v3.py:119-133`, `get_resources_v2.py:126-129`); the writes are not.
- Image scaling and encoding (`process_image`), `os.makedirs`, the re-raise in `_process_image_list` and the write of stamps.json in `_process_stamps` are left out: they are I/O. `ResourceUtils.ProcessImageList` records each converted destination as a file.
- Glob order is OS-defined. A glob result is an input sequence, and glob metacharacters in keys are not interpreted.
- Only POSIX paths (`/`) are modelled, not Windows separators.
- `romkan.to_roma` is a parameter; nothing about its output is assumed.
- `_process_chars` and the abstract `get_*` methods of `utils/resource_utils.py` are left out: one writes a file, the others raise `NotImplementedError`.
- `get_filters` in `get_resources_v2.py:141-158` is the same code as in `get_resources_v3.py:144-161`, so `ResourcesV3.GetFilters` models both. The same holds for the plain `get_stamps` of `get_resources.py:95-97`, modelled by `ResourcesV2.GetStamps`.
- `chars_without_school` and `chars_without_club` (`get_resources_v3.py:68-69, 114-117`) are built but never read, and `image_config` is always empty; the model omits them.
- Arknights.GetChars: a table entry without "name" or "appellation" (a KeyError in the source) is not modelled; entries always carry both fields.
- Arknights.GetChars: characters are values. The in-place `ch.names[lang] = ...` is modelled as returning updated characters, and the aliasing of `names` and `short_names` is not modelled. The source's `{ "zh-cn": name }` dicts are two different objects, so no behaviour depends on that aliasing.
- ResourcesV2.GetChars: characters are values. In the source `char.names` is the stored translation's `name` dict itself (`get_resources_v2.py:88-97`), so a later entry with the same id that refreshes the Japanese and English names also renames the earlier character and changes its line in nogroup.generated.txt (line 133). The model keeps the names each character had when it was built; `ResourcesV2.GetCharsCatalogue` states the stored names only for an id's last entry.
- ResourcesV2.GetChars: a stored translation whose `short_name` is null gives a character whose short names are `None` in the source; the model gives the empty map.
- Text.ParseInt: reads ASCII digits only. Python's `int` also accepts other Unicode decimal digits and `_` between digits.
- Text.PathName: takes the text after the last `/`. Python's `Path` first drops a trailing `/` and `.` parts (`Path("a/b/").name == "b"`), so the two differ on such paths.
- ResourcesV1.GetChars: the top-level keys of `characters.json` entries ("id", "name", "img", "school", "club") are assumed present; a missing name part is modelled as a KeyError.
- ResourcesV1.FillLanguage: the source mutates `ch.names` in place on characters that the earlier loop also holds. The model returns new characters.
- InitGroups.InitGroupsMain: a character in `char.json` without "searches" or "id" (a KeyError) is not modelled; characters always carry both.
- UpdateData.UpdateCharData: the final `print` of the names without profile is left out.
- `utils/json_utils.py`, `utils/web_utils.py`, `utils/cli_utils.py`, `utils/logging_utils.py`, `utils/image_utils.py`, `utils/fix_font.py` and `blue_archive/get_avatar_bg.py` are not part of this model: they are I/O, argument parsing, logging, or floating-point image arithmetic.
