/**
 * Records shared by the Blue Archive scripts and the identifier derivation
 * (blue_archive/common.py).
 */
module Common {
  import opened Results
  import opened Text

  /** A row of the character profile table. */
  datatype LocalizeCharProfile = LocalizeCharProfile(
    characterId: int,
    familyNameJp: string,
    familyNameRubyJp: string,
    personalNameJp: string)

  /** A row of the scenario character name table: a display name and one portrait path. */
  datatype ScenarioCharacterName = ScenarioCharacterName(nameJp: string, smallPortrait: string)

  /** A joined profile with its portrait paths, as char_data.json stores it. */
  datatype CharData = CharData(
    id: string,
    charId: int,
    familyName: string,
    familyNameRuby: string,
    personalName: string,
    imageFiles: seq<string>)

  /** An entry of chars.yaml: name parts and image specs (`path` or `name:path`). */
  datatype SimpleCharData = SimpleCharData(
    id: string,
    familyName: string,
    familyNameRuby: string,
    personalName: string,
    personalNameRuby: string,
    imageFiles: seq<string>)

  /** A translation entry: full names per language and, when given, short names per language. */
  datatype CharLangData = CharLangData(
    id: string,
    name: map<string, string>,
    shortName: Option<map<string, string>>)

  /** A club or school with the ids of its members. */
  datatype GroupData = GroupData(id: string, members: seq<string>)

  /** A club or school title per language; a language may be present with no value (`None`). */
  datatype GroupLangData = GroupLangData(id: string, name: map<string, Option<string>>)

  /** The Japanese-to-romaji transliteration (`romkan.to_roma`), a foreign library given as a parameter. */
  type Romanizer = string -> string

  /** `name_to_id`: the romaji of the name with its first letter upper-cased; an IndexError on empty romaji. */
  function NameToId(roma: Romanizer, name: string): (r: Result<string>)
    ensures r.Ok? <==> |roma(name)| > 0
    ensures r.Ok? ==> |r.value| == |roma(name)|
    ensures r.Ok? ==> r.value[0] == UpperChar(roma(name)[0]) && r.value[1..] == roma(name)[1..]
  {
    CapitalizeFirst(roma(name))
  }

  /** An id is already capitalized: deriving it again from itself is the identity. */
  lemma NameToIdCapitalized(roma: Romanizer, name: string)
    requires |roma(name)| > 0
    ensures CapitalizeFirst(NameToId(roma, name).value) == NameToId(roma, name)
  {
    CapitalizeIdempotent(roma(name));
  }

  /** `[cls.from_dict(d) for d in data]`: one record per `DataList` element, in order. */
  function LoadExcelTableList<D, T>(dataList: seq<D>, fromDict: D -> T): (r: seq<T>)
    ensures |r| == |dataList|
    ensures forall i :: 0 <= i < |dataList| ==> r[i] == fromDict(dataList[i])
  {
    if dataList == [] then [] else [fromDict(dataList[0])] + LoadExcelTableList(dataList[1..], fromDict)
  }
}
