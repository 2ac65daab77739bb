/**
 * The legacy migration to lang/char.yaml (blue_archive/legacy/init_lang.py):
 * one translation entry per published character, with a name and a short name
 * for every supported language, sorted by id.
 */
module InitLang {
  import opened Results
  import opened Text
  import opened Sorting
  import opened Common
  import opened Models

  /** `{k: m.get(k, "") for k in all_langs}` (lines 17-18). */
  function Defaulted(m: map<string, string>, langs: seq<string>): map<string, string> {
    map k | k in langs :: if k in m then m[k] else ""
  }

  /**
   * The table has exactly the supported languages; a language the character
   * has keeps its text, any other supported language gets "".
   */
  lemma DefaultedKeys(m: map<string, string>, langs: seq<string>)
    ensures forall k :: k in Defaulted(m, langs) <==> k in langs
    ensures forall k :: k in langs && k in m ==> Defaulted(m, langs)[k] == m[k]
    ensures forall k :: k in langs && k !in m ==> Defaulted(m, langs)[k] == ""
  {
  }

  /** Defaulting twice changes nothing, and a table with exactly the supported languages is kept as it is. */
  lemma DefaultedIdempotent(m: map<string, string>, langs: seq<string>)
    ensures Defaulted(Defaulted(m, langs), langs) == Defaulted(m, langs)
    ensures (forall k :: k in m <==> k in langs) ==> Defaulted(m, langs) == m
  {
    var d := Defaulted(m, langs);
    assert Defaulted(d, langs).Keys == d.Keys;
    if forall k :: k in m <==> k in langs {
      assert d.Keys == m.Keys;
    }
  }

  /** The entry of one character (lines 15-19). */
  function LangEntry(c: Character, langs: seq<string>): CharLangData {
    CharLangData(c.id, Defaulted(c.names, langs), Some(Defaulted(c.shortNames, langs)))
  }

  /** The entries in character order (lines 14-21). */
  function Entries(chars: seq<Character>, langs: seq<string>): seq<CharLangData> {
    seq(|chars|, i requires 0 <= i < |chars| => LangEntry(chars[i], langs))
  }

  /** `sorted(result, key=lambda x: x.id)` (line 22). */
  function InitLangSpec(chars: seq<Character>, langs: seq<string>): seq<CharLangData> {
    SortBy(Entries(chars, langs), ByKey((d: CharLangData) => d.id))
  }

  /**
   * `main` (lines 10-25) without the reads and the YAML write: one entry per
   * character, each character's entry exactly once, in case-sensitive id order.
   */
  lemma InitLangEntries(chars: seq<Character>, langs: seq<string>)
    ensures |InitLangSpec(chars, langs)| == |chars|
    ensures multiset(InitLangSpec(chars, langs)) == multiset(Entries(chars, langs))
    ensures forall i, j :: 0 <= i < j < |InitLangSpec(chars, langs)| ==>
      StrLe(InitLangSpec(chars, langs)[i].id, InitLangSpec(chars, langs)[j].id)
  {
    var key := (d: CharLangData) => d.id;
    ByKeyIsTotalPreorder(key);
    SortBySorted(Entries(chars, langs), ByKey(key));
  }

  /** `sorted` is stable: the entries with the same id as `e` keep the order of their characters. */
  lemma InitLangStable(chars: seq<Character>, langs: seq<string>, e: CharLangData)
    ensures var key := (d: CharLangData) => d.id;
      Ties(InitLangSpec(chars, langs), e, ByKey(key)) == Ties(Entries(chars, langs), e, ByKey(key))
  {
    var key := (d: CharLangData) => d.id;
    ByKeyIsTotalPreorder(key);
    SortByStable(Entries(chars, langs), e, ByKey(key));
  }

  /** Every entry of the output is a character's id with both tables defaulted to the supported languages. */
  lemma InitLangEntryShape(chars: seq<Character>, langs: seq<string>, i: nat)
    requires i < |InitLangSpec(chars, langs)|
    ensures exists c :: c in chars && InitLangSpec(chars, langs)[i] == LangEntry(c, langs)
    ensures InitLangSpec(chars, langs)[i].shortName.Some?
    ensures forall k :: k in InitLangSpec(chars, langs)[i].name <==> k in langs
    ensures forall k :: k in InitLangSpec(chars, langs)[i].shortName.value <==> k in langs
  {
    var r := InitLangSpec(chars, langs);
    var es := Entries(chars, langs);
    InitLangEntries(chars, langs);
    assert r[i] in multiset(es);
    var j :| 0 <= j < |es| && es[j] == r[i];
    assert chars[j] in chars;
    DefaultedKeys(chars[j].names, langs);
    DefaultedKeys(chars[j].shortNames, langs);
  }
}
