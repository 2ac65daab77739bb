/** The catalogue records every processor produces (utils/models.py). */
module Models {
  import opened Sorting

  /** One selectable character: localized full and short names, image names, search tags. */
  datatype Character = Character(
    id: string,
    names: map<string, string>,
    shortNames: map<string, string>,
    images: seq<string>,
    searches: seq<string>)

  /** One filter panel: its key and title, and the search tags and titles of its entries. */
  datatype FilterGroup = FilterGroup(
    groupKey: string,
    groupName: map<string, string>,
    filterSearches: seq<string>,
    filterNames: seq<map<string, string>>,
    active: seq<bool>)

  /** The image names of all characters, character by character, as `for ch in chars for img in ch.images`. */
  function AllImages(chars: seq<Character>): seq<string> {
    if chars == [] then [] else chars[0].images + AllImages(chars[1..])
  }

  lemma {:induction false} AllImagesAppend(a: seq<Character>, b: seq<Character>)
    ensures AllImages(a + b) == AllImages(a) + AllImages(b)
    decreases |a|
  {
    if a == [] {
      assert a + b == b;
    } else {
      assert (a + b)[0] == a[0];
      assert (a + b)[1..] == a[1..] + b;
      AllImagesAppend(a[1..], b);
    }
  }

  /** Reordering the characters reorders their images and nothing else. */
  lemma {:induction false} AllImagesPermutation(a: seq<Character>, b: seq<Character>)
    requires multiset(a) == multiset(b)
    ensures multiset(AllImages(a)) == multiset(AllImages(b))
    decreases |a|
  {
    if a != [] {
      assert a[0] in multiset(b);
      var k :| 0 <= k < |b| && b[k] == a[0];
      var rest := b[..k] + b[k + 1..];
      RemoveAt(b, k);
      assert a == [a[0]] + a[1..];
      assert multiset(a[1..]) == multiset(a) - multiset{a[0]};
      AllImagesPermutation(a[1..], rest);
      AllImagesAround(b, k);
      AllImagesAppend(b[..k], b[k + 1..]);
    }
  }

  lemma AllImagesAround(b: seq<Character>, k: nat)
    requires k < |b|
    ensures AllImages(b) == AllImages(b[..k]) + b[k].images + AllImages(b[k + 1..])
  {
    var tail := b[k..];
    assert b == b[..k] + tail;
    AllImagesAppend(b[..k], tail);
    assert tail[0] == b[k] && tail[1..] == b[k + 1..];
  }

  /** Regrouping a concatenation of lists (stated once, so that proofs need not rediscover it). */
  lemma AppendAssoc<T>(a: seq<T>, b: seq<T>, c: seq<T>)
    ensures a + (b + c) == (a + b) + c
  {
  }
}
