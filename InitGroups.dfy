/**
 * The legacy migration of clubs and schools (blue_archive/legacy/init_groups.py):
 * for each group type the titles are listed by group id, and every group
 * collects the ids of the characters that search for it, once per search,
 * sorted.
 */
module InitGroups {
  import opened Results
  import opened Text
  import opened Sorting
  import opened Common
  import opened Models

  /** The two group types, in the order the script handles them (lines 12, 26). */
  const GroupTypes: seq<string> := ["clubs", "schools"]

  // ---------------------------------------------------------------- titles

  /** `sorted([GroupLangData(key, value) for key, value in data.items()], key=id)` (lines 14-17). */
  function LangGroups(table: map<string, map<string, Option<string>>>): seq<GroupLangData> {
    var items := SortedItems(table);
    seq(|items|, i requires 0 <= i < |items| => GroupLangData(items[i].0, items[i].1))
  }

  /** The listing holds the groups of the file with their own titles, in strictly increasing id order. */
  lemma LangGroupsListing(table: map<string, map<string, Option<string>>>)
    ensures |LangGroups(table)| == |table|
    ensures forall i :: 0 <= i < |LangGroups(table)| ==>
      LangGroups(table)[i].id in table && LangGroups(table)[i].name == table[LangGroups(table)[i].id]
    ensures forall i, j :: 0 <= i < j < |LangGroups(table)| ==> StrLt(LangGroups(table)[i].id, LangGroups(table)[j].id)
  {
    var items := SortedItems(table);
    SortedItemsFacts(table);
    forall i | 0 <= i < |items| ensures LangGroups(table)[i] == GroupLangData(items[i].0, items[i].1) {
    }
  }

  /** Every group of the file is listed. */
  lemma LangGroupsComplete(table: map<string, map<string, Option<string>>>, k: string)
    requires k in table
    ensures exists i :: 0 <= i < |LangGroups(table)| && LangGroups(table)[i].id == k
  {
    var items := SortedItems(table);
    SortedItemsFacts(table);
    var i :| 0 <= i < |items| && items[i].0 == k;
    assert LangGroups(table)[i].id == k;
  }

  // ---------------------------------------------------------------- members

  /** The id `id` once for each occurrence of `g` among `searches`, as the inner loop appends it (lines 29-31). */
  function Hits(id: string, searches: seq<string>, g: string): seq<string>
    decreases |searches|
  {
    if searches == [] then []
    else Hits(id, searches[..|searches| - 1], g) + (if searches[|searches| - 1] == g then [id] else [])
  }

  /** The ids appended to group `g` by the character loop (lines 28-31), in order. */
  function Members(chars: seq<Character>, g: string): seq<string>
    decreases |chars|
  {
    if chars == [] then []
    else Members(chars[..|chars| - 1], g) + Hits(chars[|chars| - 1].id, chars[|chars| - 1].searches, g)
  }

  /** A character's id is appended once per occurrence of the group among its searches, and nothing else is. */
  lemma {:induction false} HitsCount(id: string, searches: seq<string>, g: string)
    ensures |Hits(id, searches, g)| == multiset(searches)[g]
    ensures forall x :: x in Hits(id, searches, g) ==> x == id
    decreases |searches|
  {
    if searches != [] {
      var init := searches[..|searches| - 1];
      HitsCount(id, init, g);
      assert searches == init + [searches[|searches| - 1]];
    }
  }

  /** An id is a member of a group exactly when a character with that id searches for the group. */
  lemma {:induction false} MembersIff(chars: seq<Character>, g: string, x: string)
    ensures x in Members(chars, g) <==> exists c :: c in chars && c.id == x && g in c.searches
    decreases |chars|
  {
    if chars != [] {
      var init := chars[..|chars| - 1];
      var last := chars[|chars| - 1];
      MembersIff(init, g, x);
      HitsCount(last.id, last.searches, g);
      assert chars == init + [last];
      if x in Hits(last.id, last.searches, g) {
        assert multiset(last.searches)[g] > 0;
      } else if last.id == x && g in last.searches {
        assert multiset(last.searches)[g] > 0;
        assert |Hits(last.id, last.searches, g)| > 0;
        assert Hits(last.id, last.searches, g)[0] in Hits(last.id, last.searches, g);
      }
    }
  }

  /** The membership of each group of a type, sorted, the groups in id order (lines 21-23, 32-35). */
  function GroupsSpec(table: map<string, map<string, Option<string>>>, chars: seq<Character>): seq<GroupData> {
    var items := SortedItems(table);
    seq(|items|, i requires 0 <= i < |items| => GroupData(items[i].0, SortStrings(Members(chars, items[i].0))))
  }

  /**
   * The groups are those of the title listing, in the same order; each holds
   * the ids of the characters searching for it, once per search, sorted;
   * searches naming no group of the type add nothing anywhere.
   */
  lemma GroupsSpecMembers(table: map<string, map<string, Option<string>>>, chars: seq<Character>, i: nat)
    requires i < |GroupsSpec(table, chars)|
    ensures |GroupsSpec(table, chars)| == |LangGroups(table)|
    ensures GroupsSpec(table, chars)[i].id == LangGroups(table)[i].id
    ensures SortedBy(GroupsSpec(table, chars)[i].members, StrLe)
    ensures multiset(GroupsSpec(table, chars)[i].members) == multiset(Members(chars, GroupsSpec(table, chars)[i].id))
    ensures forall x :: x in GroupsSpec(table, chars)[i].members <==>
      exists c :: c in chars && c.id == x && GroupsSpec(table, chars)[i].id in c.searches
  {
    var gp := GroupsSpec(table, chars)[i];
    forall x ensures x in gp.members <==> exists c :: c in chars && c.id == x && gp.id in c.searches {
      MembersIff(chars, gp.id, x);
      assert x in gp.members <==> x in multiset(gp.members);
    }
  }

  // ---------------------------------------------------------------- the loops

  /** The inner loop over one character's searches (lines 29-31). */
  method AddMembers(id: string, searches: seq<string>, groups: map<string, seq<string>>)
    returns (r: map<string, seq<string>>)
    ensures r.Keys == groups.Keys
    ensures forall g :: g in groups ==> r[g] == groups[g] + Hits(id, searches, g)
  {
    r := groups;
    var j := 0;
    while j < |searches|
      invariant 0 <= j <= |searches|
      invariant r.Keys == groups.Keys
      invariant forall g :: g in groups ==> r[g] == groups[g] + Hits(id, searches[..j], g)
    {
      assert searches[..j + 1][..j] == searches[..j];
      var search := searches[j];
      if search in r {
        AppendAssoc(groups[search], Hits(id, searches[..j], search), [id]);
        r := r[search := r[search] + [id]];
      }
      j := j + 1;
    }
    assert searches[..j] == searches;
  }

  /** The character loop (lines 28-31), from empty member lists. */
  method CollectMembers(chars: seq<Character>, groups: map<string, seq<string>>)
    returns (r: map<string, seq<string>>)
    ensures r.Keys == groups.Keys
    ensures forall g :: g in groups ==> r[g] == groups[g] + Members(chars, g)
  {
    r := groups;
    var i := 0;
    while i < |chars|
      invariant 0 <= i <= |chars|
      invariant r.Keys == groups.Keys
      invariant forall g :: g in groups ==> r[g] == groups[g] + Members(chars[..i], g)
    {
      assert chars[..i + 1][..i] == chars[..i];
      var before := r;
      r := AddMembers(chars[i].id, chars[i].searches, r);
      forall g | g in groups ensures r[g] == groups[g] + Members(chars[..i + 1], g) {
        AppendAssoc(groups[g], Members(chars[..i], g), Hits(chars[i].id, chars[i].searches, g));
      }
      i := i + 1;
    }
    assert chars[..i] == chars;
  }

  /** `gp.members = sorted(gp.members)` for every group (lines 32-33). */
  method SortMembers(groups: seq<GroupData>) returns (r: seq<GroupData>)
    ensures |r| == |groups|
    ensures forall i :: 0 <= i < |r| ==> r[i].id == groups[i].id && r[i].members == SortStrings(groups[i].members)
  {
    r := groups;
    var i := 0;
    while i < |r|
      invariant 0 <= i <= |r| == |groups|
      invariant forall k :: 0 <= k < i ==> r[k].id == groups[k].id && r[k].members == SortStrings(groups[k].members)
      invariant forall k :: i <= k < |r| ==> r[k] == groups[k]
    {
      r := r[i := r[i].(members := SortStrings(r[i].members))];
      i := i + 1;
    }
  }

  /** One group type (lines 13-23, 27-35): its title listing and its membership, both in id order. */
  method InitGroupsType(table: map<string, map<string, Option<string>>>, chars: seq<Character>)
    returns (titles: seq<GroupLangData>, groups: seq<GroupData>)
    ensures titles == LangGroups(table)
    ensures groups == GroupsSpec(table, chars)
  {
    var items := SortedItems(table);
    titles := seq(|items|, i requires 0 <= i < |items| => GroupLangData(items[i].0, items[i].1));
    var empty := map k | k in table :: [];
    var members := CollectMembers(chars, empty);
    assert forall g :: g in table ==> members[g] == [] + Members(chars, g);
    groups := OrderGroups(table, chars, members);
  }

  /** Lines 32-35: the collected members of every group sorted, the groups listed in id order. */
  method OrderGroups(table: map<string, map<string, Option<string>>>, chars: seq<Character>, members: map<string, seq<string>>)
    returns (groups: seq<GroupData>)
    requires members.Keys == table.Keys
    requires forall g :: g in table ==> members[g] == Members(chars, g)
    ensures groups == GroupsSpec(table, chars)
  {
    var items := SortedItems(table);
    SortedItemsKeys(table);
    var unsorted := seq(|items|, i requires 0 <= i < |items| => GroupData(items[i].0, members[items[i].0]));
    groups := SortMembers(unsorted);
  }

  /** `main` (lines 9-37) on the clubs and schools files and char.json, without the reads and the YAML writes. */
  method InitGroupsMain(clubs: map<string, map<string, Option<string>>>, schools: map<string, map<string, Option<string>>>,
                        chars: seq<Character>)
    returns (clubTitles: seq<GroupLangData>, clubGroups: seq<GroupData>,
             schoolTitles: seq<GroupLangData>, schoolGroups: seq<GroupData>)
    ensures clubTitles == LangGroups(clubs) && clubGroups == GroupsSpec(clubs, chars)
    ensures schoolTitles == LangGroups(schools) && schoolGroups == GroupsSpec(schools, chars)
  {
    clubTitles, clubGroups := InitGroupsType(clubs, chars);
    schoolTitles, schoolGroups := InitGroupsType(schools, chars);
  }
}
