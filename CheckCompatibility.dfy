/**
 * The id check between the old and the new character data
 * (blue_archive/legacy/check_compatibility.py): which ids of the old list are
 * missing from the new one, and which are new.
 */
module CheckCompatibility {
  import opened Text
  import opened Sorting

  /** `set(d["id"] for d in data)` (lines 13-14), from the ids of the records in file order. */
  function IdSet(ids: seq<string>): set<string> {
    set x | x in ids
  }

  /** The outcome: the missing and the added ids, and the missing ids as listed (lines 16-21). */
  datatype Report = Report(missing: set<string>, added: set<string>, listing: seq<string>)

  /** Lines 13-21 on the id columns of the two files, without the reads. */
  function Compare(oldIds: seq<string>, newIds: seq<string>): (r: Report)
    ensures forall x :: x in r.missing <==> x in oldIds && x !in newIds
    ensures forall x :: x in r.added <==> x in newIds && x !in oldIds
  {
    var o := IdSet(oldIds);
    var n := IdSet(newIds);
    Report(o - n, n - o, SortedFromSet(o - n))
  }

  /**
   * Only the id sets matter: a record repeating an id of the old or of the new
   * file changes nothing in the report.
   */
  lemma CompareDuplicate(oldIds: seq<string>, newIds: seq<string>, i: nat, j: nat)
    requires i < |oldIds| && j < |newIds|
    ensures Compare(oldIds + [oldIds[i]], newIds) == Compare(oldIds, newIds)
    ensures Compare(oldIds, newIds + [newIds[j]]) == Compare(oldIds, newIds)
  {
    assert IdSet(oldIds + [oldIds[i]]) == IdSet(oldIds) by {
      assert forall x :: x in oldIds + [oldIds[i]] <==> x in oldIds;
    }
    assert IdSet(newIds + [newIds[j]]) == IdSet(newIds) by {
      assert forall x :: x in newIds + [newIds[j]] <==> x in newIds;
    }
  }

  /**
   * The missing ids are disjoint from the new ids, the added ids from the old
   * ones and from each other; there is nothing to report exactly when both
   * files hold the same ids.
   */
  lemma CompareDisjoint(oldIds: seq<string>, newIds: seq<string>)
    ensures Compare(oldIds, newIds).missing * IdSet(newIds) == {}
    ensures Compare(oldIds, newIds).added * IdSet(oldIds) == {}
    ensures Compare(oldIds, newIds).missing * Compare(oldIds, newIds).added == {}
    ensures Compare(oldIds, newIds).missing == {} && Compare(oldIds, newIds).added == {}
        <==> IdSet(oldIds) == IdSet(newIds)
  {
    var o := IdSet(oldIds);
    var n := IdSet(newIds);
    if o - n == {} && n - o == {} {
      assert forall x :: x in o <==> x in n;
    }
  }

  /** The listing (line 21) holds each missing id once, in increasing order. */
  lemma CompareListing(oldIds: seq<string>, newIds: seq<string>)
    ensures |Compare(oldIds, newIds).listing| == |Compare(oldIds, newIds).missing|
    ensures forall x :: x in Compare(oldIds, newIds).listing <==> x in oldIds && x !in newIds
    ensures StrictlyIncreasing(Compare(oldIds, newIds).listing)
  {
  }

  /** The printed lines (lines 19-22): the two counts, and the listing only when something is missing. */
  function Lines(r: Report): (lines: seq<string>)
    ensures |lines| == if r.missing == {} then 2 else 3
    ensures lines[0] == "Missing ids: " + DecimalString(|r.missing|)
    ensures r.missing != {} ==> lines[1] == "\n  " + Join(r.listing, "\n  ")
    ensures lines[|lines| - 1] == "Added ids: " + DecimalString(|r.added|)
  {
    ["Missing ids: " + DecimalString(|r.missing|)]
    + (if |r.missing| > 0 then ["\n  " + Join(r.listing, "\n  ")] else [])
    + ["Added ids: " + DecimalString(|r.added|)]
  }
}
