/** Tag search of the utility cog (`ChatControl._tag_list` with a search
    text): every tag gets a rank from its name, description and content,
    the list is sorted by rank, highest first, keeping the name order among
    equal ranks, and tags of rank 0 are dropped. */
module TagSearch {
  import opened Text

  /** A tag as `_tag_list` lists it: its lower-cased name, its description
      (empty when it has none) and its content. */
  datatype TagEntry = TagEntry(name: string, desc: string, content: string)

  const PrefixRank := 1000
  const SubstringRank := 800
  const DescWeight := 15
  const ContentWeight := 1

  /** The rank the name alone earns. */
  function NameRank(name: string, search: string): (r: int)
    ensures r == PrefixRank <==> search <= name
    ensures r == SubstringRank <==> !(search <= name) && Contains(name, search)
    ensures r == 0 <==> !Contains(name, search)
  {
    if search <= name then PrefixRank
    else if Contains(name, search) then SubstringRank
    else 0
  }

  /** The full rank of a tag for a (lower-cased) search text. */
  function Rank(t: TagEntry, search: string): int {
    NameRank(t.name, search) + DescWeight * Count(Lower(t.desc), search) + ContentWeight * Count(Lower(t.content), search)
  }

  /** A tag is found exactly when the search text occurs in its name, or in
      its description or content ignoring case. */
  lemma RankPositiveIff(t: TagEntry, search: string)
    ensures Rank(t, search) >= 0
    ensures Rank(t, search) > 0 <==>
      Contains(t.name, search) || Contains(Lower(t.desc), search) || Contains(Lower(t.content), search)
  {
    CountPositiveIffContains(Lower(t.desc), search);
    CountPositiveIffContains(Lower(t.content), search);
  }

  /** A name that starts with the search text ranks at least 1000, one that
      only contains it between 800 and the same plus its other matches. */
  lemma NameDominates(t: TagEntry, search: string)
    ensures search <= t.name ==> Rank(t, search) >= PrefixRank
    ensures !(search <= t.name) && Contains(t.name, search) ==> Rank(t, search) >= SubstringRank
    ensures !Contains(t.name, search) ==>
      Rank(t, search) == DescWeight * Count(Lower(t.desc), search) + Count(Lower(t.content), search)
  {
  }

  // ---------------------------------------------------------------------
  // Ordering

  /** `i` comes before `j` in a stable sort by decreasing rank. */
  predicate Before(ranks: seq<int>, i: nat, j: nat)
    requires i < |ranks| && j < |ranks|
  {
    ranks[i] > ranks[j] || (ranks[i] == ranks[j] && i < j)
  }

  predicate InRange(ranks: seq<int>, order: seq<nat>) {
    forall k :: 0 <= k < |order| ==> order[k] < |ranks|
  }

  /** `order` lists indices strictly in the order `Before`. */
  predicate SortedByRank(ranks: seq<int>, order: seq<nat>)
    requires InRange(ranks, order)
  {
    forall a, b :: 0 <= a < b < |order| ==> Before(ranks, order[a], order[b])
  }

  /** The indices in `order` are exactly those of positive rank. */
  predicate ExactlyPositive(ranks: seq<int>, order: seq<nat>)
    requires InRange(ranks, order)
  {
    forall i :: 0 <= i < |ranks| ==> (i in order <==> ranks[i] > 0)
  }

  /** In a list sorted by `Before`, the head comes before every other entry. */
  lemma HeadFirst(ranks: seq<int>, o: seq<nat>, i: nat)
    requires InRange(ranks, o) && SortedByRank(ranks, o)
    requires i in o
    ensures i == o[0] || Before(ranks, o[0], i)
  {
    var a :| 0 <= a < |o| && o[a] == i;
    if a > 0 {
      assert Before(ranks, o[0], o[a]);
    }
  }

  /** The tail of a sorted list holds exactly the entries other than the head. */
  lemma TailMembers(ranks: seq<int>, o: seq<nat>)
    requires o != []
    requires InRange(ranks, o) && SortedByRank(ranks, o)
    ensures forall i :: i in o[1..] <==> i in o && i != o[0]
  {
    forall i ensures i in o[1..] <==> i in o && i != o[0] {
      if i in o[1..] {
        var a :| 0 <= a < |o[1..]| && o[1..][a] == i;
        assert Before(ranks, o[0], o[a + 1]);
      }
      if i in o && i != o[0] {
        var a :| 0 <= a < |o| && o[a] == i;
        assert o[1..][a - 1] == i;
      }
    }
  }

  lemma SameMembersEmpty(o1: seq<nat>, o2: seq<nat>)
    requires forall i :: i in o1 <==> i in o2
    ensures o1 == [] <==> o2 == []
  {
    if o1 != [] {
      assert o1[0] in o1;
    }
    if o2 != [] {
      assert o2[0] in o2;
    }
  }

  /** Two index lists holding the same indices in the order `Before` are
      equal: the order `Before` fixes the list. */
  lemma {:induction false} SortedUnique(ranks: seq<int>, o1: seq<nat>, o2: seq<nat>)
    requires InRange(ranks, o1) && InRange(ranks, o2)
    requires SortedByRank(ranks, o1) && SortedByRank(ranks, o2)
    requires forall i :: i in o1 <==> i in o2
    ensures o1 == o2
    decreases |o1|
  {
    SameMembersEmpty(o1, o2);
    if o1 != [] {
      var x, y := o1[0], o2[0];
      HeadFirst(ranks, o1, y);
      HeadFirst(ranks, o2, x);
      assert x == y;
      TailMembers(ranks, o1);
      TailMembers(ranks, o2);
      SortedUnique(ranks, o1[1..], o2[1..]);
      assert o1 == [x] + o1[1..] && o2 == [y] + o2[1..];
    }
  }

  /** Placing `i`, which follows every entry so far, at the first entry of
      lower rank keeps the list sorted by `Before`. */
  lemma InsertSorted(ranks: seq<int>, order: seq<nat>, k: nat, i: nat)
    requires i < |ranks| && k <= |order|
    requires InRange(ranks, order) && SortedByRank(ranks, order)
    requires forall m :: 0 <= m < |order| ==> order[m] < i
    requires forall m :: 0 <= m < k ==> ranks[order[m]] >= ranks[i]
    requires forall m :: k <= m < |order| ==> ranks[order[m]] < ranks[i]
    ensures InRange(ranks, order[..k] + [i] + order[k..])
    ensures SortedByRank(ranks, order[..k] + [i] + order[k..])
    ensures forall j :: j in order[..k] + [i] + order[k..] <==> j in order || j == i
    ensures forall m :: 0 <= m < |order| + 1 ==> (order[..k] + [i] + order[k..])[m] < i + 1
  {
    var next := order[..k] + [i] + order[k..];
    assert forall m :: 0 <= m < |next| ==> next[m] == (if m < k then order[m] else if m == k then i else order[m - 1]);
    assert order == order[..k] + order[k..];
    forall a, b | 0 <= a < b < |next| ensures Before(ranks, next[a], next[b]) {
      if b < k || a > k {
      } else if a == k {
      } else if b == k {
      } else {
        assert Before(ranks, order[a], order[b - 1]);
      }
    }
  }

  /** Where the insertion scan of `SortByRank` stops, every later entry has
      a lower rank. */
  lemma ScanStop(ranks: seq<int>, order: seq<nat>, k: nat, i: nat)
    requires i < |ranks| && k <= |order|
    requires InRange(ranks, order) && SortedByRank(ranks, order)
    requires k < |order| ==> ranks[order[k]] < ranks[i]
    ensures forall m :: k <= m < |order| ==> ranks[order[m]] < ranks[i]
  {
    forall m | k <= m < |order| ensures ranks[order[m]] < ranks[i] {
      if k < m {
        assert Before(ranks, order[k], order[m]);
      }
    }
  }

  /** `sorted(range(len(ranks)), key=rank, reverse=True)` by insertion:
      every index once, in the order `Before`. */
  method SortByRank(ranks: seq<int>) returns (order: seq<nat>)
    ensures InRange(ranks, order) && SortedByRank(ranks, order)
    ensures forall i :: 0 <= i < |ranks| <==> i in order
  {
    order := [];
    for i := 0 to |ranks|
      invariant InRange(ranks, order) && SortedByRank(ranks, order)
      invariant forall j :: 0 <= j < i <==> j in order
      invariant forall m :: 0 <= m < |order| ==> order[m] < i
    {
      var k := 0;
      while k < |order| && ranks[order[k]] >= ranks[i]
        invariant 0 <= k <= |order|
        invariant forall m :: 0 <= m < k ==> ranks[order[m]] >= ranks[i]
      {
        k := k + 1;
      }
      ScanStop(ranks, order, k, i);
      InsertSorted(ranks, order, k, i);
      order := order[..k] + [i] + order[k..];
    }
  }

  // ---------------------------------------------------------------------
  // The search

  /** `searchRanks`: the rank of every tag, by position. */
  function Ranks(tags: seq<TagEntry>, search: string): (r: seq<int>)
    ensures |r| == |tags|
    ensures forall i :: 0 <= i < |tags| ==> r[i] == Rank(tags[i], search)
  {
    seq(|tags|, i requires 0 <= i < |tags| => Rank(tags[i], search))
  }

  /** `result` is the tags at the indices `order`, which are exactly those
      of positive rank, highest rank first and in list order among ties. */
  predicate ResultBy(tags: seq<TagEntry>, search: string, order: seq<nat>, result: seq<TagEntry>) {
    var ranks := Ranks(tags, search);
    && InRange(ranks, order) && SortedByRank(ranks, order) && ExactlyPositive(ranks, order)
    && |result| == |order| && (forall k :: 0 <= k < |order| ==> result[k] == tags[order[k]])
  }

  /** What the search must return for a non-empty search text. */
  ghost predicate IsSearchResult(tags: seq<TagEntry>, search: string, result: seq<TagEntry>) {
    exists order: seq<nat> :: ResultBy(tags, search, order, result)
  }

  /** The search part of `_tag_list`; an empty search lists every tag. */
  method SearchTags(tags: seq<TagEntry>, search: string) returns (result: seq<TagEntry>)
    ensures search == [] ==> result == tags
    ensures search != [] ==> IsSearchResult(tags, Lower(search), result)
  {
    if search == [] {
      return tags;
    }
    var search := Lower(search);
    var searchRanks := new int[|tags|](_ => 0);
    for i := 0 to |tags|
      invariant forall j :: 0 <= j < i ==> searchRanks[j] == NameRank(tags[j].name, search)
      invariant forall j :: i <= j < |tags| ==> searchRanks[j] == 0
    {
      if search <= tags[i].name {
        searchRanks[i] := PrefixRank;
      } else if Contains(tags[i].name, search) {
        searchRanks[i] := SubstringRank;
      }
    }
    for i := 0 to |tags|
      invariant forall j :: 0 <= j < i ==> searchRanks[j] == Rank(tags[j], search)
      invariant forall j :: i <= j < |tags| ==> searchRanks[j] == NameRank(tags[j].name, search)
    {
      searchRanks[i] := searchRanks[i] + Count(Lower(tags[i].desc), search) * DescWeight;
      searchRanks[i] := searchRanks[i] + Count(Lower(tags[i].content), search) * ContentWeight;
    }
    var ranks := searchRanks[..];
    assert ranks == Ranks(tags, search);
    var sorted := SortByRank(ranks);
    var matches: seq<nat> := [];
    result := [];
    for k := 0 to |sorted|
      invariant InRange(ranks, matches) && SortedByRank(ranks, matches)
      invariant forall i :: i in matches <==> i in sorted[..k] && ranks[i] > 0
      invariant forall a :: 0 <= a < |matches| ==> (forall b :: k <= b < |sorted| ==> Before(ranks, matches[a], sorted[b]))
      invariant |result| == |matches| && forall a :: 0 <= a < |matches| ==> result[a] == tags[matches[a]]
    {
      assert sorted[..k + 1] == sorted[..k] + [sorted[k]];
      if ranks[sorted[k]] > 0 {
        matches := matches + [sorted[k]];
        result := result + [tags[sorted[k]]];
      }
    }
    assert sorted[..|sorted|] == sorted;
    assert ResultBy(tags, search, matches, result);
  }

  /** A search result ranks its tags: each is found, the ranks never rise,
      and every tag found is listed. */
  lemma SearchResultRanked(tags: seq<TagEntry>, search: string, result: seq<TagEntry>)
    requires IsSearchResult(tags, search, result)
    ensures forall k :: 0 <= k < |result| ==> Rank(result[k], search) > 0
    ensures forall a, b :: 0 <= a < b < |result| ==> Rank(result[a], search) >= Rank(result[b], search)
    ensures forall i :: 0 <= i < |tags| && Rank(tags[i], search) > 0 ==> tags[i] in result
  {
    var order: seq<nat> :| ResultBy(tags, search, order, result);
    var ranks := Ranks(tags, search);
    forall k | 0 <= k < |result| ensures Rank(result[k], search) > 0 {
      assert order[k] in order;
    }
    forall a, b | 0 <= a < b < |result| ensures Rank(result[a], search) >= Rank(result[b], search) {
      assert Before(ranks, order[a], order[b]);
    }
    forall i | 0 <= i < |tags| && Rank(tags[i], search) > 0 ensures tags[i] in result {
      assert i in order;
      var k :| 0 <= k < |order| && order[k] == i;
      assert result[k] == tags[i];
    }
  }

  /** The search result for a given list and text is unique, so it is the
      one Python's stable sort followed by the filter produces. */
  lemma SearchResultUnique(tags: seq<TagEntry>, search: string, r1: seq<TagEntry>, r2: seq<TagEntry>)
    requires IsSearchResult(tags, search, r1) && IsSearchResult(tags, search, r2)
    ensures r1 == r2
  {
    var o1: seq<nat> :| ResultBy(tags, search, o1, r1);
    var o2: seq<nat> :| ResultBy(tags, search, o2, r2);
    var ranks := Ranks(tags, search);
    forall i ensures i in o1 <==> i in o2 {
      if i in o1 { var k :| 0 <= k < |o1| && o1[k] == i; }
      if i in o2 { var k :| 0 <= k < |o2| && o2[k] == i; }
    }
    SortedUnique(ranks, o1, o2);
  }
}
