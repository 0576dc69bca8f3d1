/** A partial sort: the smallest elements come first, in order; the rest follow in any order. */
module PartialSorting {
  /** std::partial_sort asks for a strict weak order. */
  ghost predicate StrictWeak<T(!new)>(less: (T, T) -> bool) {
    && (forall x :: !less(x, x))
    && (forall x, y, z :: !less(x, y) && !less(y, z) ==> !less(x, z))
    && (forall x, y :: less(x, y) ==> !less(y, x))
  }

  /** Nothing from this position on is smaller than what is at it. */
  ghost predicate LeastAt<T>(s: seq<T>, less: (T, T) -> bool, at: nat, from: nat, to: nat) {
    at < |s| && to <= |s| && forall i | from <= i < to :: !less(s[i], s[at])
  }

  method FindLeast<T(!new)>(a: array<T>, from: nat, less: (T, T) -> bool) returns (least: nat)
    requires from < a.Length && StrictWeak(less)
    ensures from <= least < a.Length && LeastAt(a[..], less, least, from, a.Length)
  {
    least := from;
    for i := from + 1 to a.Length
      invariant from <= least < a.Length
      invariant LeastAt(a[..], less, least, from, i)
    {
      if less(a[i], a[least]) {
        NewLeast(a[..], less, least, i, from);
        least := i;
      }
    }
  }

  lemma NewLeast<T(!new)>(s: seq<T>, less: (T, T) -> bool, least: nat, smaller: nat, from: nat)
    requires StrictWeak(less) && smaller < |s|
    requires LeastAt(s, less, least, from, smaller) && less(s[smaller], s[least])
    ensures LeastAt(s, less, smaller, from, smaller + 1)
  {
    assert !less(s[least], s[smaller]);
  }

  method PartialSort<T(!new)>(a: array<T>, shown: nat, less: (T, T) -> bool)
    requires shown <= a.Length && StrictWeak(less)
    modifies a
    ensures multiset(a[..]) == multiset(old(a[..]))
    ensures forall i | 0 <= i < shown :: LeastAt(a[..], less, i, i, a.Length)
  {
    for k := 0 to shown
      invariant multiset(a[..]) == multiset(old(a[..]))
      invariant forall i | 0 <= i < k :: LeastAt(a[..], less, i, i, a.Length)
    {
      var least := FindLeast(a, k, less);
      ghost var before := a[..];
      a[k], a[least] := a[least], a[k];
      assert a[..] == Swapped(before, k, least);
      SwapKeeps(before, less, k, least);
    }
  }

  function Swapped<T>(s: seq<T>, i: nat, j: nat): seq<T>
    requires i < |s| && j < |s|
  {
    s[i := s[j]][j := s[i]]
  }

  lemma SwapKeeps<T>(s: seq<T>, less: (T, T) -> bool, k: nat, least: nat)
    requires k <= least < |s| && LeastAt(s, less, least, k, |s|)
    requires forall i | 0 <= i < k :: LeastAt(s, less, i, i, |s|)
    ensures multiset(Swapped(s, k, least)) == multiset(s)
    ensures forall i | 0 <= i <= k :: LeastAt(Swapped(s, k, least), less, i, i, |s|)
  {
    var after := Swapped(s, k, least);
    forall i | 0 <= i <= k
      ensures LeastAt(after, less, i, i, |s|)
    {
      assert after[i] == s[if i == k then least else i];
      forall j | i <= j < |s|
        ensures !less(after[j], after[i])
      {
        var o := if j == k then least else if j == least then k else j;
        assert after[j] == s[o];
        if i == k {
          assert !less(s[o], s[least]);
        } else {
          assert LeastAt(s, less, i, i, |s|);
          assert !less(s[o], s[i]);
        }
      }
    }
  }

  /** Equal multisets: what is in one sequence is in the other. */
  lemma SameElements<T>(s: seq<T>, t: seq<T>)
    requires multiset(s) == multiset(t)
    ensures |s| == |t|
    ensures forall x :: x in s <==> x in t
  {
    assert |multiset(s)| == |s| && |multiset(t)| == |t|;
    assert forall x :: x in s <==> x in multiset(s);
    assert forall x :: x in t <==> x in multiset(t);
  }

  ghost predicate Distinct<T>(s: seq<T>) {
    forall i, j | 0 <= i < j < |s| :: s[i] != s[j]
  }

  lemma {:induction false} DistinctCounts<T>(s: seq<T>)
    ensures Distinct(s) <==> forall x <- s :: multiset(s)[x] <= 1
  {
    if s != [] {
      var before, last := s[..|s| - 1], s[|s| - 1];
      DistinctCounts(before);
      assert s == before + [last];
      assert multiset(s) == multiset(before) + multiset{last};
      if Distinct(s) {
        assert Distinct(before);
        assert last !in before;
        assert forall x <- s :: multiset(s)[x] <= 1;
      } else if Distinct(before) {
        assert last in before;
        assert multiset(s)[last] >= 2;
      } else {
        var x :| x in before && multiset(before)[x] > 1;
        assert x in s && multiset(s)[x] > 1;
      }
    }
  }

  /** Distinct elements stay distinct in any order. */
  lemma StaysDistinct<T>(s: seq<T>, t: seq<T>)
    requires multiset(s) == multiset(t) && Distinct(s)
    ensures Distinct(t)
  {
    DistinctCounts(s);
    DistinctCounts(t);
    SameElements(s, t);
  }
}

/** The ranked search over package names and descriptions. Folded texts are byte strings; a char stands for a byte. */
module Search {
  import opened Wrappers
  import opened ByteStrings
  import opened PartialSorting

  const UINT32_SPAN := 0x1_0000_0000

  datatype Index = Index(names: seq<string>, descriptions: seq<string>)

  predicate ValidIndex(index: Index) {
    |index.names| == |index.descriptions|
  }

  /** `fold` is the case folding. */
  method BuildIndex(packages: seq<(string, string)>, fold: string -> string) returns (index: Index)
    ensures ValidIndex(index) && |index.names| == |packages|
    ensures forall i | 0 <= i < |packages| ::
              index.names[i] == fold(packages[i].0) && index.descriptions[i] == fold(packages[i].1)
  {
    index := Index([], []);
    for i := 0 to |packages|
      invariant ValidIndex(index) && |index.names| == i
      invariant forall k | 0 <= k < i ::
                  index.names[k] == fold(packages[k].0) && index.descriptions[k] == fold(packages[k].1)
    {
      index := Index(index.names + [fold(packages[i].0)], index.descriptions + [fold(packages[i].1)]);
    }
  }

  function TrimFront(text: string): (trimmed: string)
    ensures trimmed == "" || !IsSpace(trimmed[0])
  {
    if text != "" && IsSpace(text[0]) then TrimFront(text[1..]) else text
  }

  function TrimBack(text: string): (trimmed: string)
    ensures trimmed <= text
    ensures trimmed == "" || !IsSpace(trimmed[|trimmed| - 1])
  {
    if text != "" && IsSpace(text[|text| - 1]) then TrimBack(text[..|text| - 1]) else text
  }

  /** Shrinks a view of the text from the front and then from the back. */
  method TrimAscii(text: string) returns (trimmed: string)
    ensures trimmed == TrimBack(TrimFront(text))
    ensures trimmed == "" || (!IsSpace(trimmed[0]) && !IsSpace(trimmed[|trimmed| - 1]))
  {
    trimmed := text;
    while trimmed != "" && IsSpace(trimmed[0])
      invariant TrimFront(trimmed) == TrimFront(text)
      decreases |trimmed|
    {
      trimmed := trimmed[1..];
    }
    while trimmed != "" && IsSpace(trimmed[|trimmed| - 1])
      invariant TrimBack(trimmed) == TrimBack(TrimFront(text))
      invariant trimmed == "" || !IsSpace(trimmed[0])
      decreases |trimmed|
    {
      trimmed := trimmed[..|trimmed| - 1];
    }
  }

  // Matching and order

  predicate ContainedAt(text: string, needle: string, at: nat) {
    at + |needle| <= |text| && text[at..at + |needle|] == needle
  }

  predicate Contains(text: string, needle: string) {
    exists at | 0 <= at <= |text| :: ContainedAt(text, needle, at)
  }

  predicate Matches(index: Index, needle: string, row: nat)
    requires ValidIndex(index) && row < |index.names|
  {
    Contains(index.names[row], needle) || Contains(index.descriptions[row], needle)
  }

  /** 0 the name is the needle, 1 it starts with it, 2 it contains it, 3 only the description does. */
  function Rank(index: Index, needle: string, row: nat): nat
    requires ValidIndex(index) && row < |index.names|
  {
    var name := index.names[row];
    if name == needle then 0
    else if ContainedAt(name, needle, 0) then 1
    else if Contains(name, needle) then 2 else 3
  }

  /** Rank, then folded name, then position. */
  predicate Before(index: Index, needle: string, a: nat, b: nat)
    requires ValidIndex(index) && a < |index.names| && b < |index.names|
  {
    if Rank(index, needle, a) != Rank(index, needle, b) then Rank(index, needle, a) < Rank(index, needle, b)
    else if index.names[a] != index.names[b] then BytesBefore(index.names[a], index.names[b])
    else a < b
  }

  lemma BeforeIsOrder(index: Index, needle: string, a: nat, b: nat, c: nat)
    requires ValidIndex(index) && a < |index.names| && b < |index.names| && c < |index.names|
    ensures !Before(index, needle, a, a)
    ensures a != b ==> (Before(index, needle, a, b) <==> !Before(index, needle, b, a))
    ensures Before(index, needle, a, b) && Before(index, needle, b, c) ==> Before(index, needle, a, c)
  {
    BytesAreOrdered(index.names[a], index.names[b], index.names[c]);
  }

  // What a search returns

  datatype SearchResult = SearchResult(rows: seq<nat>, totalMatches: nat)

  function AllMatches(index: Index, needle: string): set<nat>
    requires ValidIndex(index)
  {
    set row: nat | row < |index.names| && Matches(index, needle, row)
  }

  /** These rows are matches in order, no match outside them comes before one of them, and there are enough of them. */
  ghost predicate IsTop(index: Index, needle: string, limit: nat, rows: seq<nat>)
    requires ValidIndex(index)
  {
    var matches := AllMatches(index, needle);
    && |rows| == (if limit < |matches| then limit else |matches|)
    && (forall i | 0 <= i < |rows| :: rows[i] in matches)
    && (forall i, j | 0 <= i < j < |rows| :: Before(index, needle, rows[i], rows[j]))
    && (forall i, other | 0 <= i < |rows| && other in matches && other !in rows ::
          Before(index, needle, rows[i], other))
  }

  datatype Hit = Hit(rank: nat, row: nat)

  /** The rank of a row, if it matches. */
  function MatchRank(index: Index, needle: string, row: nat): Option<nat>
    requires ValidIndex(index) && row < |index.names|
  {
    var name := index.names[row];
    if name == needle then Some(0)
    else if ContainedAt(name, needle, 0) then Some(1)
    else if Contains(name, needle) then Some(2)
    else if Contains(index.descriptions[row], needle) then Some(3)
    else None
  }

  lemma MatchRankIsRank(index: Index, needle: string, row: nat)
    requires ValidIndex(index) && row < |index.names|
    ensures MatchRank(index, needle, row) ==
            if Matches(index, needle, row) then Some(Rank(index, needle, row)) else None
  {
    var name := index.names[row];
    assert name == needle ==> ContainedAt(name, needle, 0);
  }

  function RankOf(index: Index, needle: string): nat -> Option<nat>
    requires ValidIndex(index)
  {
    (row: nat) => if row < |index.names| then MatchRank(index, needle, row) else None
  }

  function Below(rankOf: nat -> Option<nat>, below: nat): set<nat> {
    set row: nat | row < below && rankOf(row).Some?
  }

  /** The hits among the first rows, in row order. */
  predicate Collected(rankOf: nat -> Option<nat>, hits: seq<Hit>, below: nat) {
    && InOrder(rankOf, hits, below)
    && (forall row: nat | row < below && rankOf(row).Some? :: Hit(rankOf(row).value, row) in hits)
  }

  function HitsBelow(rankOf: nat -> Option<nat>, below: nat): seq<Hit> {
    if below == 0 then []
    else
      var rank := rankOf(below - 1);
      HitsBelow(rankOf, below - 1) + (if rank.Some? then [Hit(rank.value, (below - 1) % UINT32_SPAN)] else [])
  }

  /** `rankOf` compares a row with the needle; positions are kept in 32 bits. */
  method CollectHits(count: nat, rankOf: nat -> Option<nat>) returns (hits: seq<Hit>)
    ensures hits == HitsBelow(rankOf, count)
  {
    hits := [];
    for i := 0 to count
      invariant hits == HitsBelow(rankOf, i)
    {
      var rank := rankOf(i);
      if rank.None? {
        continue;
      }
      hits := hits + [Hit(rank.value, i % UINT32_SPAN)];
    }
  }

  lemma HitsAreCollected(rankOf: nat -> Option<nat>, below: nat)
    requires below <= UINT32_SPAN
    ensures Collected(rankOf, HitsBelow(rankOf, below), below)
  {
    HitsAreInOrder(rankOf, below);
    forall row: nat | row < below && rankOf(row).Some?
      ensures Hit(rankOf(row).value, row) in HitsBelow(rankOf, below)
    {
      HitIsThere(rankOf, below, row);
    }
  }

  predicate InOrder(rankOf: nat -> Option<nat>, hits: seq<Hit>, below: nat) {
    && (forall i | 0 <= i < |hits| :: hits[i].row < below && rankOf(hits[i].row) == Some(hits[i].rank))
    && (forall i, j | 0 <= i < j < |hits| :: hits[i].row < hits[j].row)
  }

  lemma {:induction false} HitsAreInOrder(rankOf: nat -> Option<nat>, below: nat)
    requires below <= UINT32_SPAN
    ensures InOrder(rankOf, HitsBelow(rankOf, below), below)
  {
    if below > 0 {
      HitsAreInOrder(rankOf, below - 1);
      assert (below - 1) % UINT32_SPAN == below - 1;
      InOrderMore(rankOf, HitsBelow(rankOf, below - 1), below - 1);
    }
  }

  lemma InOrderMore(rankOf: nat -> Option<nat>, hits: seq<Hit>, below: nat)
    requires InOrder(rankOf, hits, below)
    ensures InOrder(rankOf, hits, below + 1)
    ensures rankOf(below).Some? ==> InOrder(rankOf, hits + [Hit(rankOf(below).value, below)], below + 1)
  {
  }

  lemma {:induction false} HitIsThere(rankOf: nat -> Option<nat>, below: nat, row: nat)
    requires row < below <= UINT32_SPAN && rankOf(row).Some?
    ensures Hit(rankOf(row).value, row) in HitsBelow(rankOf, below)
    decreases below
  {
    if row < below - 1 {
      HitIsThere(rankOf, below - 1, row);
    }
  }

  lemma {:induction false} HitsAreCounted(rankOf: nat -> Option<nat>, below: nat)
    ensures |HitsBelow(rankOf, below)| == |Below(rankOf, below)|
  {
    if below > 0 {
      HitsAreCounted(rankOf, below - 1);
      BelowMore(rankOf, below - 1);
    }
  }

  lemma BelowMore(rankOf: nat -> Option<nat>, below: nat)
    ensures |Below(rankOf, below + 1)| == |Below(rankOf, below)| + (if rankOf(below).Some? then 1 else 0)
  {
    var before, after := Below(rankOf, below), Below(rankOf, below + 1);
    if rankOf(below).Some? {
      assert after == before + {below};
      assert below !in before;
    } else {
      assert after == before;
    }
  }

  /** The comparison of two hits; a position outside the index comes last. */
  function HitBefore(index: Index): (Hit, Hit) -> bool {
    (lhs: Hit, rhs: Hit) =>
      if lhs.rank != rhs.rank then lhs.rank < rhs.rank
      else if NameAt(index, lhs.row) != NameAt(index, rhs.row)
      then BytesBefore(NameAt(index, lhs.row), NameAt(index, rhs.row))
      else lhs.row < rhs.row
  }

  function NameAt(index: Index, row: nat): string {
    if row < |index.names| then index.names[row] else ""
  }

  lemma HitsAreOrdered(index: Index)
    ensures StrictWeak(HitBefore(index))
  {
    var less := HitBefore(index);
    forall x, y, z: Hit
      ensures !less(x, x) && (less(x, y) ==> !less(y, x))
      ensures !less(x, y) && !less(y, z) ==> !less(x, z)
    {
      BytesAreOrdered(NameAt(index, z.row), NameAt(index, y.row), NameAt(index, x.row));
      BytesAreOrdered(NameAt(index, x.row), NameAt(index, y.row), NameAt(index, z.row));
      BytesAreOrdered(NameAt(index, x.row), NameAt(index, z.row), NameAt(index, y.row));
    }
  }

  /** What is searched for: the query without surrounding spaces, case folded. */
  function Needle(query: string, fold: string -> string): string {
    fold(TrimBack(TrimFront(query)))
  }

  /** An empty needle matches nothing. Positions are exact as long as they fit 32 bits. */
  method SearchPackages(index: Index, query: string, limit: nat, fold: string -> string)
      returns (result: SearchResult)
    requires ValidIndex(index)
    ensures Needle(query, fold) == "" ==> result == SearchResult([], 0)
    ensures Needle(query, fold) != "" ==>
              && result.totalMatches == |AllMatches(index, Needle(query, fold))|
              && |result.rows| == (if limit < result.totalMatches then limit else result.totalMatches)
              && (|index.names| <= UINT32_SPAN ==> IsTop(index, Needle(query, fold), limit, result.rows))
  {
    var trimmed := TrimAscii(query);
    var needle := fold(trimmed);
    if needle == "" {
      return SearchResult([], 0);
    }
    var found := CollectHits(|index.names|, RankOf(index, needle));
    HitsAreCounted(RankOf(index, needle), |index.names|);
    RankedAreMatches(index, needle);
    var hits := new Hit[|found|](i requires 0 <= i < |found| => found[i]);
    assert hits[..] == found;
    var shown := if limit < |found| then limit else |found|;
    HitsAreOrdered(index);
    PartialSort(hits, shown, HitBefore(index));
    if |index.names| <= UINT32_SPAN {
      HitsAreCollected(RankOf(index, needle), |index.names|);
      TopHits(index, needle, limit, found, hits[..], shown);
    }
    var rows := Rows(hits, shown);
    return SearchResult(rows, |found|);
  }

  method Rows(hits: array<Hit>, shown: nat) returns (rows: seq<nat>)
    requires shown <= hits.Length
    ensures rows == RowsOf(hits[..shown])
  {
    rows := [];
    for i := 0 to shown
      invariant rows == RowsOf(hits[..i])
    {
      rows := rows + [hits[i].row];
    }
  }

  function RowsOf(hits: seq<Hit>): (rows: seq<nat>)
    ensures |rows| == |hits|
  {
    seq(|hits|, i requires 0 <= i < |hits| => hits[i].row)
  }

  lemma TopHits(index: Index, needle: string, limit: nat, found: seq<Hit>, sorted: seq<Hit>, shown: nat)
    requires ValidIndex(index)
    requires Collected(RankOf(index, needle), found, |index.names|)
    requires |found| == |Below(RankOf(index, needle), |index.names|)|
    requires multiset(sorted) == multiset(found) && shown == if limit < |found| then limit else |found|
    requires shown <= |sorted| && forall i | 0 <= i < shown :: LeastAt(sorted, HitBefore(index), i, i, |sorted|)
    ensures IsTop(index, needle, limit, RowsOf(sorted[..shown]))
    ensures |found| == |AllMatches(index, needle)|
  {
    SameElements(found, sorted);
    StaysDistinct(found, sorted);
    var rows, matches := RowsOf(sorted[..shown]), AllMatches(index, needle);
    RankedAreMatches(index, needle);
    forall i | 0 <= i < |sorted|
      ensures sorted[i].row in matches && sorted[i].rank == Rank(index, needle, sorted[i].row)
    {
      assert sorted[i] in found;
      MatchRankIsRank(index, needle, sorted[i].row);
    }
    forall i, j | 0 <= i < shown && i < j < |sorted|
      ensures Before(index, needle, sorted[i].row, sorted[j].row)
    {
      LeastAtSays(sorted, HitBefore(index), i, j);
      LeastIsBefore(index, needle, sorted[i], sorted[j]);
    }
    forall j | 0 <= j < shown
      ensures rows[j] == sorted[j].row && sorted[j].row in rows
    {
      assert rows[j] in rows;
    }
    forall i, other | 0 <= i < |rows| && other in matches && other !in rows
      ensures Before(index, needle, rows[i], other)
    {
      var hit := Hit(RankOf(index, needle)(other).value, other);
      assert hit in found;
      var j :| 0 <= j < |sorted| && sorted[j] == hit;
    }
  }

  lemma RankedAreMatches(index: Index, needle: string)
    requires ValidIndex(index)
    ensures Below(RankOf(index, needle), |index.names|) == AllMatches(index, needle)
  {
    forall row: nat | row < |index.names|
      ensures RankOf(index, needle)(row).Some? <==> Matches(index, needle, row)
    {
      MatchRankIsRank(index, needle, row);
    }
  }

  lemma LeastAtSays<T>(s: seq<T>, less: (T, T) -> bool, i: nat, j: nat)
    requires i < j < |s| && LeastAt(s, less, i, i, |s|)
    ensures !less(s[j], s[i])
  {
  }

  lemma LeastIsBefore(index: Index, needle: string, a: Hit, b: Hit)
    requires ValidIndex(index) && a.row < |index.names| && b.row < |index.names| && a != b
    requires a.rank == Rank(index, needle, a.row) && b.rank == Rank(index, needle, b.row)
    requires !HitBefore(index)(b, a)
    ensures Before(index, needle, a.row, b.row)
  {
    BytesAreOrdered(index.names[a.row], index.names[b.row], "");
  }

  // The properties

  /** The order decides: no other rows are the top ones. */
  lemma {:induction false} TopIsUnique(index: Index, needle: string, limit: nat, rows: seq<nat>, others: seq<nat>)
    requires ValidIndex(index) && IsTop(index, needle, limit, rows) && IsTop(index, needle, limit, others)
    ensures rows == others
  {
    forall k | 0 <= k < |rows|
      ensures rows[k] == others[k]
    {
      SameAtEach(index, needle, limit, rows, others, k);
    }
  }

  lemma {:induction false} SameAtEach(index: Index, needle: string, limit: nat, rows: seq<nat>, others: seq<nat>,
                                      k: nat)
    requires ValidIndex(index) && IsTop(index, needle, limit, rows) && IsTop(index, needle, limit, others)
    requires k < |rows|
    ensures rows[k] == others[k]
  {
    forall i | 0 <= i < k
      ensures rows[i] == others[i]
    {
      SameAtEach(index, needle, limit, rows, others, i);
    }
    if rows[k] != others[k] {
      NotAfter(index, needle, limit, rows, others, k);
      NotAfter(index, needle, limit, others, rows, k);
      BeforeIsOrder(index, needle, rows[k], others[k], rows[k]);
    }
  }

  /** If two lists agree up to a position, the element of the one there is before the differing one of the other. */
  lemma NotAfter(index: Index, needle: string, limit: nat, rows: seq<nat>, others: seq<nat>, k: nat)
    requires ValidIndex(index) && IsTop(index, needle, limit, rows) && IsTop(index, needle, limit, others)
    requires k < |rows| && rows[k] != others[k] && forall i | 0 <= i < k :: rows[i] == others[i]
    ensures Before(index, needle, rows[k], others[k])
  {
    if others[k] in rows {
      var j :| 0 <= j < |rows| && rows[j] == others[k];
      if j < k {
        BeforeIsOrder(index, needle, others[j], others[k], others[j]);
      }
    }
  }

  /** A smaller limit gives a prefix. */
  lemma SmallerLimitIsPrefix(index: Index, needle: string, limit: nat, smaller: nat, rows: seq<nat>, fewer: seq<nat>)
    requires ValidIndex(index) && smaller <= limit
    requires IsTop(index, needle, limit, rows) && IsTop(index, needle, smaller, fewer)
    ensures fewer <= rows
  {
    var prefix := rows[..|fewer|];
    assert forall j | 0 <= j < |prefix| :: rows[j] == prefix[j] && rows[j] in prefix;
    assert IsTop(index, needle, smaller, prefix) by {
      forall i, other | 0 <= i < |prefix| && other in AllMatches(index, needle) && other !in prefix
        ensures Before(index, needle, prefix[i], other)
      {
        if other in rows {
          var j :| 0 <= j < |rows| && rows[j] == other;
        }
      }
    }
    TopIsUnique(index, needle, smaller, prefix, fewer);
  }

  function ElementsOf(rows: seq<nat>): set<nat> {
    set row | row in rows
  }

  /** With room for all of them, the rows are all the matches in order. */
  lemma UnlimitedIsAll(index: Index, needle: string, limit: nat, rows: seq<nat>)
    requires ValidIndex(index) && IsTop(index, needle, limit, rows) && |AllMatches(index, needle)| <= limit
    ensures ElementsOf(rows) == AllMatches(index, needle)
  {
    var found, matches := ElementsOf(rows), AllMatches(index, needle);
    assert found <= matches;
    forall i, j | 0 <= i < j < |rows|
      ensures rows[i] != rows[j]
    {
      BeforeIsOrder(index, needle, rows[i], rows[j], rows[j]);
    }
    DistinctSize(rows);
    SubsetOfSameSize(found, matches);
  }

  lemma {:induction false} DistinctSize(rows: seq<nat>)
    requires Distinct(rows)
    ensures |ElementsOf(rows)| == |rows|
  {
    if rows != [] {
      var before, last := rows[..|rows| - 1], rows[|rows| - 1];
      assert Distinct(before) && last !in before;
      DistinctSize(before);
      assert rows == before + [last];
      assert ElementsOf(rows) == ElementsOf(before) + {last};
    }
  }

  lemma {:induction false} SubsetOfSameSize(small: set<nat>, large: set<nat>)
    requires small <= large && |small| == |large|
    ensures small == large
  {
    if small != large {
      var x :| x in large && x !in small;
      assert small <= large - {x};
      SubsetIsSmaller(small, large - {x});
    }
  }

  lemma {:induction false} SubsetIsSmaller(small: set<nat>, large: set<nat>)
    requires small <= large
    ensures |small| <= |large|
    decreases small
  {
    if small != {} {
      var x :| x in small;
      SubsetIsSmaller(small - {x}, large - {x});
    }
  }

  /** A needle that contains another matches a subset of the rows. */
  lemma LongerNeedleMatchesFewer(index: Index, longer: string, shorter: string)
    requires ValidIndex(index) && Contains(longer, shorter)
    ensures AllMatches(index, longer) <= AllMatches(index, shorter)
    ensures |AllMatches(index, longer)| <= |AllMatches(index, shorter)|
  {
    forall row <- AllMatches(index, longer)
      ensures row in AllMatches(index, shorter)
    {
      ContainsIsTransitive(index.names[row], longer, shorter);
      ContainsIsTransitive(index.descriptions[row], longer, shorter);
    }
    SubsetIsSmaller(AllMatches(index, longer), AllMatches(index, shorter));
  }

  lemma ContainsIsTransitive(text: string, longer: string, shorter: string)
    requires Contains(longer, shorter)
    ensures Contains(text, longer) ==> Contains(text, shorter)
  {
    if Contains(text, longer) {
      var at :| 0 <= at <= |text| && ContainedAt(text, longer, at);
      var inner :| 0 <= inner <= |longer| && ContainedAt(longer, shorter, inner);
      SliceOfSlice(text, at, at + |longer|, inner, inner + |shorter|);
      assert text[at + inner..at + inner + |shorter|] == longer[inner..inner + |shorter|];
      assert ContainedAt(text, shorter, at + inner);
    }
  }

  lemma SliceOfSlice(text: string, from: nat, to: nat, i: nat, j: nat)
    requires from <= to <= |text| && i <= j <= to - from
    ensures text[from..to][i..j] == text[from + i..from + j]
  {
    forall k | 0 <= k < j - i
      ensures text[from..to][i..j][k] == text[from + i..from + j][k]
    {
    }
    assert |text[from..to][i..j]| == |text[from + i..from + j]|;
  }
}
