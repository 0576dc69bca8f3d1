/** Updates sorted by name, with ties in their original order. */
module UpdateOrder {
  import opened Domain
  import opened ByteStrings

  predicate NameBefore(left: PendingUpdate, right: PendingUpdate) {
    BytesBefore(left.name, right.name)
  }

  predicate Sorted(updates: seq<PendingUpdate>) {
    forall i, j | 0 <= i < j < |updates| :: !NameBefore(updates[j], updates[i])
  }

  /** The updates of one name, in order. */
  function Named(updates: seq<PendingUpdate>, name: string): seq<PendingUpdate> {
    if updates == [] then []
    else
      var last := updates[|updates| - 1];
      Named(updates[..|updates| - 1], name) + (if last.name == name then [last] else [])
  }

  /** The same updates, and those of the same name in the same order. */
  ghost predicate Stable(before: seq<PendingUpdate>, after: seq<PendingUpdate>) {
    forall name :: Named(after, name) == Named(before, name)
  }

  lemma {:induction false} NamedBoth(first: seq<PendingUpdate>, second: seq<PendingUpdate>, name: string)
    ensures Named(first + second, name) == Named(first, name) + Named(second, name)
  {
    if second == [] {
      assert first + second == first;
    } else {
      var all, before := first + second, second[..|second| - 1];
      assert all[..|all| - 1] == first + before;
      NamedBoth(first, before, name);
    }
  }

  lemma NamedPair(x: PendingUpdate, y: PendingUpdate, name: string)
    requires x.name != y.name
    ensures Named([x, y], name) == Named([y, x], name)
  {
    assert [x, y][..1] == [x] && [y, x][..1] == [y];
    assert [x][..0] == [] && [y][..0] == [];
  }

  function Swapped(updates: seq<PendingUpdate>, j: nat): seq<PendingUpdate>
    requires 0 < j < |updates|
  {
    updates[j - 1 := updates[j]][j := updates[j - 1]]
  }

  /** Exchanging two neighbours of different names keeps the order within every name. */
  lemma SwapIsStable(updates: seq<PendingUpdate>, j: nat)
    requires 0 < j < |updates| && updates[j - 1].name != updates[j].name
    ensures Stable(updates, Swapped(updates, j))
  {
    var before, after := updates[..j - 1], updates[j + 1..];
    var x, y := updates[j - 1], updates[j];
    assert updates == before + [x, y] + after;
    assert Swapped(updates, j) == before + [y, x] + after;
    forall name
      ensures Named(Swapped(updates, j), name) == Named(updates, name)
    {
      NamedBoth(before + [x, y], after, name);
      NamedBoth(before, [x, y], name);
      NamedBoth(before + [y, x], after, name);
      NamedBoth(before, [y, x], name);
      NamedPair(x, y, name);
    }
  }

  /** The first `count` updates are sorted but for the one at j, which comes before all that follow it. */
  predicate SortedBut(updates: seq<PendingUpdate>, count: nat, j: nat) {
    && j < count <= |updates|
    && (forall x, y | 0 <= x < y < count && x != j && y != j :: !NameBefore(updates[y], updates[x]))
    && (forall y | j < y < count :: !NameBefore(updates[y], updates[j]))
  }

  lemma SwapSorts(updates: seq<PendingUpdate>, count: nat, j: nat)
    requires 0 < j && SortedBut(updates, count, j) && NameBefore(updates[j], updates[j - 1])
    ensures updates[j - 1].name != updates[j].name
    ensures SortedBut(Swapped(updates, j), count, j - 1)
  {
    BytesAreOrdered(updates[j].name, updates[j - 1].name, updates[j].name);
  }

  lemma NothingLeftToSwap(updates: seq<PendingUpdate>, count: nat, j: nat)
    requires SortedBut(updates, count, j) && (j > 0 ==> !NameBefore(updates[j], updates[j - 1]))
    ensures Sorted(updates[..count])
  {
    forall x, y | 0 <= x < y < count
      ensures !NameBefore(updates[y], updates[x])
    {
      if y == j && x < j - 1 {
        NotBeforeEither(updates[j], updates[j - 1], updates[x]);
      }
    }
  }

  lemma NotBeforeEither(a: PendingUpdate, b: PendingUpdate, c: PendingUpdate)
    requires !NameBefore(a, b) && !NameBefore(b, c)
    ensures !NameBefore(a, c)
  {
    BytesAreOrdered(a.name, c.name, b.name);
    BytesAreOrdered(c.name, b.name, a.name);
    BytesAreOrdered(a.name, b.name, c.name);
  }

  method SortUpdatesByName(updates: array<PendingUpdate>)
    modifies updates
    ensures Sorted(updates[..]) && Stable(old(updates[..]), updates[..])
  {
    for i := 0 to updates.Length
      invariant Sorted(updates[..i]) && Stable(old(updates[..]), updates[..])
    {
      var j := i;
      assert SortedBut(updates[..], i + 1, j) by {
        assert forall x | 0 <= x < i :: updates[..][x] == updates[..i][x];
      }
      while j > 0 && NameBefore(updates[j], updates[j - 1])
        invariant 0 <= j <= i && SortedBut(updates[..], i + 1, j) && Stable(old(updates[..]), updates[..])
      {
        ghost var before := updates[..];
        SwapSorts(before, i + 1, j);
        SwapIsStable(before, j);
        updates[j - 1], updates[j] := updates[j], updates[j - 1];
        assert updates[..] == Swapped(before, j);
        j := j - 1;
      }
      NothingLeftToSwap(updates[..], i + 1, j);
    }
    assert updates[..updates.Length] == updates[..];
  }

  // There is only one such order

  lemma {:induction false} NamedIsThere(updates: seq<PendingUpdate>, name: string)
    ensures Named(updates, name) != [] <==> exists i | 0 <= i < |updates| :: updates[i].name == name
  {
    if updates != [] {
      var before, last := updates[..|updates| - 1], updates[|updates| - 1];
      NamedIsThere(before, name);
      assert forall i | 0 <= i < |before| :: before[i] == updates[i];
      if Named(before, name) != [] {
        var i :| 0 <= i < |before| && before[i].name == name;
        assert updates[i].name == name;
      }
    }
  }

  lemma FirstOfName(updates: seq<PendingUpdate>)
    requires updates != []
    ensures forall name :: Named(updates, name) ==
                           (if updates[0].name == name then [updates[0]] else []) + Named(updates[1..], name)
  {
    forall name
      ensures Named(updates, name) ==
              (if updates[0].name == name then [updates[0]] else []) + Named(updates[1..], name)
    {
      assert updates == [updates[0]] + updates[1..];
      NamedBoth([updates[0]], updates[1..], name);
      assert [updates[0]][..0] == [];
    }
  }

  /** In a sorted list no name in it comes before the first. */
  lemma NoEarlierName(updates: seq<PendingUpdate>, others: seq<PendingUpdate>)
    requires updates != [] && Sorted(updates) && others != [] && Stable(updates, others)
    ensures !NameBefore(others[0], updates[0])
  {
    NamedIsThere(others, others[0].name);
    NamedIsThere(updates, others[0].name);
    var i :| 0 <= i < |updates| && updates[i].name == others[0].name;
    BytesAreOrdered(others[0].name, others[0].name, others[0].name);
  }

  /** Two sorted lists with the same updates in the same order within each name are the same list. */
  lemma {:induction false} StableOrderIsUnique(updates: seq<PendingUpdate>, others: seq<PendingUpdate>)
    requires Sorted(updates) && Sorted(others) && Stable(updates, others)
    ensures updates == others
    decreases |updates|
  {
    if updates == [] || others == [] {
      NothingNamed(updates, others);
    } else {
      NoEarlierName(updates, others);
      NoEarlierName(others, updates);
      BytesAreOrdered(updates[0].name, others[0].name, updates[0].name);
      FirstOfName(updates);
      FirstOfName(others);
      var name := updates[0].name;
      assert Named(updates, name)[0] == updates[0] && Named(others, name)[0] == others[0];
      RestIsStable(updates, others);
      StableOrderIsUnique(updates[1..], others[1..]);
      assert updates == [updates[0]] + updates[1..] && others == [others[0]] + others[1..];
    }
  }

  lemma NothingNamed(updates: seq<PendingUpdate>, others: seq<PendingUpdate>)
    requires Stable(updates, others) && (updates == [] || others == [])
    ensures updates == others
  {
    if updates != [] {
      assert Named(updates, updates[0].name) == [];
      NamedIsThere(updates, updates[0].name);
    } else if others != [] {
      assert Named(others, others[0].name) == [];
      NamedIsThere(others, others[0].name);
    }
  }

  lemma RestIsStable(updates: seq<PendingUpdate>, others: seq<PendingUpdate>)
    requires updates != [] && others != [] && updates[0] == others[0] && Stable(updates, others)
    ensures Stable(updates[1..], others[1..])
  {
    FirstOfName(updates);
    FirstOfName(others);
    forall name
      ensures Named(others[1..], name) == Named(updates[1..], name)
    {
      var first := if updates[0].name == name then [updates[0]] else [];
      assert Named(updates, name) == first + Named(updates[1..], name);
      assert Named(others, name) == first + Named(others[1..], name);
      assert (first + Named(updates[1..], name))[|first|..] == Named(updates[1..], name);
      assert (first + Named(others[1..], name))[|first|..] == Named(others[1..], name);
    }
  }
}
