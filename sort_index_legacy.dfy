/**
 * Gap-insertion keys, earlier revision (Planner/utils/generateSortIndex.swift).
 * Same signature and branches as the current revision except that an
 * empty list yields 0.
 */
module SortIndexLegacy {
  import SortIndex

  /** `generateSortIndex(index:items:)` of the earlier revision. */
  function GenerateSortIndex(index: int, keys: seq<real>): (r: real)
    requires SortIndex.Placeable(index, keys)
    ensures keys != [] ==> r == SortIndex.GenerateSortIndex(index, keys)
  {
    var newSortIndex :=
      if keys == [] then 0.0
      else if index == 0 then keys[0] / 2.0
      else if index >= |keys| then keys[|keys| - 1] + 8.0
      else
        var before := keys[index - 1];
        var after := keys[index];
        before + ((after - before) / 2.0);
    newSortIndex
  }

  /** The two revisions differ only on the empty list: 0 here, 8 there. */
  lemma DiffersOnlyOnEmpty(index: int, keys: seq<real>)
    requires SortIndex.Placeable(index, keys)
    ensures GenerateSortIndex(index, keys) == SortIndex.GenerateSortIndex(index, keys) <==> keys != []
    ensures keys == [] ==> GenerateSortIndex(index, keys) == 0.0
  {
  }

  /** The keys produced by pressing "Add" `n` times on an empty list. */
  function AppendedKeys(n: nat): (keys: seq<real>)
    ensures |keys| == n
  {
    if n == 0 then [] else
      var prior := AppendedKeys(n - 1);
      prior + [GenerateSortIndex(|prior|, prior)]
  }

  /** Appending repeatedly from an empty list yields 0, 8, 16, ... */
  lemma {:induction false} AppendedKeysStartAtZero(n: nat)
    ensures forall i :: 0 <= i < n ==> AppendedKeys(n)[i] == 8.0 * i as real
  {
    if n > 0 {
      AppendedKeysStartAtZero(n - 1);
      var prior := AppendedKeys(n - 1);
      assert n > 1 ==> prior[n - 2] == 8.0 * (n - 2) as real;
    }
  }

  /**
   * A list started by this revision has first key 0; placing a row at the
   * top then halves 0 to 0, so the new row ties with the old first row and
   * their order is left to the sort.
   */
  lemma TopInsertAfterEmptyDefaultTies()
    ensures AppendedKeys(1) == [0.0]
    ensures GenerateSortIndex(0, AppendedKeys(1)) == AppendedKeys(1)[0]
  {
  }
}
