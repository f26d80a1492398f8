/**
 * Gap-insertion keys, current revision (Planner/utils/lists/generateSortIndex.swift).
 *
 * A row placed at `index` of a key-sorted list gets a key between its two
 * would-be neighbours, so no other row is renumbered. The list may or may
 * not contain the row being placed; only its keys are read.
 */
module SortIndex {

  /** Key of the first row of an empty list, and the gap left after the last row. */
  const Spacing: real := 8.0

  /**
   * What `generateSortIndex` demands of its caller: on a non-empty list a
   * negative index falls through to `items[index - 1]` and traps.
   */
  predicate Placeable(index: int, keys: seq<real>) {
    keys == [] || index >= 0
  }

  predicate Ascending(keys: seq<real>) {
    forall i, j :: 0 <= i < j < |keys| ==> keys[i] <= keys[j]
  }

  predicate AllPositive(keys: seq<real>) {
    forall i :: 0 <= i < |keys| ==> keys[i] > 0.0
  }

  /** `key` sorts strictly after the first `pos` keys and strictly before the rest. */
  predicate PlacesAt(key: real, pos: nat, keys: seq<real>)
    requires pos <= |keys|
  {
    (forall i :: 0 <= i < pos ==> keys[i] < key) &&
    (forall i :: pos <= i < |keys| ==> key < keys[i])
  }

  /** `generateSortIndex(index:items:)` over the keys of `items`. */
  function GenerateSortIndex(index: int, keys: seq<real>): (r: real)
    requires Placeable(index, keys)
    ensures AllPositive(keys) ==> r > 0.0
  {
    if keys == [] then Spacing
    else if index == 0 then keys[0] / 2.0
    else if index >= |keys| then keys[|keys| - 1] + Spacing
    else
      var before := keys[index - 1];
      var after := keys[index];
      before + ((after - before) / 2.0)
  }

  /** An empty list yields 8 whatever the index. */
  lemma EmptyListKey(index: int)
    ensures GenerateSortIndex(index, []) == 8.0
  {
  }

  /**
   * The main property: on an ascending list whose neighbours around the
   * target are distinct (and whose first key is positive when placing at
   * the top), the key lands exactly at position min(index, count).
   */
  lemma PlacesAtIndex(index: int, keys: seq<real>)
    requires index >= 0
    requires Ascending(keys)
    requires index == 0 && keys != [] ==> keys[0] > 0.0
    requires 0 < index < |keys| ==> keys[index - 1] < keys[index]
    ensures PlacesAt(GenerateSortIndex(index, keys), if index < |keys| then index else |keys|, keys)
  {
    var r := GenerateSortIndex(index, keys);
    if keys == [] {
    } else if index == 0 {
      assert forall i :: 0 <= i < |keys| ==> r < keys[0] <= keys[i];
    } else if index >= |keys| {
      assert forall i :: 0 <= i < |keys| ==> keys[i] <= keys[|keys| - 1] < r;
    } else {
      assert keys[index - 1] < r < keys[index];
      assert forall i :: 0 <= i < index ==> keys[i] <= keys[index - 1];
      assert forall i :: index <= i < |keys| ==> keys[index] <= keys[i];
    }
  }

  /** Index 0: half the first key, strictly between 0 and a positive first key. */
  lemma TopHalvesFirstKey(keys: seq<real>)
    requires keys != []
    ensures GenerateSortIndex(0, keys) * 2.0 == keys[0]
    ensures keys[0] > 0.0 ==> 0.0 < GenerateSortIndex(0, keys) < keys[0]
  {
  }

  /** Index at or past the end: 8 above the last key, so above every key of an ascending list. */
  lemma EndIsAboveAll(index: int, keys: seq<real>)
    requires keys != [] && index >= |keys|
    requires Ascending(keys)
    ensures GenerateSortIndex(index, keys) == keys[|keys| - 1] + 8.0
    ensures forall i :: 0 <= i < |keys| ==> keys[i] < GenerateSortIndex(index, keys)
  {
    assert forall i :: 0 <= i < |keys| ==> keys[i] <= keys[|keys| - 1];
  }

  /** An interior index yields the midpoint of its two neighbours. */
  lemma InteriorIsMidpoint(index: int, keys: seq<real>)
    requires 0 < index < |keys|
    ensures GenerateSortIndex(index, keys) == (keys[index - 1] + keys[index]) / 2.0
    ensures keys[index - 1] < keys[index] ==>
      keys[index - 1] < GenerateSortIndex(index, keys) < keys[index]
  {
  }

  /** The keys produced by pressing "Add" `n` times on an empty list. */
  function AppendedKeys(n: nat): (keys: seq<real>)
    ensures |keys| == n
  {
    if n == 0 then [] else
      var prior := AppendedKeys(n - 1);
      prior + [GenerateSortIndex(|prior|, prior)]
  }

  /** Appending repeatedly from an empty list yields 8, 16, 24, ... */
  lemma {:induction false} AppendedKeysAreMultiplesOfEight(n: nat)
    ensures forall i :: 0 <= i < n ==> AppendedKeys(n)[i] == 8.0 * (i + 1) as real
  {
    if n > 0 {
      AppendedKeysAreMultiplesOfEight(n - 1);
      var prior := AppendedKeys(n - 1);
      assert n > 1 ==> prior[n - 2] == 8.0 * (n - 1) as real;
    }
  }

  /** Keys built only by this function stay positive, so a top insertion never ties. */
  lemma PositiveKeysNeverTie(keys: seq<real>)
    requires keys != [] && AllPositive(keys)
    ensures GenerateSortIndex(0, keys) != keys[0]
    ensures GenerateSortIndex(0, keys) > 0.0
  {
  }
}
