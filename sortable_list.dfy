/**
 * The list logic of the sortable list view, current revision
 * (Planner/views/SortableList/SortableList.swift): where a new row goes
 * when a create trigger fires, and how a drag destination is turned into
 * the index the row ends up at.
 *
 * The view reports through callbacks; here a create request is the index
 * it would pass to `onCreateItem` (or `None` when it passes nothing), and
 * a drag yields the `(from, to)` pairs it would pass to
 * `onMoveUncheckedItem`, in order.
 */
module SortableList {
  import opened Wrappers
  import opened Items

  /** `items.firstIndex(where: { $0.id == baseId })`, with `baseId` optional. */
  function FirstIndex<D>(items: seq<ListItem<D>>, baseId: Option<Id>): (r: Option<nat>)
    ensures r.Some? <==> exists i :: 0 <= i < |items| && Some(items[i].id) == baseId
    ensures r.Some? ==> r.value < |items| && Some(items[r.value].id) == baseId
    ensures r.Some? ==> forall i :: 0 <= i < r.value ==> Some(items[i].id) != baseId
  {
    if items == [] then None
    else if Some(items[0].id) == baseId then Some(0)
    else
      match FirstIndex(items[1..], baseId)
      case None => None
      case Some(i) => Some(i + 1)
  }

  /**
   * What `handleCreateItem` demands: the requested index `baseIndex + offset`
   * must lie in `[0, count]`, or one of the neighbour lookups traps.
   */
  predicate OffsetInRange<D>(items: seq<ListItem<D>>, baseId: Option<Id>, offset: int) {
    FirstIndex(items, baseId).Some? ==> 0 <= FirstIndex(items, baseId).value + offset <= |items|
  }

  /** Neither the row above index `k` nor the row at `k` has an empty title. */
  predicate NeighboursTitled<D>(items: seq<ListItem<D>>, k: nat)
    requires k <= |items|
  {
    (k > 0 ==> items[k - 1].title != "") && (k < |items| ==> items[k].title != "")
  }

  /**
   * `handleCreateItem(baseId:offset:)`: the index handed to `onCreateItem`,
   * or `None` when the base row is unknown or a neighbour of the new row
   * has an empty title.
   */
  function CreateIndex<D>(items: seq<ListItem<D>>, baseId: Option<Id>, offset: int): (r: Option<nat>)
    requires OffsetInRange(items, baseId, offset)
    ensures FirstIndex(items, baseId).None? ==> r.None?
    ensures FirstIndex(items, baseId).Some? ==>
      var k := FirstIndex(items, baseId).value + offset;
      0 <= k <= |items| && (r.Some? <==> NeighboursTitled(items, k)) && (r.Some? ==> r.value == k)
  {
    match FirstIndex(items, baseId)
    case None => None
    case Some(baseIndex) =>
      var finalIndex := baseIndex + offset;
      if finalIndex > 0 && items[finalIndex - 1].title == "" then None
      else if finalIndex < |items| && items[finalIndex].title == "" then None
      else Some(finalIndex)
  }

  /** The top trigger: create above the first row. */
  function CreateTopItem<D>(items: seq<ListItem<D>>): Option<nat> {
    CreateIndex(items, if items == [] then None else Some(items[0].id), 0)
  }

  /** `handleCreateLowerItem`: create below the last row. */
  function CreateLowerItem<D>(items: seq<ListItem<D>>): Option<nat>
  {
    var baseId := if items == [] then None else Some(items[|items| - 1].id);
    assert FirstIndex(items, baseId).Some? ==> FirstIndex(items, baseId).value + 1 <= |items|;
    CreateIndex(items, baseId, 1)
  }

  /** Both triggers are inert on an empty list. */
  lemma TriggersInertOnEmptyList<D>(items: seq<ListItem<D>>)
    requires items == []
    ensures CreateTopItem(items).None? && CreateLowerItem(items).None?
  {
  }

  /** The top trigger creates at index 0 unless the first row is untitled. */
  lemma TopTriggerCreatesFirst<D>(items: seq<ListItem<D>>)
    requires items != []
    ensures CreateTopItem(items) == if items[0].title == "" then None else Some(0)
  {
  }

  /**
   * With distinct ids, the bottom trigger creates at index `count`, after
   * the last row, unless that row is untitled.
   */
  lemma BottomTriggerCreatesLast<D>(items: seq<ListItem<D>>)
    requires items != [] && UniqueIds(items)
    ensures CreateLowerItem(items) == if items[|items| - 1].title == "" then None else Some(|items|)
  {
    var baseId := Some(items[|items| - 1].id);
    assert FirstIndex(items, baseId) == Some(|items| - 1);
  }

  /** The destination adjustment inside `handleMoveUncheckedItem`. */
  function MoveTarget(source: int, destination: int): (to: int)
    ensures source < destination ==> to == destination - 1
    ensures destination <= source ==> to == destination
  {
    if destination > source then destination - 1 else destination
  }

  /** For a real row and a destination in `[0, count]`, the target is a real row. */
  lemma MoveTargetInRange(source: int, destination: int, count: int)
    requires 0 <= source < count && 0 <= destination <= count
    ensures 0 <= MoveTarget(source, destination) < count
  {
  }

  /** Dropping a row just below itself does not move it. */
  lemma DropBelowSelfIsNoOp(source: int)
    ensures MoveTarget(source, source + 1) == source
  {
  }

  /**
   * What the list view means by a drag of row `source` to `destination`:
   * the row is inserted before the row that was at `destination` (at the
   * end when `destination == count`).
   */
  function DragMove<T>(s: seq<T>, source: nat, destination: nat): (r: seq<T>)
    requires source < |s| && destination <= |s|
    ensures |r| == |s| && multiset(r) == multiset(s)
  {
    if source < destination then
      assert s == s[..source] + [s[source]] + s[source + 1..destination] + s[destination..];
      s[..source] + s[source + 1..destination] + [s[source]] + s[destination..]
    else
      assert s == s[..destination] + s[destination..source] + [s[source]] + s[source + 1..];
      s[..destination] + [s[source]] + s[destination..source] + s[source + 1..]
  }

  /** What the move callbacks do: take the row out of `from` and put it back at `to`. */
  function Reposition<T>(s: seq<T>, from: nat, to: nat): (r: seq<T>)
    requires from < |s| && to < |s|
    ensures |r| == |s| && r[to] == s[from]
  {
    var rest := s[..from] + s[from + 1..];
    rest[..to] + [s[from]] + rest[to..]
  }

  /**
   * The adjustment is right: repositioning to `MoveTarget(source,
   * destination)` gives exactly the drag the user made.
   */
  lemma MoveTargetRealisesDrag<T>(s: seq<T>, source: nat, destination: nat)
    requires source < |s| && destination <= |s|
    ensures Reposition(s, source, MoveTarget(source, destination) as nat) == DragMove(s, source, destination)
  {
    var to := MoveTarget(source, destination) as nat;
    var rest := s[..source] + s[source + 1..];
    if source < destination {
      assert rest[..to] == s[..source] + s[source + 1..destination];
      assert rest[to..] == s[destination..];
    } else {
      assert rest[..to] == s[..destination];
      assert rest[to..] == s[destination..source] + s[source + 1..];
    }
  }

  /**
   * `handleMoveUncheckedItem(from:to:)`: one `(source, to)` request per
   * dragged row, in the order the index set yields them.
   */
  method HandleMoveUncheckedItem(sources: seq<nat>, destination: int) returns (moves: seq<(int, int)>)
    ensures |moves| == |sources|
    ensures forall k :: 0 <= k < |sources| ==> moves[k] == (sources[k] as int, MoveTarget(sources[k], destination))
  {
    moves := [];
    for n := 0 to |sources|
      invariant |moves| == n
      invariant forall k :: 0 <= k < n ==> moves[k] == (sources[k] as int, MoveTarget(sources[k], destination))
    {
      var source := sources[n];
      var to := destination;
      if to > source {
        to := to - 1;
      }
      moves := moves + [(source as int, to)];
    }
  }
}
