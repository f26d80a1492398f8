/**
 * The persisted records (the files under Planner/dataModels) as values.
 *
 * Swift's `ListItem` base class (title, isChecked, sortIndex) is the
 * generic `ListItem<D>`; its two subclasses carry their own fields in `D`:
 * a planner event is `ListItem<EventDetails>`, a checklist entry is
 * `ListItem<ChecklistDetails>`. Object identity (`ObjectIdentifier`,
 * `PersistentIdentifier`) is the `Id` string that `String(describing:)`
 * prints for it.
 */
module Items {
  import opened Wrappers
  import SortIndex

  type Id = string

  datatype ListItem<+D> = ListItem(id: Id, title: string, isChecked: bool, sortIndex: real, details: D)

  datatype MultiDayConfig = MultiDayConfig(startEventId: string, endEventId: string)

  datatype CalendarConfig = CalendarConfig(
    endIso: string,
    calendarEventId: string,
    calendarId: string,
    isAllDay: bool,
    multiDayConfig: Option<MultiDayConfig>)

  datatype TimeConfig = TimeConfig(startIso: string, calendarConfig: Option<CalendarConfig>)

  /**
   * Fields of a planner event. `planner` is the datestamp of the owning
   * planner, for the revision that links events to a `Planner` record;
   * `datestamp` is the revision that stores the day on the event itself.
   */
  datatype EventDetails = EventDetails(
    datestamp: string,
    planner: Option<string>,
    timeConfig: Option<TimeConfig>,
    recurringId: Option<string>)

  type PlannerEvent = ListItem<EventDetails>

  /** `PlannerEvent(datestamp:sortIndex:)`: untitled, unchecked and untimed, on the given day. */
  function NewPlannerEvent(id: Id, datestamp: string, sortIndex: real): (e: PlannerEvent)
    ensures e.id == id && e.title == "" && !e.isChecked && e.sortIndex == sortIndex
    ensures e.details.datestamp == datestamp && e.details.timeConfig.None?
  {
    ListItem(id, "", false, sortIndex, EventDetails(datestamp, None, None, None))
  }

  datatype ChecklistItemType = Folder | Checklist | Item

  datatype ChecklistItemColor = Red | Orange | Yellow | Green | Cyan | Indigo | Purple | Brown | Label

  /**
   * Fields of a checklist entry: its kind, colour and parent. A parent's
   * `items` are the inverse of `parent`, so they are not stored here: they
   * are the records whose parent it is, in the order they were appended.
   */
  datatype ChecklistDetails = ChecklistDetails(
    itemType: ChecklistItemType,
    color: ChecklistItemColor,
    parent: Option<Id>)

  type ChecklistItem = ListItem<ChecklistDetails>

  /** `ChecklistItem(type:title:color:sortIndex:parent:)`: unchecked, with the given fields. */
  function NewChecklistItem(id: Id, itemType: ChecklistItemType, title: string, color: ChecklistItemColor,
                            sortIndex: real, parent: Option<Id>): (x: ChecklistItem)
    ensures x.id == id && x.title == title && !x.isChecked && x.sortIndex == sortIndex
    ensures x.details.itemType == itemType && x.details.color == color && x.details.parent == parent
  {
    ListItem(id, title, false, sortIndex, ChecklistDetails(itemType, color, parent))
  }

  /** The keys of a list, in list order. */
  function Keys<D>(items: seq<ListItem<D>>): (ks: seq<real>)
    ensures |ks| == |items|
    ensures forall i :: 0 <= i < |items| ==> ks[i] == items[i].sortIndex
  {
    seq(|items|, i requires 0 <= i < |items| => items[i].sortIndex)
  }

  predicate SortedByKey<D>(items: seq<ListItem<D>>) {
    forall i, j :: 0 <= i < j < |items| ==> items[i].sortIndex <= items[j].sortIndex
  }

  predicate UniqueIds<D>(items: seq<ListItem<D>>) {
    forall i, j :: 0 <= i < j < |items| ==> items[i].id != items[j].id
  }

  predicate HasId<D>(items: seq<ListItem<D>>, id: Id) {
    exists i :: 0 <= i < |items| && items[i].id == id
  }

  /** `items.filter { $0.id != id }` */
  function WithoutId<D>(items: seq<ListItem<D>>, id: Id): (r: seq<ListItem<D>>)
    ensures forall i :: 0 <= i < |r| ==> r[i] in items && r[i].id != id
    ensures forall i :: 0 <= i < |items| && items[i].id != id ==> items[i] in r
    ensures |r| <= |items|
  {
    if items == [] then []
    else (if items[0].id == id then [] else [items[0]]) + WithoutId(items[1..], id)
  }

  /** Removing an id no record carries changes nothing. */
  lemma WithoutAbsentId<D>(items: seq<ListItem<D>>, id: Id)
    requires !HasId(items, id)
    ensures WithoutId(items, id) == items
  {
    if items != [] {
      WithoutAbsentId(items[1..], id);
    }
  }

  /** Removing an id distributes over concatenation. */
  lemma {:induction false} WithoutIdAppend<D>(a: seq<ListItem<D>>, b: seq<ListItem<D>>, id: Id)
    ensures WithoutId(a + b, id) == WithoutId(a, id) + WithoutId(b, id)
  {
    if a != [] {
      assert (a + b)[1..] == a[1..] + b && (a + b)[0] == a[0];
      WithoutIdAppend(a[1..], b, id);
      var head := if a[0].id == id then [] else [a[0]];
      calc {
        WithoutId(a + b, id);
        head + WithoutId(a[1..] + b, id);
        head + (WithoutId(a[1..], id) + WithoutId(b, id));
        (head + WithoutId(a[1..], id)) + WithoutId(b, id);
      }
    } else {
      assert a + b == b;
    }
  }

  /**
   * A single record is kept exactly when it has another id. With
   * `WithoutIdAppend` this makes `WithoutId` the order-keeping filter:
   * every other record stays, as often and in the order it was.
   */
  lemma WithoutIdSingle<D>(x: ListItem<D>, id: Id)
    ensures WithoutId([x], id) == if x.id == id then [] else [x]
  {
    assert [x][1..] == [];
  }

  /** After removing an id, no record carries it and distinct ids stay distinct. */
  lemma WithoutIdFacts<D>(items: seq<ListItem<D>>, id: Id)
    ensures !HasId(WithoutId(items, id), id)
    ensures UniqueIds(items) ==> UniqueIds(WithoutId(items, id))
    ensures forall x :: HasId(WithoutId(items, id), x) <==> HasId(items, x) && x != id
  {
    var r := WithoutId(items, id);
    forall x | HasId(items, x) && x != id
      ensures HasId(r, x)
    {
      var i :| 0 <= i < |items| && items[i].id == x;
      assert items[i] in r;
    }
    forall x | HasId(r, x)
      ensures HasId(items, x)
    {
      var i :| 0 <= i < |r| && r[i].id == x;
      assert r[i] in items;
    }
    if UniqueIds(items) {
      WithoutIdUnique(items, id);
    }
  }

  lemma {:induction false} WithoutIdUnique<D>(items: seq<ListItem<D>>, id: Id)
    requires UniqueIds(items)
    ensures UniqueIds(WithoutId(items, id))
  {
    if items != [] {
      UniqueTail(items);
      WithoutIdUnique(items[1..], id);
      WithoutIdCons(items, id);
      if items[0].id != id {
        var rest := WithoutId(items[1..], id);
        forall j | 0 <= j < |rest| ensures rest[j].id != items[0].id {
          FilteredTailAfterHead(items, id, j);
        }
        ConsUnique(items[0], rest);
      }
    }
  }

  /** One record at the front is kept exactly when its id differs. */
  lemma WithoutIdCons<D>(items: seq<ListItem<D>>, id: Id)
    requires items != []
    ensures WithoutId(items, id) == (if items[0].id == id then [] else [items[0]]) + WithoutId(items[1..], id)
  {
  }

  /** Every record the filter keeps from the tail stands somewhere after the head. */
  lemma FilteredTailAfterHead<D>(items: seq<ListItem<D>>, id: Id, j: nat)
    requires items != [] && j < |WithoutId(items[1..], id)|
    ensures exists m :: 1 <= m < |items| && items[m] == WithoutId(items[1..], id)[j]
  {
    var tail := items[1..];
    var y := WithoutId(tail, id)[j];
    assert y in tail;
    var m :| 0 <= m < |tail| && tail[m] == y;
    assert items[m + 1] == y;
  }

  lemma UniqueTail<D>(items: seq<ListItem<D>>)
    requires items != [] && UniqueIds(items)
    ensures UniqueIds(items[1..])
  {
    var tail := items[1..];
    forall a, b | 0 <= a < b < |tail| ensures tail[a].id != tail[b].id {
      assert tail[a] == items[a + 1] && tail[b] == items[b + 1];
    }
  }

  /** A record whose id no record of a list carries keeps ids unique in front of it. */
  lemma ConsUnique<D>(x: ListItem<D>, rest: seq<ListItem<D>>)
    requires UniqueIds(rest) && forall j :: 0 <= j < |rest| ==> rest[j].id != x.id
    ensures UniqueIds([x] + rest)
  {
    var r := [x] + rest;
    forall a, b | 0 <= a < b < |r| ensures r[a].id != r[b].id {
      assert r[b] == rest[b - 1];
      if a > 0 {
        assert r[a] == rest[a - 1];
      }
    }
  }

  /** The ids of a list, in list order. */
  function IdsOf<D>(items: seq<ListItem<D>>): (ids: seq<Id>)
    ensures |ids| == |items|
    ensures forall i :: 0 <= i < |items| ==> ids[i] == items[i].id
  {
    seq(|items|, i requires 0 <= i < |items| => items[i].id)
  }

  /** `items.filter { $0.isChecked == checked }` */
  function WithChecked<D(!new)>(items: seq<ListItem<D>>, checked: bool): (r: seq<ListItem<D>>)
    ensures forall x :: x in r <==> x in items && x.isChecked == checked
    ensures |r| <= |items|
  {
    if items == [] then []
    else (if items[0].isChecked == checked then [items[0]] else []) + WithChecked(items[1..], checked)
  }

  /** Replaces the key of every record with the given id; nothing else changes. */
  function SetKey<D>(items: seq<ListItem<D>>, id: Id, key: real): (r: seq<ListItem<D>>)
    ensures |r| == |items|
    ensures forall i :: 0 <= i < |items| ==>
      r[i] == if items[i].id == id then items[i].(sortIndex := key) else items[i]
  {
    seq(|items|, i requires 0 <= i < |items| => if items[i].id == id then items[i].(sortIndex := key) else items[i])
  }

  /** The tail of a key-sorted list is key-sorted. */
  lemma TailSorted<D>(items: seq<ListItem<D>>)
    requires items != [] && SortedByKey(items)
    ensures SortedByKey(items[1..])
  {
    var tail := items[1..];
    forall a, b | 0 <= a < b < |tail| ensures tail[a].sortIndex <= tail[b].sortIndex {
      assert tail[a] == items[a + 1] && tail[b] == items[b + 1];
    }
  }

  /** A record whose key is not above the first key of a sorted list keeps it sorted in front of it. */
  lemma ConsSorted<D>(x: ListItem<D>, rest: seq<ListItem<D>>)
    requires SortedByKey(rest) && (rest != [] ==> x.sortIndex <= rest[0].sortIndex)
    ensures SortedByKey([x] + rest)
  {
    var r := [x] + rest;
    forall a, b | 0 <= a < b < |r| ensures r[a].sortIndex <= r[b].sortIndex {
      assert r[b] == rest[b - 1];
      if a > 0 {
        assert r[a] == rest[a - 1];
      }
    }
  }

  /** A record whose key is below every key of a strictly sorted list keeps it strictly sorted in front of it. */
  lemma ConsStrictlySorted<D>(x: ListItem<D>, rest: seq<ListItem<D>>)
    requires StrictlySortedByKey(rest) && (rest != [] ==> x.sortIndex < rest[0].sortIndex)
    ensures StrictlySortedByKey([x] + rest)
  {
    var r := [x] + rest;
    forall a, b | 0 <= a < b < |r| ensures r[a].sortIndex < r[b].sortIndex {
      assert r[b] == rest[b - 1];
      if a > 0 {
        assert r[a] == rest[a - 1];
      }
    }
  }

  /** Inserts `x` into a key-sorted list after every key not above its own. */
  function InsertByKey<D>(sorted: seq<ListItem<D>>, x: ListItem<D>): (r: seq<ListItem<D>>)
    requires SortedByKey(sorted)
    ensures SortedByKey(r)
    ensures multiset(r) == multiset(sorted) + multiset{x}
    ensures |r| == |sorted| + 1
    ensures r[0] == x || (sorted != [] && r[0] == sorted[0])
  {
    if sorted == [] then [x]
    else if x.sortIndex < sorted[0].sortIndex then
      ConsSorted(x, sorted);
      [x] + sorted
    else
      TailSorted(sorted);
      var rest := InsertByKey(sorted[1..], x);
      assert sorted == [sorted[0]] + sorted[1..];
      assert sorted[0].sortIndex <= rest[0].sortIndex;
      ConsSorted(sorted[0], rest);
      [sorted[0]] + rest
  }

  /**
   * `items.sorted { $0.sortIndex < $1.sortIndex }`. Swift's sort is not
   * stable, so among records with equal keys this is one of the orders it
   * may produce; everything stated about sorted lists below holds for any
   * key-sorted permutation.
   */
  function SortByKey<D>(items: seq<ListItem<D>>): (r: seq<ListItem<D>>)
    ensures SortedByKey(r)
    ensures multiset(r) == multiset(items)
    ensures |r| == |items|
  {
    if items == [] then []
    else
      assert items == [items[0]] + items[1..];
      InsertByKey(SortByKey(items[1..]), items[0])
  }

  /** Every key strictly below the keys after it. */
  predicate StrictlySortedByKey<D>(items: seq<ListItem<D>>) {
    forall i, j :: 0 <= i < j < |items| ==> items[i].sortIndex < items[j].sortIndex
  }

  /** The keys of a strictly sorted list ascend, each strictly above the one before. */
  lemma StrictKeys<D>(items: seq<ListItem<D>>)
    requires StrictlySortedByKey(items)
    ensures SortIndex.Ascending(Keys(items))
    ensures forall i :: 0 < i < |items| ==> Keys(items)[i - 1] < Keys(items)[i]
  {
  }

  /** On positive, distinct keys, the gap key for `index` sorts at `index`, or after every record. */
  lemma GapKeyPlacesAt<D>(items: seq<ListItem<D>>, index: int)
    requires index >= 0 && StrictlySortedByKey(items)
    requires items != [] ==> items[0].sortIndex > 0.0
    ensures SortIndex.PlacesAt(SortIndex.GenerateSortIndex(index, Keys(items)),
                               if index < |items| then index else |items|, Keys(items))
  {
    StrictKeys(items);
    SortIndex.PlacesAtIndex(index, Keys(items));
  }

  /** Filtering out an id keeps a key-sorted list sorted. */
  lemma {:induction false} WithoutIdSorted<D>(items: seq<ListItem<D>>, id: Id)
    requires SortedByKey(items)
    ensures SortedByKey(WithoutId(items, id))
  {
    if items != [] {
      TailSorted(items);
      WithoutIdSorted(items[1..], id);
      if items[0].id != id {
        HeadBelowFiltered(items, id);
      }
    }
  }

  /** The head of a sorted list, kept in front of the filtered tail, keeps it sorted. */
  lemma HeadBelowFiltered<D>(items: seq<ListItem<D>>, id: Id)
    requires items != [] && items[0].id != id
    requires SortedByKey(items) && SortedByKey(WithoutId(items[1..], id))
    ensures SortedByKey(WithoutId(items, id))
  {
    var tail := items[1..];
    var rest := WithoutId(tail, id);
    assert WithoutId(items, id) == [items[0]] + rest;
    if rest != [] {
      var m :| 0 <= m < |tail| && tail[m] == rest[0];
      assert rest[0] == items[m + 1];
    }
    ConsSorted(items[0], rest);
  }

  /** Filtering out an id keeps strictly increasing keys strictly increasing. */
  lemma {:induction false} WithoutIdStrictlySorted<D>(items: seq<ListItem<D>>, id: Id)
    requires StrictlySortedByKey(items)
    ensures StrictlySortedByKey(WithoutId(items, id))
  {
    if items != [] {
      StrictTail(items);
      WithoutIdStrictlySorted(items[1..], id);
      WithoutIdCons(items, id);
      if items[0].id != id {
        var rest := WithoutId(items[1..], id);
        if rest != [] {
          FilteredTailAfterHead(items, id, 0);
        }
        ConsStrictlySorted(items[0], rest);
      }
    }
  }

  lemma StrictTail<D>(items: seq<ListItem<D>>)
    requires items != [] && StrictlySortedByKey(items)
    ensures StrictlySortedByKey(items[1..])
  {
    var tail := items[1..];
    forall a, b | 0 <= a < b < |tail| ensures tail[a].sortIndex < tail[b].sortIndex {
      assert tail[a] == items[a + 1] && tail[b] == items[b + 1];
    }
  }

  /** The unchecked and the checked records together are the list, counted with multiplicity. */
  lemma {:induction false} WithCheckedPartition<D(!new)>(items: seq<ListItem<D>>)
    ensures multiset(WithChecked(items, false)) + multiset(WithChecked(items, true)) == multiset(items)
  {
    if items != [] {
      var x, tail := items[0], items[1..];
      WithCheckedPartition(tail);
      assert items == [x] + tail;
      var u := if !x.isChecked then [x] else [];
      var c := if x.isChecked then [x] else [];
      assert WithChecked(items, false) == u + WithChecked(tail, false);
      assert WithChecked(items, true) == c + WithChecked(tail, true);
      assert multiset(u) + multiset(c) == multiset{x};
      calc {
        multiset(WithChecked(items, false)) + multiset(WithChecked(items, true));
        multiset(u) + multiset(WithChecked(tail, false)) + (multiset(c) + multiset(WithChecked(tail, true)));
        multiset{x} + multiset(tail);
        multiset(items);
      }
    }
  }

  /** Filtering distributes over appending one record. */
  lemma {:induction false} WithCheckedAppend<D(!new)>(items: seq<ListItem<D>>, x: ListItem<D>, checked: bool)
    ensures WithChecked(items + [x], checked) == WithChecked(items, checked) + (if x.isChecked == checked then [x] else [])
  {
    if items == [] {
      assert [x][1..] == [];
    } else {
      assert (items + [x])[1..] == items[1..] + [x];
      WithCheckedAppend(items[1..], x, checked);
    }
  }

  /** The first record with the given id: the object a handler was passed. */
  function FindById<D>(items: seq<ListItem<D>>, id: Id): (r: ListItem<D>)
    requires HasId(items, id)
    ensures r in items && r.id == id
    ensures UniqueIds(items) ==> forall i :: 0 <= i < |items| && items[i].id == id ==> items[i] == r
  {
    if items[0].id == id then items[0]
    else
      var i :| 0 <= i < |items| && items[i].id == id;
      assert items[1..][i - 1].id == id;
      var r := FindById(items[1..], id);
      assert UniqueIds(items) ==> UniqueIds(items[1..]) by {
        if UniqueIds(items) {
          forall a, b | 0 <= a < b < |items[1..]| ensures items[1..][a].id != items[1..][b].id {
            assert items[1..][a] == items[a + 1] && items[1..][b] == items[b + 1];
          }
        }
      }
      r
  }

  /** Writes `x` over every record with the given id; nothing else changes. */
  function Replace<D>(items: seq<ListItem<D>>, id: Id, x: ListItem<D>): (r: seq<ListItem<D>>)
    ensures |r| == |items|
    ensures forall i :: 0 <= i < |items| ==> r[i] == if items[i].id == id then x else items[i]
  {
    seq(|items|, i requires 0 <= i < |items| => if items[i].id == id then x else items[i])
  }

  /**
   * Writing a key on records whose flag differs from `checked` leaves the
   * records with that flag as they were.
   */
  lemma {:induction false} WithCheckedSetKey<D(!new)>(items: seq<ListItem<D>>, id: Id, key: real, checked: bool)
    requires forall i :: 0 <= i < |items| && items[i].id == id ==> items[i].isChecked != checked
    ensures WithChecked(SetKey(items, id, key), checked) == WithChecked(items, checked)
  {
    if items != [] {
      var r := SetKey(items, id, key);
      assert r[1..] == SetKey(items[1..], id, key);
      assert r[0].isChecked == items[0].isChecked;
      assert r[0].isChecked == checked ==> r[0] == items[0];
      WithCheckedSetKey(items[1..], id, key, checked);
    }
  }

  /** Filtering out an id some record carries leaves a shorter list. */
  lemma {:induction false} WithoutPresentIdShorter<D>(items: seq<ListItem<D>>, id: Id)
    requires HasId(items, id)
    ensures |WithoutId(items, id)| < |items|
  {
    if items[0].id != id {
      var i :| 0 <= i < |items| && items[i].id == id;
      assert items[1..][i - 1].id == id;
      WithoutPresentIdShorter(items[1..], id);
    }
  }

  /** Writing a key keeps every id where it was, so unique ids stay unique. */
  lemma SetKeyKeepsIds<D>(items: seq<ListItem<D>>, id: Id, key: real)
    ensures UniqueIds(items) ==> UniqueIds(SetKey(items, id, key))
  {
  }

  /** Writing a key twice leaves the second. */
  lemma SetKeyTwice<D>(items: seq<ListItem<D>>, id: Id, a: real, b: real)
    ensures SetKey(SetKey(items, id, a), id, b) == SetKey(items, id, b)
  {
    var l, r := SetKey(SetKey(items, id, a), id, b), SetKey(items, id, b);
    assert forall i :: 0 <= i < |l| ==> l[i] == r[i];
  }

  /** Writing a record and then its key is writing the record with that key. */
  lemma SetKeyAfterReplace<D>(items: seq<ListItem<D>>, id: Id, x: ListItem<D>, k: real)
    requires x.id == id
    ensures SetKey(Replace(items, id, x), id, k) == Replace(items, id, x.(sortIndex := k))
  {
    var l, r := SetKey(Replace(items, id, x), id, k), Replace(items, id, x.(sortIndex := k));
    assert forall i :: 0 <= i < |l| ==> l[i] == r[i];
  }

  /** Writing two records over the same id leaves the second. */
  lemma ReplaceTwice<D>(items: seq<ListItem<D>>, id: Id, x: ListItem<D>, y: ListItem<D>)
    requires x.id == id
    ensures Replace(Replace(items, id, x), id, y) == Replace(items, id, y)
  {
    var l, r := Replace(Replace(items, id, x), id, y), Replace(items, id, y);
    assert forall i :: 0 <= i < |l| ==> l[i] == r[i];
  }
}
