/**
 * The chronological reconciler
 * (Planner/utils/planners/generateValidPlannerEventSortIndex.swift).
 *
 * After a planner event is moved or gains a time, the reconciler picks a
 * key that keeps the timed events of the day in time order: it sorts a
 * copy of the day's events by key and walks it from the highest key down,
 * skipping events without a time, and either keeps the event's key or
 * returns a gap-insertion key just after the nearest timed event that is
 * not later than it.
 */
module Reconcile {
  import opened Wrappers
  import opened Items
  import opened StringExt
  import opened EventTime
  import SortIndex

  /** `(events.first?.sortIndex ?? 8) / 2`: the key of an event earlier than every other timed one. */
  function EarliestKey(sorted: seq<PlannerEvent>): (k: real)
    ensures sorted != [] ==> k * 2.0 == sorted[0].sortIndex
    ensures sorted == [] ==> k == 4.0
  {
    (if sorted == [] then 8.0 else sorted[0].sortIndex) / 2.0
  }

  /**
   * Where the scan leaves the event: just after the record at position `h`
   * of the sorted copy, where it is, or above every record.
   */
  datatype Placement = After(h: nat) | Keep | Top

  /** The key a placement gives the event whose key is `key`. */
  function KeyOf(p: Placement, key: real, sorted: seq<PlannerEvent>): real {
    match p
    case After(h) => SortIndex.GenerateSortIndex(h + 1, Keys(sorted))
    case Keep => key
    case Top => EarliestKey(sorted)
  }

  /**
   * The reverse scan, with positions `i - 1` down to `0` still to visit and
   * the flags `eventWasFound` and `eventNeedsMoving` as `found` and `moving`.
   * The event being placed has id `id` and time `t`.
   */
  function Scan(id: Id, t: string, sorted: seq<PlannerEvent>, i: nat, found: bool, moving: bool): Placement
    requires i <= |sorted|
    decreases i
  {
    if i == 0 then Top
    else
      var p := sorted[i - 1];
      var pt := TimeOf(p);
      if pt.None? then Scan(id, t, sorted, i - 1, found, moving)
      else if p.id == id then Scan(id, t, sorted, i - 1, true, moving)
      else if IsEarlierOrEqual(pt.value, t) then (if !found || moving then After(i - 1) else Keep)
      else Scan(id, t, sorted, i - 1, found, found || moving)
  }

  /** Where a timed event goes in a key-sorted copy of its day. */
  function PlacementOf(event: PlannerEvent, sorted: seq<PlannerEvent>): Placement
    requires TimeOf(event).Some?
  {
    Scan(event.id, TimeOf(event).value, sorted, |sorted|, false, false)
  }

  /** The reconciled key of `event` against a key-sorted copy of its day. */
  function ReconcileSorted(event: PlannerEvent, sorted: seq<PlannerEvent>): real {
    if TimeOf(event).None? then event.sortIndex
    else KeyOf(PlacementOf(event, sorted), event.sortIndex, sorted)
  }

  /** The reconciled key of `event` against its day's events, in any order. */
  function ReconciledKey(event: PlannerEvent, events: seq<PlannerEvent>): real {
    ReconcileSorted(event, SortByKey(events))
  }

  /** `generateValidPlannerEventSortIndex(event:events:)` */
  method GenerateValidPlannerEventSortIndex(event: PlannerEvent, events: seq<PlannerEvent>) returns (r: real)
    ensures r == ReconciledKey(event, events)
  {
    var prevSortIndex := event.sortIndex;
    var eventTime := GetPlannerEventTime(Some(event));
    if eventTime.None? {
      return prevSortIndex;
    }
    var t := eventTime.value;
    var eventWasFound, eventNeedsMoving := false, false;
    var sorted := SortByKey(events);
    ghost var goal := Scan(event.id, t, sorted, |sorted|, false, false);
    assert KeyOf(goal, prevSortIndex, sorted) == ReconciledKey(event, events);
    var index: int := |sorted|;
    while index > 0
      invariant 0 <= index <= |sorted|
      invariant Scan(event.id, t, sorted, index, eventWasFound, eventNeedsMoving) == goal
    {
      index := index - 1;
      var scanned := sorted[index];
      var scannedTime := GetPlannerEventTime(Some(scanned));
      if scannedTime.None? {
        continue;
      }
      if scanned.id == event.id {
        eventWasFound := true;
      } else if IsEarlierOrEqual(scannedTime.value, t) {
        if !eventWasFound || eventNeedsMoving {
          return SortIndex.GenerateSortIndex(index + 1, Keys(sorted));
        } else {
          return prevSortIndex;
        }
      } else if eventWasFound {
        eventNeedsMoving := true;
      }
    }
    return EarliestKey(sorted);
  }

  // ---------------------------------------------------------------------
  // A direct description of the result
  // ---------------------------------------------------------------------

  /** Position `j` holds a timed event other than the one being placed. */
  predicate OtherTimed(sorted: seq<PlannerEvent>, id: Id, j: nat)
    requires j < |sorted|
  {
    sorted[j].id != id && TimeOf(sorted[j]).Some?
  }

  /** Position `j` holds another timed event whose time is not after `t`. */
  predicate EarlierAt(sorted: seq<PlannerEvent>, id: Id, t: string, j: nat)
    requires j < |sorted|
  {
    OtherTimed(sorted, id, j) && IsEarlierOrEqual(TimeOf(sorted[j]).value, t)
  }

  /** The highest position in `[lo, hi)` holding an event not after `t`. */
  function LastEarlier(sorted: seq<PlannerEvent>, id: Id, t: string, lo: nat, hi: nat): (r: Option<nat>)
    requires lo <= hi <= |sorted|
    ensures r.Some? ==> lo <= r.value < hi && EarlierAt(sorted, id, t, r.value)
    ensures r.Some? ==> forall j :: r.value < j < hi ==> !EarlierAt(sorted, id, t, j)
    ensures r.None? ==> forall j :: lo <= j < hi ==> !EarlierAt(sorted, id, t, j)
    decreases hi - lo
  {
    if lo == hi then None
    else if EarlierAt(sorted, id, t, hi - 1) then Some(hi - 1)
    else LastEarlier(sorted, id, t, lo, hi - 1)
  }

  /** The highest position in `[lo, hi)` holding another timed event. */
  function LastOtherTimed(sorted: seq<PlannerEvent>, id: Id, lo: nat, hi: nat): (r: Option<nat>)
    requires lo <= hi <= |sorted|
    ensures r.Some? ==> lo <= r.value < hi && OtherTimed(sorted, id, r.value)
    ensures r.Some? ==> forall j :: r.value < j < hi ==> !OtherTimed(sorted, id, j)
    ensures r.None? ==> forall j :: lo <= j < hi ==> !OtherTimed(sorted, id, j)
    decreases hi - lo
  {
    if lo == hi then None
    else if OtherTimed(sorted, id, hi - 1) then Some(hi - 1)
    else LastOtherTimed(sorted, id, lo, hi - 1)
  }

  /** The timed event being placed sits at `pos`, and no other record shares its id. */
  predicate PlacedAt(sorted: seq<PlannerEvent>, event: PlannerEvent, pos: nat) {
    pos < |sorted| && sorted[pos] == event && TimeOf(event).Some? &&
    forall j :: 0 <= j < |sorted| && j != pos ==> sorted[j].id != event.id
  }

  /**
   * The placement, case by case: after the highest-keyed event above `pos`
   * that is not later; otherwise kept when the nearest timed event below is
   * not later; otherwise after the highest event below that one which is not
   * later; otherwise at the top.
   */
  function PlacementRef(id: Id, t: string, sorted: seq<PlannerEvent>, pos: nat): Placement
    requires pos < |sorted|
  {
    match LastEarlier(sorted, id, t, pos + 1, |sorted|)
    case Some(h) => After(h)
    case None =>
      match LastOtherTimed(sorted, id, 0, pos)
      case None => Top
      case Some(l) =>
        if EarlierAt(sorted, id, t, l) then Keep
        else
          match LastEarlier(sorted, id, t, 0, l)
          case Some(e) => After(e)
          case None => Top
  }

  /** One step of the scan, at a position holding a record other than the event being placed. */
  lemma ScanStep(id: Id, t: string, sorted: seq<PlannerEvent>, i: nat, found: bool, moving: bool)
    requires 0 < i <= |sorted| && sorted[i - 1].id != id
    ensures !OtherTimed(sorted, id, i - 1) ==>
      Scan(id, t, sorted, i, found, moving) == Scan(id, t, sorted, i - 1, found, moving)
    ensures OtherTimed(sorted, id, i - 1) && !EarlierAt(sorted, id, t, i - 1) ==>
      Scan(id, t, sorted, i, found, moving) == Scan(id, t, sorted, i - 1, found, found || moving)
    ensures EarlierAt(sorted, id, t, i - 1) ==>
      Scan(id, t, sorted, i, found, moving) == if !found || moving then After(i - 1) else Keep
  {
  }

  /** Above the event, with nothing found yet: the first event not later than it decides. */
  lemma {:induction false} ScanAbove(event: PlannerEvent, sorted: seq<PlannerEvent>, pos: nat, i: nat)
    requires PlacedAt(sorted, event, pos) && pos < i <= |sorted|
    ensures var t := TimeOf(event).value;
      Scan(event.id, t, sorted, i, false, false) ==
        match LastEarlier(sorted, event.id, t, pos + 1, i)
        case Some(h) => After(h)
        case None => Scan(event.id, t, sorted, pos + 1, false, false)
    decreases i
  {
    var t := TimeOf(event).value;
    if i > pos + 1 {
      ScanStep(event.id, t, sorted, i, false, false);
      if !EarlierAt(sorted, event.id, t, i - 1) {
        ScanAbove(event, sorted, pos, i - 1);
      }
    }
  }

  /** Below the event, found and not yet moving: the nearest timed event decides. */
  lemma {:induction false} ScanFound(event: PlannerEvent, sorted: seq<PlannerEvent>, pos: nat, i: nat)
    requires PlacedAt(sorted, event, pos) && i <= pos
    ensures var t := TimeOf(event).value;
      Scan(event.id, t, sorted, i, true, false) ==
        match LastOtherTimed(sorted, event.id, 0, i)
        case None => Top
        case Some(l) =>
          if EarlierAt(sorted, event.id, t, l) then Keep
          else Scan(event.id, t, sorted, l, true, true)
    decreases i
  {
    var t := TimeOf(event).value;
    if i > 0 {
      ScanStep(event.id, t, sorted, i, true, false);
      if !OtherTimed(sorted, event.id, i - 1) {
        ScanFound(event, sorted, pos, i - 1);
      }
    }
  }

  /** Below the event, moving: the first event not later than it decides. */
  lemma {:induction false} ScanMoving(event: PlannerEvent, sorted: seq<PlannerEvent>, pos: nat, i: nat)
    requires PlacedAt(sorted, event, pos) && i <= pos
    ensures var t := TimeOf(event).value;
      Scan(event.id, t, sorted, i, true, true) ==
        match LastEarlier(sorted, event.id, t, 0, i)
        case Some(e) => After(e)
        case None => Top
    decreases i
  {
    var t := TimeOf(event).value;
    if i > 0 {
      ScanStep(event.id, t, sorted, i, true, true);
      if !EarlierAt(sorted, event.id, t, i - 1) {
        ScanMoving(event, sorted, pos, i - 1);
      }
    }
  }

  /** The scan computes the case-by-case placement. */
  lemma ReconcileMatchesRef(event: PlannerEvent, sorted: seq<PlannerEvent>, pos: nat)
    requires PlacedAt(sorted, event, pos)
    ensures PlacementOf(event, sorted) == PlacementRef(event.id, TimeOf(event).value, sorted, pos)
  {
    var t := TimeOf(event).value;
    ScanAbove(event, sorted, pos, |sorted|);
    assert Scan(event.id, t, sorted, pos + 1, false, false) == Scan(event.id, t, sorted, pos, true, false);
    ScanFound(event, sorted, pos, pos);
    var l := LastOtherTimed(sorted, event.id, 0, pos);
    if l.Some? {
      ScanMoving(event, sorted, pos, l.value);
    }
  }

  // ---------------------------------------------------------------------
  // Consequences
  // ---------------------------------------------------------------------

  /** An event without a time keeps its key. */
  lemma NoTimeKeepsKey(event: PlannerEvent, events: seq<PlannerEvent>)
    requires TimeOf(event).None?
    ensures ReconciledKey(event, events) == event.sortIndex
  {
  }

  lemma {:induction false} LastEarlierSkip(sorted: seq<PlannerEvent>, id: Id, t: string, lo: nat, mid: nat, hi: nat)
    requires lo <= mid <= hi <= |sorted|
    requires forall j :: mid <= j < hi ==> !EarlierAt(sorted, id, t, j)
    ensures LastEarlier(sorted, id, t, lo, hi) == LastEarlier(sorted, id, t, lo, mid)
    decreases hi
  {
    if hi > mid {
      LastEarlierSkip(sorted, id, t, lo, mid, hi - 1);
    }
  }

  /** The highest position not after `t` is the one that has nothing above it. */
  lemma LastEarlierIs(sorted: seq<PlannerEvent>, id: Id, t: string, lo: nat, hi: nat, h: nat)
    requires lo <= h < hi <= |sorted| && EarlierAt(sorted, id, t, h)
    requires forall j :: h < j < hi ==> !EarlierAt(sorted, id, t, j)
    ensures LastEarlier(sorted, id, t, lo, hi) == Some(h)
  {
    LastEarlierSkip(sorted, id, t, lo, h + 1, hi);
  }

  /** A higher-keyed timed event whose time is not after the event's: the event goes just after the highest one. */
  lemma HigherEarlierPlacement(event: PlannerEvent, sorted: seq<PlannerEvent>, pos: nat, h: nat)
    requires PlacedAt(sorted, event, pos) && pos < h < |sorted|
    requires EarlierAt(sorted, event.id, TimeOf(event).value, h)
    requires forall j :: h < j < |sorted| ==> !EarlierAt(sorted, event.id, TimeOf(event).value, j)
    ensures PlacementOf(event, sorted) == After(h)
  {
    ReconcileMatchesRef(event, sorted, pos);
    LastEarlierIs(sorted, event.id, TimeOf(event).value, pos + 1, |sorted|, h);
  }

  /**
   * Placed just after position `h`, the event takes the gap key there, which
   * lies strictly between that record's key and the next one when the keys
   * are ascending and distinct there.
   */
  lemma AfterTakesGapKey(event: PlannerEvent, sorted: seq<PlannerEvent>, h: nat)
    requires TimeOf(event).Some? && PlacementOf(event, sorted) == After(h) && h < |sorted|
    ensures ReconcileSorted(event, sorted) == SortIndex.GenerateSortIndex(h + 1, Keys(sorted))
    ensures SortedByKey(sorted) && (h + 1 < |sorted| ==> sorted[h].sortIndex < sorted[h + 1].sortIndex) ==>
      sorted[h].sortIndex < ReconcileSorted(event, sorted) &&
      (h + 1 < |sorted| ==> ReconcileSorted(event, sorted) < sorted[h + 1].sortIndex)
  {
    var keys := Keys(sorted);
    assert ReconcileSorted(event, sorted) == SortIndex.GenerateSortIndex(h + 1, keys);
    if SortedByKey(sorted) && (h + 1 < |sorted| ==> sorted[h].sortIndex < sorted[h + 1].sortIndex) {
      assert SortIndex.Ascending(keys);
      SortIndex.PlacesAtIndex(h + 1, keys);
      assert keys[h] == sorted[h].sortIndex;
    }
  }

  /**
   * A higher-keyed timed event whose time is not after the event's pulls it
   * up: the result is the gap key just after the highest such event.
   */
  lemma HigherEarlierPlacesAfterIt(event: PlannerEvent, sorted: seq<PlannerEvent>, pos: nat, h: nat)
    requires PlacedAt(sorted, event, pos) && pos < h < |sorted|
    requires EarlierAt(sorted, event.id, TimeOf(event).value, h)
    requires forall j :: h < j < |sorted| ==> !EarlierAt(sorted, event.id, TimeOf(event).value, j)
    ensures ReconcileSorted(event, sorted) == SortIndex.GenerateSortIndex(h + 1, Keys(sorted))
    ensures SortedByKey(sorted) && (h + 1 < |sorted| ==> sorted[h].sortIndex < sorted[h + 1].sortIndex) ==>
      sorted[h].sortIndex < ReconcileSorted(event, sorted) &&
      (h + 1 < |sorted| ==> ReconcileSorted(event, sorted) < sorted[h + 1].sortIndex)
  {
    HigherEarlierPlacement(event, sorted, pos, h);
    AfterTakesGapKey(event, sorted, h);
  }

  /**
   * The event keeps its key when no higher-keyed timed event is earlier or
   * equal and the nearest lower-keyed timed event is earlier or equal.
   */
  lemma KeepWhenConsistent(event: PlannerEvent, sorted: seq<PlannerEvent>, pos: nat, l: nat)
    requires PlacedAt(sorted, event, pos) && l < pos
    requires forall j :: pos < j < |sorted| ==> !EarlierAt(sorted, event.id, TimeOf(event).value, j)
    requires EarlierAt(sorted, event.id, TimeOf(event).value, l)
    requires forall j :: l < j < pos ==> !OtherTimed(sorted, event.id, j)
    ensures PlacementOf(event, sorted) == Keep
    ensures ReconcileSorted(event, sorted) == event.sortIndex
  {
    ReconcileMatchesRef(event, sorted, pos);
    assert LastOtherTimed(sorted, event.id, 0, pos) == Some(l);
  }

  /**
   * When the nearest lower-keyed timed event is later, the event moves down
   * to just after the nearest lower-keyed event that is earlier or equal,
   * or to the top when there is none.
   */
  lemma MoveDownPlacement(event: PlannerEvent, sorted: seq<PlannerEvent>, pos: nat, l: nat)
    requires PlacedAt(sorted, event, pos) && l < pos
    requires forall j :: pos < j < |sorted| ==> !EarlierAt(sorted, event.id, TimeOf(event).value, j)
    requires OtherTimed(sorted, event.id, l) && !EarlierAt(sorted, event.id, TimeOf(event).value, l)
    requires forall j :: l < j < pos ==> !OtherTimed(sorted, event.id, j)
    ensures PlacementOf(event, sorted) ==
      match LastEarlier(sorted, event.id, TimeOf(event).value, 0, pos)
      case Some(e) => After(e)
      case None => Top
  {
    var t := TimeOf(event).value;
    ReconcileMatchesRef(event, sorted, pos);
    assert LastEarlier(sorted, event.id, t, pos + 1, |sorted|).None?;
    assert LastOtherTimed(sorted, event.id, 0, pos) == Some(l);
    assert forall j :: l <= j < pos ==> !EarlierAt(sorted, event.id, t, j);
    LastEarlierSkip(sorted, event.id, t, 0, l, pos);
  }

  /** The key of that move: the gap key after that event, or half the smallest key. */
  lemma MoveDownWhenLowerIsLater(event: PlannerEvent, sorted: seq<PlannerEvent>, pos: nat, l: nat)
    requires PlacedAt(sorted, event, pos) && l < pos
    requires forall j :: pos < j < |sorted| ==> !EarlierAt(sorted, event.id, TimeOf(event).value, j)
    requires OtherTimed(sorted, event.id, l) && !EarlierAt(sorted, event.id, TimeOf(event).value, l)
    requires forall j :: l < j < pos ==> !OtherTimed(sorted, event.id, j)
    ensures ReconcileSorted(event, sorted) ==
      match LastEarlier(sorted, event.id, TimeOf(event).value, 0, pos)
      case Some(e) => SortIndex.GenerateSortIndex(e + 1, Keys(sorted))
      case None => EarliestKey(sorted)
  {
    MoveDownPlacement(event, sorted, pos, l);
  }

  /**
   * With no other timed event earlier or equal, the result is half the
   * smallest key (4 for an empty day).
   */
  lemma NoEarlierMovesToTop(event: PlannerEvent, sorted: seq<PlannerEvent>, pos: nat)
    requires PlacedAt(sorted, event, pos)
    requires forall j :: 0 <= j < |sorted| ==> !EarlierAt(sorted, event.id, TimeOf(event).value, j)
    ensures ReconcileSorted(event, sorted) == EarliestKey(sorted)
    ensures ReconcileSorted(event, sorted) * 2.0 == sorted[0].sortIndex
  {
    ReconcileMatchesRef(event, sorted, pos);
    var t := TimeOf(event).value;
    assert LastEarlier(sorted, event.id, t, pos + 1, |sorted|).None?;
    var l := LastOtherTimed(sorted, event.id, 0, pos);
    if l.Some? {
      assert LastEarlier(sorted, event.id, t, 0, l.value).None?;
    }
  }

  /** The only timed event of its day goes to the top. */
  lemma LoneTimedEventGoesToTop(event: PlannerEvent, sorted: seq<PlannerEvent>, pos: nat)
    requires PlacedAt(sorted, event, pos)
    requires forall j :: 0 <= j < |sorted| && j != pos ==> TimeOf(sorted[j]).None?
    ensures ReconcileSorted(event, sorted) * 2.0 == sorted[0].sortIndex
  {
    forall j | 0 <= j < |sorted|
      ensures !EarlierAt(sorted, event.id, TimeOf(event).value, j)
    {
    }
    NoEarlierMovesToTop(event, sorted, pos);
  }

  /**
   * The edge case of the earliest branch: an event already first, with no
   * other timed event earlier or equal, gets half its own key; storing that
   * key leaves it first with nothing earlier, so the next call halves it
   * again and the key never settles.
   */
  lemma RepeatedCallsKeepHalving(event: PlannerEvent, sorted: seq<PlannerEvent>,
                                  moved: PlannerEvent, sorted': seq<PlannerEvent>)
    requires PlacedAt(sorted, event, 0) && event.sortIndex != 0.0
    requires forall j :: 0 <= j < |sorted| ==> !EarlierAt(sorted, event.id, TimeOf(event).value, j)
    requires moved == event.(sortIndex := event.sortIndex / 2.0) && sorted' == sorted[0 := moved]
    ensures ReconcileSorted(event, sorted) == moved.sortIndex != event.sortIndex
    ensures PlacedAt(sorted', moved, 0) && moved.sortIndex != 0.0
    ensures forall j :: 0 <= j < |sorted'| ==> !EarlierAt(sorted', moved.id, TimeOf(moved).value, j)
  {
    NoEarlierMovesToTop(event, sorted, 0);
    assert TimeOf(moved) == TimeOf(event);
    forall j | 0 <= j < |sorted'|
      ensures !EarlierAt(sorted', moved.id, TimeOf(moved).value, j)
    {
      if j != 0 {
        assert sorted'[j] == sorted[j];
        assert !EarlierAt(sorted, event.id, TimeOf(event).value, j);
      }
    }
  }

  lemma {:induction false} ScanIgnoresUntimed(id: Id, t: string, sorted: seq<PlannerEvent>,
                                              j: nat, u: PlannerEvent, i: nat, found: bool, moving: bool)
    requires j < |sorted| && i <= |sorted|
    requires TimeOf(sorted[j]).None? && TimeOf(u).None?
    ensures Scan(id, t, sorted[j := u], i, found, moving) == Scan(id, t, sorted, i, found, moving)
    decreases i
  {
    var s' := sorted[j := u];
    if i > 0 {
      assert TimeOf(s'[i - 1]).None? <==> TimeOf(sorted[i - 1]).None?;
      if i - 1 == j || TimeOf(sorted[i - 1]).None? {
        ScanIgnoresUntimed(id, t, sorted, j, u, i - 1, found, moving);
      } else if sorted[i - 1].id == id {
        ScanIgnoresUntimed(id, t, sorted, j, u, i - 1, true, moving);
      } else {
        ScanIgnoresUntimed(id, t, sorted, j, u, i - 1, found, found || moving);
      }
    }
  }

  /**
   * Events without a time never decide the result: replacing one by any
   * other untimed record with the same key changes nothing.
   */
  lemma UntimedRecordIsIgnored(event: PlannerEvent, sorted: seq<PlannerEvent>, j: nat, u: PlannerEvent)
    requires j < |sorted| && TimeOf(sorted[j]).None? && TimeOf(u).None?
    requires u.sortIndex == sorted[j].sortIndex
    ensures ReconcileSorted(event, sorted[j := u]) == ReconcileSorted(event, sorted)
  {
    var s' := sorted[j := u];
    assert Keys(s') == Keys(sorted) by {
      forall k | 0 <= k < |sorted| ensures Keys(s')[k] == Keys(sorted)[k] {
      }
    }
    if TimeOf(event).Some? {
      ScanIgnoresUntimed(event.id, TimeOf(event).value, sorted, j, u, |sorted|, false, false);
      if sorted != [] {
        assert s'[0].sortIndex == sorted[0].sortIndex by {
          assert Keys(s')[0] == Keys(sorted)[0];
        }
      }
    }
  }

  /**
   * A day with breakfast at 09:00 (key 8), lunch at 13:00 (key 16) and a
   * call at 11:00 appended last (key 24): the call moves to 12, between
   * breakfast and lunch, and once there it keeps 12.
   */
  lemma CallMovesBetweenMeals(breakfast: PlannerEvent, lunch: PlannerEvent, call: PlannerEvent, placed: PlannerEvent)
    requires breakfast == ListItem("b1", "Breakfast", false, 8.0,
                                   EventDetails("2025-12-03", None, Some(TimeConfig("09:00", None)), None))
    requires lunch == ListItem("l1", "Lunch", false, 16.0,
                               EventDetails("2025-12-03", None, Some(TimeConfig("13:00", None)), None))
    requires call == ListItem("c1", "Call", false, 24.0,
                              EventDetails("2025-12-03", None, Some(TimeConfig("11:00", None)), None))
    requires placed == call.(sortIndex := 12.0)
    ensures ReconcileSorted(call, [breakfast, lunch, call]) == 12.0
    ensures ReconcileSorted(placed, [breakfast, placed, lunch]) == 12.0
  {
    assert IsEarlierOrEqual("09:00", "11:00");
    assert !IsEarlierOrEqual("13:00", "11:00");
    var before := [breakfast, lunch, call];
    assert SortIndex.GenerateSortIndex(1, Keys(before)) == 12.0 by {
      assert Keys(before) == [8.0, 16.0, 24.0];
    }
    MoveDownWhenLowerIsLater(call, before, 2, 1);
    assert LastEarlier(before, call.id, "11:00", 0, 2) == Some(0);
    var after := [breakfast, placed, lunch];
    KeepWhenConsistent(placed, after, 1, 0);
  }
}
