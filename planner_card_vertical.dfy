/**
 * The plan count shown on a day's vertical card
 * (Planner/tabs/Planner/microViews/PlannerCardVertical.swift).
 *
 * The count is the number of unchecked events of the day's planner, or 0
 * while the day has none. The number of single-day calendar events is an
 * input: only whether it is zero matters.
 */
module PlannerCardVertical {
  import opened Wrappers
  import opened Items
  import Text
  import PlannerDay

  /** `planner?.events.filter { !$0.isChecked }.count ?? 0` */
  function PlanCount(planner: Option<PlannerDay.PlannerRecord>): (n: nat)
    ensures planner.None? ==> n == 0
  {
    match planner
    case None => 0
    case Some(p) => |WithChecked(p.events, false)|
  }

  /** The card counts exactly the unchecked events the day's planner lists. */
  lemma PlanCountIsUncheckedList(planner: Option<PlannerDay.PlannerRecord>)
    ensures PlanCount(planner) == |PlannerDay.UncheckedEvents(planner)|
  {
  }

  const NoMorePlans: string := "No more plans"
  const NoPlans: string := "No plans"

  /** `planCountLabel` */
  function PlanCountLabel(planner: Option<PlannerDay.PlannerRecord>, singleDayEventCount: nat): (r: string)
    ensures PlanCount(planner) == 0 && singleDayEventCount > 0 <==> r == NoMorePlans
    ensures PlanCount(planner) == 0 && singleDayEventCount == 0 <==> r == NoPlans
    ensures |r| > 0 && (PlanCount(planner) > 0 ==> (r[|r| - 1] == 's' <==> PlanCount(planner) != 1))
  {
    var planCount := PlanCount(planner);
    if planCount == 0 then
      if singleDayEventCount > 0 then NoMorePlans else NoPlans
    else
      var digits := Text.NatToString(planCount);
      var shown := digits + " plan" + (if planCount == 1 then "" else "s");
      assert shown[0] == digits[0];
      shown
  }

  /** The run of ASCII digits a string starts with. */
  function LeadingDigits(s: string): (r: string)
    ensures |r| <= |s| && r == s[..|r|] && Text.AllDigits(r)
    ensures |r| < |s| ==> !Text.IsDigit(s[|r|])
  {
    if s == [] || !Text.IsDigit(s[0]) then []
    else [s[0]] + LeadingDigits(s[1..])
  }

  /** A digit string followed by a non-digit starts with exactly those digits. */
  lemma {:induction false} LeadingDigitsOf(digits: string, rest: string)
    requires Text.AllDigits(digits)
    requires rest != [] && !Text.IsDigit(rest[0])
    ensures LeadingDigits(digits + rest) == digits
  {
    if digits != [] {
      assert (digits + rest)[1..] == digits[1..] + rest;
      LeadingDigitsOf(digits[1..], rest);
    } else {
      assert digits + rest == rest;
    }
  }

  /** Reads the count back from a label: 0 for the two empty-day labels, else the leading number. */
  function ReadPlanCount(caption: string): Option<nat> {
    if caption == NoMorePlans || caption == NoPlans then Some(0)
    else
      var digits := LeadingDigits(caption);
      if digits == [] then None else Some(Text.DigitsValue(digits))
  }

  /** The label states the count: reading it back gives the number of unchecked events. */
  lemma LabelStatesCount(planner: Option<PlannerDay.PlannerRecord>, singleDayEventCount: nat)
    ensures ReadPlanCount(PlanCountLabel(planner, singleDayEventCount)) == Some(PlanCount(planner))
  {
    var n := PlanCount(planner);
    if n > 0 {
      var digits := Text.NatToString(n);
      var rest := " plan" + (if n == 1 then "" else "s");
      assert PlanCountLabel(planner, singleDayEventCount) == digits + rest;
      LeadingDigitsOf(digits, rest);
      Text.NatToStringValue(n);
    }
  }
}
