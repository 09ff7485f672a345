/** The activity list's update handlers: every change maps over the list and
    touches only the entries with the given id; removal filters by id;
    the add button appends a fresh entry numbered after the list's length. */
module ActivityList {
  import opened Wrappers
  import opened Lists
  import opened Activities
  import opened Numeric
  import opened LifeGridInputs
  import opened LifeGridCalculations

  /** The entry's stored rate agrees with its hours and unit. */
  predicate Consistent(a: Activity) {
    a.hoursPerDay == Some(HoursPerDay(a.hours, a.timeUnit))
  }

  predicate AllConsistent(acts: seq<Activity>) {
    forall k :: 0 <= k < |acts| ==> Consistent(acts[k])
  }

  /** `r` is `acts` with `change` applied to the entries whose id is `id`. */
  function MapById(acts: seq<Activity>, id: int, change: Activity -> Activity): (r: seq<Activity>)
    ensures |r| == |acts|
    ensures forall k :: 0 <= k < |acts| && acts[k].id != id ==> r[k] == acts[k]
    ensures forall k :: 0 <= k < |acts| && acts[k].id == id ==> r[k] == change(acts[k])
  {
    seq(|acts|, k requires 0 <= k < |acts| => if acts[k].id == id then change(acts[k]) else acts[k])
  }

  /** `handleActivitySpentChange`: only the matching entries' `spent` flag changes. */
  function SetSpent(acts: seq<Activity>, id: int, isSpent: bool): (r: seq<Activity>)
    ensures |r| == |acts|
    ensures forall k :: 0 <= k < |acts| && acts[k].id != id ==> r[k] == acts[k]
    ensures forall k :: 0 <= k < |acts| && acts[k].id == id ==>
      r[k].spent == isSpent && r[k].(spent := acts[k].spent) == acts[k]
  {
    MapById(acts, id, (a: Activity) => a.(spent := isSpent))
  }

  /** `handleActivityFutureChange`: only the matching entries' `future` flag changes. */
  function SetFuture(acts: seq<Activity>, id: int, isFuture: bool): (r: seq<Activity>)
    ensures |r| == |acts|
    ensures forall k :: 0 <= k < |acts| && acts[k].id != id ==> r[k] == acts[k]
    ensures forall k :: 0 <= k < |acts| && acts[k].id == id ==>
      r[k].future == isFuture && r[k].(future := acts[k].future) == acts[k]
  {
    MapById(acts, id, (a: Activity) => a.(future := isFuture))
  }

  /** `handleActivityNameChange`. */
  function SetName(acts: seq<Activity>, id: int, name: string): (r: seq<Activity>)
    ensures |r| == |acts|
    ensures forall k :: 0 <= k < |acts| && acts[k].id != id ==> r[k] == acts[k]
    ensures forall k :: 0 <= k < |acts| && acts[k].id == id ==>
      r[k].name == name && r[k].(name := acts[k].name) == acts[k]
  {
    MapById(acts, id, (a: Activity) => a.(name := name))
  }

  /** `handleActivityColorChange`. */
  function SetColor(acts: seq<Activity>, id: int, color: string): (r: seq<Activity>)
    ensures |r| == |acts|
    ensures forall k :: 0 <= k < |acts| && acts[k].id != id ==> r[k] == acts[k]
    ensures forall k :: 0 <= k < |acts| && acts[k].id == id ==>
      r[k].color == color && r[k].(color := acts[k].color) == acts[k]
  {
    MapById(acts, id, (a: Activity) => a.(color := color))
  }

  /** Unticking "spent" takes the entry off the past side, wherever it was in the list. */
  lemma UnspentLeavesPastSide(acts: seq<Activity>, id: int)
    ensures forall a :: a in SideActivities(SetSpent(acts, id, false), true) ==> a.id != id
  {
    var r := SetSpent(acts, id, false);
    forall a | a in SideActivities(r, true) ensures a.id != id {
      var k :| 0 <= k < |r| && r[k] == a;
    }
  }

  /** `x` and `y` paint alike: the same colours and rates, entry by entry. */
  predicate SamePaint(x: seq<Activity>, y: seq<Activity>) {
    |x| == |y|
    && forall k :: 0 <= k < |x| ==> x[k].color == y[k].color && x[k].hoursPerDay == y[k].hoursPerDay
  }

  lemma SideLengthPaint(p: Progress, a: Activity, b: Activity, isLived: bool)
    requires a.hoursPerDay == b.hoursPerDay
    ensures SideLength(p, a, isLived) == SideLength(p, b, isLived)
  {
  }

  lemma SamePaintTail(x: seq<Activity>, y: seq<Activity>)
    requires SamePaint(x, y) && |x| > 0
    ensures SamePaint(x[1..], y[1..])
  {
  }

  /** The walk looks at nothing but colours and rates. */
  lemma {:induction false} WalkSamePaint(i: int, p: Progress, x: seq<Activity>, y: seq<Activity>, isLived: bool, position: real)
    requires SamePaint(x, y)
    ensures Walk(i, p, x, isLived, position) == Walk(i, p, y, isLived, position)
    decreases |x|
  {
    if |x| > 0 && SideLength(p, x[0], isLived).Some? {
      var len := SideLength(p, x[0], isLived).value;
      SamePaintTail(x, y);
      WalkSamePaint(i, p, x[1..], y[1..], isLived, position + len);
      WalkSamePaintStep(i, p, x, y, isLived, position);
    } else {
      WalkSamePaintStop(i, p, x, y, isLived, position);
    }
  }

  /** Where the walk stops at once, it stops alike on both lists. */
  lemma WalkSamePaintStop(i: int, p: Progress, x: seq<Activity>, y: seq<Activity>, isLived: bool, position: real)
    requires SamePaint(x, y)
    requires |x| == 0 || SideLength(p, x[0], isLived).None?
    ensures Walk(i, p, x, isLived, position) == Walk(i, p, y, isLived, position)
  {
    if |x| > 0 {
      SideLengthPaint(p, x[0], y[0], isLived);
      WalkStep(i, p, x, isLived, position);
      WalkStep(i, p, y, isLived, position);
    }
  }

  /** One step of the walk on two lists that paint alike, given that the
      rest of the walk agrees. */
  lemma WalkSamePaintStep(i: int, p: Progress, x: seq<Activity>, y: seq<Activity>, isLived: bool, position: real)
    requires SamePaint(x, y)
    requires |x| > 0 && SideLength(p, x[0], isLived).Some?
    requires var next := position + SideLength(p, x[0], isLived).value;
      Walk(i, p, x[1..], isLived, next) == Walk(i, p, y[1..], isLived, next)
    ensures Walk(i, p, x, isLived, position) == Walk(i, p, y, isLived, position)
  {
    SideLengthPaint(p, x[0], y[0], isLived);
    WalkStep(i, p, x, isLived, position);
    WalkStep(i, p, y, isLived, position);
  }

  /** Two lists whose entries sit on the same sides and paint alike have
      side lists that paint alike. */
  lemma {:induction false} SideSamePaint(x: seq<Activity>, y: seq<Activity>, isLived: bool)
    requires SamePaint(x, y)
    requires forall k :: 0 <= k < |x| ==> OnSide(x[k], isLived) == OnSide(y[k], isLived)
    ensures SamePaint(SideActivities(x, isLived), SideActivities(y, isLived))
    decreases |x|
  {
    if |x| > 0 {
      SideSamePaint(x[1..], y[1..], isLived);
    }
  }

  /** Two lists that agree on every entry's `future` flag and rate have the
      same future sum. */
  lemma {:induction false} FutureSumSame(x: seq<Activity>, y: seq<Activity>)
    requires |x| == |y|
    requires forall k :: 0 <= k < |x| ==> x[k].future == y[k].future && x[k].hoursPerDay == y[k].hoursPerDay
    ensures FutureHoursPerDay(x) == FutureHoursPerDay(y)
    decreases |x|
  {
    if |x| > 0 {
      FutureSumSame(x[1..], y[1..]);
    }
  }

  /** Ticking or unticking "spent" changes neither the hook's progress nor the
      colour of any cell on the future side. */
  lemma SpentKeepsProgress(livedDays: int, lifespan: int, acts: seq<Activity>, timeUnit: string, id: int, flag: bool)
    requires lifespan >= 1
    ensures CalculateProgress(livedDays, lifespan, SetSpent(acts, id, flag), timeUnit)
         == CalculateProgress(livedDays, lifespan, acts, timeUnit)
  {
    var r := SetSpent(acts, id, flag);
    FutureSumSame(r, acts);
    assert CalculateBaseProgress(livedDays, lifespan, r) == CalculateBaseProgress(livedDays, lifespan, acts);
  }

  lemma SpentKeepsFutureColors(i: int, p: Progress, acts: seq<Activity>, id: int, flag: bool)
    ensures ColorForCell(i, false, p, SetSpent(acts, id, flag)) == ColorForCell(i, false, p, acts)
  {
    var r := SetSpent(acts, id, flag);
    SideSamePaint(r, acts, false);
    WalkSamePaint(i, p, SideActivities(r, false), SideActivities(acts, false), false, p.lived as real);
  }

  /** For a given progress, ticking or unticking "future" changes the colour
      of no cell on the past side. (The progress itself can change: future
      activities stretch the lifespan.) */
  lemma FutureKeepsPastColors(i: int, p: Progress, acts: seq<Activity>, id: int, flag: bool)
    ensures ColorForCell(i, true, p, SetFuture(acts, id, flag)) == ColorForCell(i, true, p, acts)
  {
    var r := SetFuture(acts, id, flag);
    SideSamePaint(r, acts, true);
    WalkSamePaint(i, p, SideActivities(r, true), SideActivities(acts, true), true, 0.0);
  }

  // ---------------------------------------------------------------------
  // Generic field change

  /** The fields `handleActivityChange` may be asked to set, with the new value. */
  datatype Field =
    | IdField(id: int)
    | NameField(name: string)
    | HoursField(hours: real)
    | TimeUnitField(timeUnit: string)
    | HoursPerDayField(hoursPerDay: real)
    | ColorField(color: string)
    | SpentField(spent: bool)
    | FutureField(future: bool)

  /** The spread `{ ...activity, [field]: value }`. */
  function WithField(a: Activity, f: Field): Activity {
    match f
    case IdField(v) => a.(id := v)
    case NameField(v) => a.(name := v)
    case HoursField(v) => a.(hours := v)
    case TimeUnitField(v) => a.(timeUnit := v)
    case HoursPerDayField(v) => a.(hoursPerDay := Some(v))
    case ColorField(v) => a.(color := v)
    case SpentField(v) => a.(spent := v)
    case FutureField(v) => a.(future := v)
  }

  /** `b` has the value `f` names in that field. */
  predicate Holds(b: Activity, f: Field) {
    match f
    case IdField(v) => b.id == v
    case NameField(v) => b.name == v
    case HoursField(v) => b.hours == v
    case TimeUnitField(v) => b.timeUnit == v
    case HoursPerDayField(v) => b.hoursPerDay == Some(v)
    case ColorField(v) => b.color == v
    case SpentField(v) => b.spent == v
    case FutureField(v) => b.future == v
  }

  /** Every field of `b` other than the one `f` names, and other than the
      derived rate when hours or unit change, is as in `a`. */
  predicate SameElsewhere(a: Activity, b: Activity, f: Field) {
    (f.IdField? || b.id == a.id)
    && (f.NameField? || b.name == a.name)
    && (f.HoursField? || b.hours == a.hours)
    && (f.TimeUnitField? || b.timeUnit == a.timeUnit)
    && (f.HoursField? || f.TimeUnitField? || f.HoursPerDayField? || b.hoursPerDay == a.hoursPerDay)
    && (f.ColorField? || b.color == a.color)
    && (f.SpentField? || b.spent == a.spent)
    && (f.FutureField? || b.future == a.future)
  }

  /** One entry under `handleActivityChange`: set the field, and when it is the
      hours or the unit, recompute the rate from the new pair. */
  function ChangeOne(a: Activity, f: Field): (b: Activity)
    ensures Holds(b, f) && SameElsewhere(a, b, f)
    ensures (f.HoursField? || f.TimeUnitField?) ==> Consistent(b)
  {
    var updated := WithField(a, f);
    if f.HoursField? || f.TimeUnitField? then
      updated.(hoursPerDay := Some(HoursPerDay(updated.hours, updated.timeUnit)))
    else updated
  }

  /** `handleActivityChange(id, field, value)`. */
  function ChangeField(acts: seq<Activity>, id: int, f: Field): (r: seq<Activity>)
    ensures |r| == |acts|
    ensures forall k :: 0 <= k < |acts| && acts[k].id != id ==> r[k] == acts[k]
    ensures forall k :: 0 <= k < |acts| && acts[k].id == id ==>
      Holds(r[k], f) && SameElsewhere(acts[k], r[k], f)
    ensures forall k :: 0 <= k < |acts| && acts[k].id == id && (f.HoursField? || f.TimeUnitField?) ==>
      Consistent(r[k])
  {
    MapById(acts, id, (a: Activity) => ChangeOne(a, f))
  }

  /** Changing any field but the id, the rate or the hours/unit pair keeps every
      entry's rate consistent; changing the hours or unit restores consistency. */
  lemma ChangeFieldKeepsConsistent(acts: seq<Activity>, id: int, f: Field)
    requires AllConsistent(acts)
    requires !f.HoursPerDayField?
    ensures AllConsistent(ChangeField(acts, id, f))
  {
  }

  /** `handleActivityTimeUnitChange`: the unit changes and the rate follows it. */
  function ChangeTimeUnit(acts: seq<Activity>, id: int, timeUnit: string): (r: seq<Activity>)
    ensures |r| == |acts|
    ensures forall k :: 0 <= k < |acts| && acts[k].id != id ==> r[k] == acts[k]
    ensures forall k :: 0 <= k < |acts| && acts[k].id == id ==>
      r[k].timeUnit == timeUnit && Consistent(r[k])
      && r[k].(timeUnit := acts[k].timeUnit, hoursPerDay := acts[k].hoursPerDay) == acts[k]
  {
    MapById(acts, id, (a: Activity) => a.(timeUnit := timeUnit, hoursPerDay := Some(HoursPerDay(a.hours, timeUnit))))
  }

  /** The dedicated unit handler and the generic one agree. */
  lemma ChangeTimeUnitIsChangeField(acts: seq<Activity>, id: int, timeUnit: string)
    ensures ChangeTimeUnit(acts, id, timeUnit) == ChangeField(acts, id, TimeUnitField(timeUnit))
  {
  }

  // ---------------------------------------------------------------------
  // Hours handler

  /** `handleActivityHoursChange` as written: the hours are normalised and
      stored, and the stored rate is left as it was. */
  function SetHours(acts: seq<Activity>, id: int, hours: real): (r: seq<Activity>)
    ensures |r| == |acts|
    ensures forall k :: 0 <= k < |acts| && acts[k].id != id ==> r[k] == acts[k]
    ensures forall k :: 0 <= k < |acts| && acts[k].id == id ==>
      r[k].hours == HoursInput(hours) && r[k].(hours := acts[k].hours) == acts[k]
  {
    MapById(acts, id, (a: Activity) => a.(hours := HoursInput(hours)))
  }

  /** Changing "Sleeping" from 8 to 2 hours a day leaves its stored rate at 8,
      and the grid keeps painting eight hours' worth of cells. */
  lemma SetHoursLeavesStaleRate()
    ensures var a := Activity(1, "Sleeping", 8.0, "day", Some(8.0), "#6366F1", true, false);
      var r := SetHours([a], 1, 2.0);
      Consistent(a) && r[0].hours == 2.0 && r[0].hoursPerDay == Some(8.0) && !Consistent(r[0])
  {
    var a := Activity(1, "Sleeping", 8.0, "day", Some(8.0), "#6366F1", true, false);
    var r := SetHours([a], 1, 2.0);
    assert Round(2.0 * 2.0) == 4;
    assert HoursInput(2.0) == 2.0;
  }

  /** The hours handler with the rate recomputed, as the generic handler does. */
  function SetHoursFixed(acts: seq<Activity>, id: int, hours: real): (r: seq<Activity>)
    ensures |r| == |acts|
    ensures forall k :: 0 <= k < |acts| && acts[k].id != id ==> r[k] == acts[k]
    ensures forall k :: 0 <= k < |acts| && acts[k].id == id ==>
      r[k].hours == HoursInput(hours) && Consistent(r[k])
      && r[k].(hours := acts[k].hours, hoursPerDay := acts[k].hoursPerDay) == acts[k]
  {
    ChangeField(acts, id, HoursField(HoursInput(hours)))
  }

  lemma SetHoursFixedKeepsConsistent(acts: seq<Activity>, id: int, hours: real)
    requires AllConsistent(acts)
    ensures AllConsistent(SetHoursFixed(acts, id, hours))
  {
  }

  // ---------------------------------------------------------------------
  // Remove, add, clear

  /** `handleRemoveActivity`: every entry with the id goes, the rest keep their order. */
  function Remove(acts: seq<Activity>, id: int): (r: seq<Activity>)
    ensures |r| <= |acts|
    ensures forall a :: a in r <==> a in acts && a.id != id
  {
    Filter(acts, (a: Activity) => a.id != id)
  }

  /** Removing from a list is removing from each part of it. */
  lemma RemoveConcat(a: seq<Activity>, b: seq<Activity>, id: int)
    ensures Remove(a + b, id) == Remove(a, id) + Remove(b, id)
  {
    FilterConcat(a, b, (x: Activity) => x.id != id);
  }

  /** Removing an id nobody has changes nothing. */
  lemma RemoveAbsent(acts: seq<Activity>, id: int)
    requires forall k :: 0 <= k < |acts| ==> acts[k].id != id
    ensures Remove(acts, id) == acts
  {
    FilterAll(acts, (x: Activity) => x.id != id);
  }

  /** The entry the add button creates, as written: it has no stored rate. */
  function NewActivity(id: int, color: string): (a: Activity)
    ensures a.hoursPerDay.None?
    ensures a.hours == 1.0 && a.timeUnit == "day" && !a.spent && !a.future
  {
    Activity(id, "New Activity", 1.0, "day", None, color, false, false)
  }

  /** `handleAddActivity`: appends a new entry numbered one past the list's
      length. The colour is chosen at random by the page and is a parameter. */
  function Add(acts: seq<Activity>, color: string): (r: seq<Activity>)
    ensures |r| == |acts| + 1 && r[..|acts|] == acts
    ensures r[|acts|].id == |acts| + 1 && r[|acts|].color == color
    ensures r[|acts|].name == "New Activity" && r[|acts|].hours == 1.0 && r[|acts|].timeUnit == "day"
    ensures !r[|acts|].spent && !r[|acts|].future
  {
    acts + [NewActivity(|acts| + 1, color)]
  }

  lemma {:induction false} RemoveAll(acts: seq<Activity>, id: int)
    requires forall k :: 0 <= k < |acts| ==> acts[k].id == id
    ensures Remove(acts, id) == []
    decreases |acts|
  {
    if |acts| > 0 {
      RemoveAll(acts[1..], id);
    }
  }

  /** Numbering by length can reuse an id: after removing entry 1 of [1, 2],
      the new entry is numbered 2 again, and one click on either removes both. */
  lemma AddAfterRemoveReusesId(a1: Activity, a2: Activity, color: string)
    requires a1.id == 1 && a2.id == 2
    ensures var r := Add(Remove([a1, a2], 1), color);
      |r| == 2 && r[0].id == r[1].id == 2 && Remove(r, 2) == []
  {
    var l := Remove([a1, a2], 1);
    assert [a1, a2][1..] == [a2] && [a2][1..] == [];
    assert l == [a2];
    var r := Add(l, color);
    assert r == [a2, NewActivity(2, color)];
    RemoveAll(r, 2);
  }

  /** An added entry, as written, is not consistent: it has no rate at all. */
  lemma AddBreaksConsistency(acts: seq<Activity>, color: string)
    requires AllConsistent(acts)
    ensures !AllConsistent(Add(acts, color))
  {
    assert !Consistent(Add(acts, color)[|acts|]);
  }

  /** Marking the added entry as future makes the hook's sum of future hours
      NaN, whatever the list held before. */
  lemma AddedFutureMakesSumNaN(acts: seq<Activity>, color: string)
    ensures FutureHoursPerDay(SetFuture(Add(acts, color), |acts| + 1, true)).None?
  {
    var r := SetFuture(Add(acts, color), |acts| + 1, true);
    assert r[|acts|].future && r[|acts|].hoursPerDay.None?;
  }

  /** The add button with the new entry's rate filled in: 1 hour a day. */
  function AddFixed(acts: seq<Activity>, color: string): (r: seq<Activity>)
    ensures |r| == |acts| + 1 && r[..|acts|] == acts
    ensures r[|acts|].id == |acts| + 1 && r[|acts|].color == color
    ensures r[|acts|].name == "New Activity" && r[|acts|].hours == 1.0 && r[|acts|].timeUnit == "day"
    ensures r[|acts|].hoursPerDay == Some(1.0)
    ensures !r[|acts|].spent && !r[|acts|].future
  {
    acts + [NewActivity(|acts| + 1, color).(hoursPerDay := Some(HoursPerDay(1.0, "day")))]
  }

  lemma AddFixedKeepsConsistent(acts: seq<Activity>, color: string)
    requires AllConsistent(acts)
    ensures AllConsistent(AddFixed(acts, color))
  {
    var r := AddFixed(acts, color);
    assert forall k :: 0 <= k < |acts| ==> r[k] == acts[k];
  }
  /** With the corrected add, marking the new entry as future keeps the sum
      of future hours a number, provided every entry already had a rate. */
  lemma AddedFixedFutureKeepsSum(acts: seq<Activity>, color: string)
    requires forall k :: 0 <= k < |acts| ==> acts[k].hoursPerDay.Some?
    ensures FutureHoursPerDay(SetFuture(AddFixed(acts, color), |acts| + 1, true)).Some?
  {
    var a := AddFixed(acts, color);
    var r := SetFuture(a, |acts| + 1, true);
    forall k | 0 <= k < |r| ensures r[k].hoursPerDay.Some? {
      if k < |acts| {
        assert a[k] == acts[k];
      }
    }
  }


  /** No two entries share an id, so a handler reaches at most one entry. */
  predicate IdsDistinct(acts: seq<Activity>) {
    forall i, j :: 0 <= i < j < |acts| ==> acts[i].id != acts[j].id
  }

  /** As written, adding after a removal can duplicate an id: with only entry
      2 left, the new entry is numbered 2 as well. */
  lemma AddBreaksDistinctIds(a2: Activity, color: string)
    requires a2.id == 2
    ensures IdsDistinct([a2]) && !IdsDistinct(Add([a2], color))
  {
    var r := Add([a2], color);
    assert r[0].id == 2 && r[1].id == 2;
    assert !(r[0].id != r[1].id);
  }

  /** The largest id in the list, or 0 for an empty list. */
  function MaxId(acts: seq<Activity>): (m: int)
    ensures m >= 0
    ensures forall k :: 0 <= k < |acts| ==> acts[k].id <= m
    decreases |acts|
  {
    if |acts| == 0 then 0
    else
      var rest := MaxId(acts[1..]);
      assert forall k :: 1 <= k < |acts| ==> acts[k] == acts[1..][k - 1];
      if acts[0].id > rest then acts[0].id else rest
  }

  /** The add button numbering the new entry past every id in use, with its
      rate filled in. */
  function AddUnique(acts: seq<Activity>, color: string): (r: seq<Activity>)
    ensures |r| == |acts| + 1 && r[..|acts|] == acts
    ensures forall k :: 0 <= k < |acts| ==> r[k].id < r[|acts|].id
    ensures r[|acts|].color == color && r[|acts|].name == "New Activity"
    ensures r[|acts|].hours == 1.0 && r[|acts|].timeUnit == "day" && r[|acts|].hoursPerDay == Some(1.0)
    ensures !r[|acts|].spent && !r[|acts|].future
  {
    acts + [NewActivity(MaxId(acts) + 1, color).(hoursPerDay := Some(HoursPerDay(1.0, "day")))]
  }

  /** Adding with a fresh id keeps ids distinct and rates consistent. */
  lemma AddUniqueKeepsInvariants(acts: seq<Activity>, color: string)
    requires IdsDistinct(acts) && AllConsistent(acts)
    ensures IdsDistinct(AddUnique(acts, color)) && AllConsistent(AddUnique(acts, color))
  {
    var r := AddUnique(acts, color);
    assert forall k :: 0 <= k < |acts| ==> r[k] == acts[k];
  }

  /** The "clear" button: every entry is unticked on both sides, nothing else changes. */
  function Clear(acts: seq<Activity>): (r: seq<Activity>)
    ensures |r| == |acts|
    ensures forall k :: 0 <= k < |acts| ==>
      !r[k].spent && !r[k].future && r[k].(spent := acts[k].spent, future := acts[k].future) == acts[k]
  {
    seq(|acts|, k requires 0 <= k < |acts| => acts[k].(spent := false, future := false))
  }

  /** After clearing, neither side has any activity. */
  lemma ClearEmptiesSides(acts: seq<Activity>, isLived: bool)
    ensures SideActivities(Clear(acts), isLived) == []
  {
    NoneOnSide(Clear(acts), isLived);
  }

  lemma {:induction false} NoneOnSide(acts: seq<Activity>, isLived: bool)
    requires forall k :: 0 <= k < |acts| ==> !OnSide(acts[k], isLived)
    ensures SideActivities(acts, isLived) == []
    decreases |acts|
  {
    if |acts| > 0 {
      NoneOnSide(acts[1..], isLived);
    }
  }

  /** After clearing, every cell shows its side's plain colour: lived cells
      "#3B82F6", the rest "#E5E7EB". */
  lemma ClearedGridIsPlain(i: int, isLived: bool, p: Progress, acts: seq<Activity>)
    ensures ColorForCell(i, isLived, p, Clear(acts)) == (if i < p.lived then LivedColor else UnlivedColor)
  {
    ClearEmptiesSides(acts, isLived);
  }

  // ---------------------------------------------------------------------
  // The initial list

  /** The list the page starts with. */
  const InitialActivities: seq<Activity> := [
    Activity(1, "Sleeping", 8.0, "day", Some(8.0), "#000000", false, false),
    Activity(2, "Eating", 2.0, "day", Some(2.0), "#22C55E", false, false),
    Activity(3, "Personal Hygiene", 1.0, "day", Some(8.0), "#3B82F6", false, false)
  ]

  /** The initial list has distinct ids, but its third entry already stores
      a rate of 8 hours a day for 1 hour a day: the handlers that keep rates
      consistent start from a list that is not. */
  lemma InitialListInconsistent()
    ensures IdsDistinct(InitialActivities)
    ensures !Consistent(InitialActivities[2]) && !AllConsistent(InitialActivities)
    ensures forall k :: 0 <= k < 2 ==> Consistent(InitialActivities[k])
  {
    assert HoursPerDay(1.0, "day") == 1.0;
  }
}
