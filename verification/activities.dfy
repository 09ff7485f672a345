/** Order-preserving filtering of sequences, used for the activity list's
    `filter` calls. */
module Lists {

  function Filter<T(!new)>(s: seq<T>, keep: T -> bool): (r: seq<T>)
    ensures |r| <= |s|
    ensures forall x :: x in r <==> x in s && keep(x)
    decreases |s|
  {
    if |s| == 0 then []
    else if keep(s[0]) then [s[0]] + Filter(s[1..], keep)
    else Filter(s[1..], keep)
  }

  /** Filtering keeps relative order: it distributes over concatenation. */
  lemma {:induction false} FilterConcat<T(!new)>(a: seq<T>, b: seq<T>, keep: T -> bool)
    ensures Filter(a + b, keep) == Filter(a, keep) + Filter(b, keep)
    decreases |a|
  {
    if |a| == 0 {
      assert a + b == b;
    } else {
      FilterConcat(a[1..], b, keep);
      assert (a + b)[1..] == a[1..] + b;
    }
  }

  /** Filtering a sequence every element of which is kept changes nothing. */
  lemma {:induction false} FilterAll<T(!new)>(s: seq<T>, keep: T -> bool)
    requires forall i :: 0 <= i < |s| ==> keep(s[i])
    ensures Filter(s, keep) == s
    decreases |s|
  {
    if |s| > 0 {
      FilterAll(s[1..], keep);
    }
  }
}

/** The activity record shared by the page and the calculations hook. */
module Activities {
  import opened Wrappers
  import opened Lists

  /** One row of the activity list. `hoursPerDay` is absent on entries created
      by the add button until their time unit is changed. */
  datatype Activity = Activity(
    id: int,
    name: string,
    hours: real,
    timeUnit: string,
    hoursPerDay: Option<real>,
    color: string,
    spent: bool,
    future: bool)

  /** Whether `a` is painted on the past side (`isLived`) or the future side. */
  predicate OnSide(a: Activity, isLived: bool) {
    (isLived && a.spent) || (!isLived && a.future)
  }

  /** The activities of one side, in list order. */
  function SideActivities(acts: seq<Activity>, isLived: bool): (r: seq<Activity>)
    ensures forall a :: a in r <==> a in acts && OnSide(a, isLived)
    ensures forall k :: 0 <= k < |r| ==> OnSide(r[k], isLived)
  {
    Filter(acts, a => OnSide(a, isLived))
  }

  /** One step of the side filter. */
  lemma SideStep(acts: seq<Activity>, isLived: bool)
    requires |acts| > 0
    ensures SideActivities(acts, isLived)
         == (if OnSide(acts[0], isLived) then [acts[0]] else []) + SideActivities(acts[1..], isLived)
  {
  }
}
