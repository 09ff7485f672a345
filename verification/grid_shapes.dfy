/** How a grid cell is filled (`createGridCell`): a plain colour is used as
    it is; a colour descriptor becomes a horizontal linear gradient, given
    here as its ordered list of stops. */
module GridShapes {
  import opened Text

  const DefaultCellColor := "#E5E7EB"

  /** One coloured stretch of a cell, in per cent of its width. */
  datatype Segment = Segment(start: real, end: real, color: string)

  /** What a cell is asked to show: a plain colour string, a multi-segment
      descriptor, or any other descriptor, read as one colour filling the
      cell up to `percentage`. */
  datatype CellColor =
    | Plain(color: string)
    | MultiGradient(segments: seq<Segment>)
    | Partial(color: string, percentage: real)

  /** A gradient stop: offset in per cent, and colour. */
  datatype Stop = Stop(offset: real, color: string)

  datatype Fill = Solid(color: string) | Gradient(id: string, stops: seq<Stop>)

  /** The four stops of one segment: a hard edge into its colour at `start`
      and a hard edge back to the default at `end`. */
  function SegmentStops(s: Segment, defaultColor: string): seq<Stop> {
    [Stop(s.start, defaultColor), Stop(s.start, s.color), Stop(s.end, s.color), Stop(s.end, defaultColor)]
  }

  /** The `forEach` over the segments. */
  function AllSegmentStops(segments: seq<Segment>, defaultColor: string): (r: seq<Stop>)
    ensures |r| == 4 * |segments|
    ensures forall k :: 0 <= k < |segments| ==> r[4 * k..4 * k + 4] == SegmentStops(segments[k], defaultColor)
    decreases |segments|
  {
    if |segments| == 0 then []
    else
      var rest := AllSegmentStops(segments[1..], defaultColor);
      var r := SegmentStops(segments[0], defaultColor) + rest;
      assert forall k :: 1 <= k < |segments| ==> r[4 * k..4 * k + 4] == rest[4 * (k - 1)..4 * (k - 1) + 4];
      r
  }

  /** `createGridCell`'s choice of fill for the cell at `index`. */
  function CreateGridCell(color: CellColor, index: int, defaultColor: string): (f: Fill)
    ensures color.Plain? <==> f.Solid?
    ensures color.Plain? ==> f.color == color.color
    ensures f.Gradient? ==> f.id == "gradient-" + IntToString(index)
    ensures color.MultiGradient? ==>
      var n := |color.segments|;
      |f.stops| == 4 * n + 2
      && f.stops[0] == Stop(0.0, defaultColor) && f.stops[4 * n + 1] == Stop(100.0, defaultColor)
      && forall k :: 0 <= k < n ==> f.stops[1 + 4 * k..5 + 4 * k] == SegmentStops(color.segments[k], defaultColor)
    ensures color.Partial? ==>
      f.stops == [Stop(0.0, color.color), Stop(color.percentage, color.color),
                  Stop(color.percentage, defaultColor), Stop(100.0, defaultColor)]
  {
    match color
    case Plain(c) => Solid(c)
    case MultiGradient(segments) =>
      var middle := AllSegmentStops(segments, defaultColor);
      var stops := [Stop(0.0, defaultColor)] + middle + [Stop(100.0, defaultColor)];
      assert forall k :: 0 <= k < |segments| ==> stops[1 + 4 * k..5 + 4 * k] == middle[4 * k..4 * k + 4];
      Gradient("gradient-" + IntToString(index), stops)
    case Partial(c, p) =>
      Gradient("gradient-" + IntToString(index),
        [Stop(0.0, c), Stop(p, c), Stop(p, defaultColor), Stop(100.0, defaultColor)])
  }

  /** The `fill` attribute the cell receives: the colour, or a reference to
      the gradient by its id. */
  function FillAttribute(f: Fill): (a: string)
    ensures f.Solid? ==> a == f.color
    ensures f.Gradient? ==> a == "url(#" + f.id + ")"
  {
    match f
    case Solid(c) => c
    case Gradient(id, _) => "url(#" + id + ")"
  }

  /** Each cell gets its own gradient: distinct cells have distinct ids. */
  lemma GradientIdsDistinct(i: int, j: int, a: CellColor, b: CellColor, d: string)
    requires i != j && !a.Plain? && !b.Plain?
    ensures CreateGridCell(a, i, d).id != CreateGridCell(b, j, d).id
  {
    ParseIntRoundTrip(i);
    ParseIntRoundTrip(j);
    var p := "gradient-";
    assert (p + IntToString(i))[|p|..] == IntToString(i);
    assert (p + IntToString(j))[|p|..] == IntToString(j);
  }

  // ---------------------------------------------------------------------
  // Stop order

  /** Stop offsets never decrease along the list, as a gradient needs. */
  predicate OffsetsSorted(stops: seq<Stop>) {
    forall i, j :: 0 <= i < j < |stops| ==> stops[i].offset <= stops[j].offset
  }

  /** Segments lie within [0, 100], each runs forwards, and each starts no
      earlier than the one before ends. */
  predicate SegmentsOrdered(segments: seq<Segment>) {
    (forall k :: 0 <= k < |segments| ==> 0.0 <= segments[k].start <= segments[k].end <= 100.0)
    && (forall k, l :: 0 <= k < l < |segments| ==> segments[k].end <= segments[l].start)
  }

  /** The stops of ordered segments are sorted and stay within `[lo, hi]`. */
  lemma {:induction false} AllSegmentStopsSorted(segments: seq<Segment>, d: string, lo: real)
    requires SegmentsOrdered(segments)
    requires forall k :: 0 <= k < |segments| ==> lo <= segments[k].start
    ensures var r := AllSegmentStops(segments, d);
      OffsetsSorted(r) && forall i :: 0 <= i < |r| ==> lo <= r[i].offset <= 100.0
    decreases |segments|
  {
    if |segments| > 0 {
      var s := segments[0];
      var rest := AllSegmentStops(segments[1..], d);
      assert OffsetsSorted(rest) && forall i :: 0 <= i < |rest| ==> s.end <= rest[i].offset <= 100.0 by {
        AllSegmentStopsSorted(segments[1..], d, s.end);
      }
      var head := SegmentStops(s, d);
      assert AllSegmentStops(segments, d) == head + rest;
      JoinSorted(head, rest, lo, s.end);
    }
  }

  /** Sorted stops within [lo, m], followed by sorted stops within
      [m, 100], are sorted and lie within [lo, 100]. */
  lemma JoinSorted(head: seq<Stop>, rest: seq<Stop>, lo: real, m: real)
    requires lo <= m <= 100.0
    requires OffsetsSorted(head) && OffsetsSorted(rest)
    requires forall i :: 0 <= i < |head| ==> lo <= head[i].offset <= m
    requires forall i :: 0 <= i < |rest| ==> m <= rest[i].offset <= 100.0
    ensures var r := head + rest;
      OffsetsSorted(r) && forall i :: 0 <= i < |r| ==> lo <= r[i].offset <= 100.0
  {
    var r := head + rest;
    var n := |head|;
    forall i, j | 0 <= i < j < |r| ensures r[i].offset <= r[j].offset {
      if j >= n && i < n {
        assert r[i] == head[i] && r[j] == rest[j - n];
      } else if j >= n {
        assert r[i] == rest[i - n] && r[j] == rest[j - n];
      } else {
        assert r[i] == head[i] && r[j] == head[j];
      }
    }
    forall i | 0 <= i < |r| ensures lo <= r[i].offset <= 100.0 {
      if i >= n {
        assert r[i] == rest[i - n];
      } else {
        assert r[i] == head[i];
      }
    }
  }

  /** Framing sorted offsets within [0, 100] by a stop at 0 and a stop at
      100 keeps them sorted. */
  lemma FramedSorted(middle: seq<Stop>, d: string)
    requires OffsetsSorted(middle)
    requires forall i :: 0 <= i < |middle| ==> 0.0 <= middle[i].offset <= 100.0
    ensures OffsetsSorted([Stop(0.0, d)] + middle + [Stop(100.0, d)])
  {
    var stops := [Stop(0.0, d)] + middle + [Stop(100.0, d)];
    forall i, j | 0 <= i < j < |stops| ensures stops[i].offset <= stops[j].offset {
      if 0 < i && j < |stops| - 1 {
        assert stops[i] == middle[i - 1] && stops[j] == middle[j - 1];
      } else if i == 0 && j < |stops| - 1 {
        assert stops[j] == middle[j - 1];
      } else if 0 < i {
        assert stops[i] == middle[i - 1];
      }
    }
  }

  /** With ordered segments, or a percentage within [0, 100], the gradient's
      stops are sorted by offset. */
  lemma StopsSorted(color: CellColor, index: int, d: string)
    requires color.MultiGradient? ==> SegmentsOrdered(color.segments)
    requires color.Partial? ==> 0.0 <= color.percentage <= 100.0
    ensures var f := CreateGridCell(color, index, d); f.Gradient? ==> OffsetsSorted(f.stops)
  {
    if color.MultiGradient? {
      var middle := AllSegmentStops(color.segments, d);
      AllSegmentStopsSorted(color.segments, d, 0.0);
      FramedSorted(middle, d);
      assert CreateGridCell(color, index, d).stops == [Stop(0.0, d)] + middle + [Stop(100.0, d)];
    }
  }
}
