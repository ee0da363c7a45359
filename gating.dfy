/** The gating session of `ContourBasedGating`: the frame-range precondition
    of `define_intramural_part`, `crop_frames`, the list-building loop of
    `calculate_correlation`, and the interactive marker editor driven by
    `on_click`, `on_motion` and `on_release`.

    The report table is a sequence of rows, one per frame that has contours.
    An image is a sequence of pixel rows. Pearson correlation between two
    frames is a parameter `corr`. */
module Gating {
  import opened Wrappers
  import opened Sorting
  import opened Extrema

  datatype ReportRow = ReportRow(frame: int, shortestDistance: real, vectorAngle: real, vectorLength: real)

  type Image = seq<seq<int>>

  // ---------------------------------------------------------------------
  // Python slicing with step 1

  /** Where a Python slice bound lands in a sequence of length n: a negative
      bound counts from the end, and the result is clamped to [0, n]. */
  function SliceBound(n: nat, i: int): (k: nat)
    ensures k <= n
    ensures 0 <= i <= n ==> k == i
    ensures i > n ==> k == n
    ensures i < 0 ==> k == if i + n < 0 then 0 else i + n
  {
    if i < 0 then (if i + n < 0 then 0 else i + n)
    else if i > n then n
    else i
  }

  /** `s[a:b]`. */
  function PySlice<T>(s: seq<T>, a: int, b: int): (r: seq<T>)
    ensures var lo, hi := SliceBound(|s|, a), SliceBound(|s|, b);
      |r| == (if lo < hi then hi - lo else 0) &&
      forall k :: 0 <= k < |r| ==> r[k] == s[lo + k]
  {
    var lo, hi := SliceBound(|s|, a), SliceBound(|s|, b);
    if lo < hi then s[lo..hi] else []
  }

  /** Within the bounds a Python slice is Dafny's slice; past the end it stops
      at the end; a reversed range is empty. */
  lemma PySliceCases<T>(s: seq<T>, a: int, b: int)
    ensures 0 <= a <= b <= |s| ==> PySlice(s, a, b) == s[a..b]
    ensures 0 <= a <= |s| <= b ==> PySlice(s, a, b) == s[a..]
    ensures 0 <= b <= a ==> PySlice(s, a, b) == []
  {
  }

  // ---------------------------------------------------------------------
  // crop_frames

  /** One frame cropped to pixel rows x1:x2 and, within each, columns y1:y2. */
  function CropImage(img: Image, x1: int, x2: int, y1: int, y2: int): (r: Image)
    ensures |r| == |PySlice(img, x1, x2)|
  {
    var rows := PySlice(img, x1, x2);
    seq(|rows|, i requires 0 <= i < |rows| => PySlice(rows[i], y1, y2))
  }

  /** `frames[:, x1:x2, y1:y2]`: every frame cropped the same way. */
  function CropStack(frames: seq<Image>, x1: int, x2: int, y1: int, y2: int): (r: seq<Image>)
    ensures |r| == |frames|
  {
    seq(|frames|, f requires 0 <= f < |frames| => CropImage(frames[f], x1, x2, y1, y2))
  }

  /** Pixel (i, j) of a cropped frame is pixel (x1 + i, y1 + j) of the
      original, and a frame at least x2 rows of at least y2 pixels is cut to
      exactly (x2 - x1) by (y2 - y1). */
  lemma CropPixels(frames: seq<Image>, x1: int, x2: int, y1: int, y2: int, f: int)
    requires 0 <= f < |frames|
    requires 0 <= x1 <= x2 && 0 <= y1 <= y2
    ensures var c := CropStack(frames, x1, x2, y1, y2)[f];
      (forall i, j :: 0 <= i < |c| && 0 <= j < |c[i]| ==>
         x1 + i < |frames[f]| && y1 + j < |frames[f][x1 + i]| && c[i][j] == frames[f][x1 + i][y1 + j]) &&
      (x2 <= |frames[f]| && (forall i :: x1 <= i < x2 ==> y2 <= |frames[f][i]|) ==>
         |c| == x2 - x1 && forall i :: 0 <= i < |c| ==> |c[i]| == y2 - y1)
  {
    assert CropStack(frames, x1, x2, y1, y2)[f] == CropImage(frames[f], x1, x2, y1, y2);
    CropImagePixels(frames[f], x1, x2, y1, y2);
    if x2 <= |frames[f]| && (forall i :: x1 <= i < x2 ==> y2 <= |frames[f][i]|) {
      CropImageShape(frames[f], x1, x2, y1, y2);
    }
  }

  lemma CropImagePixels(img: Image, x1: int, x2: int, y1: int, y2: int)
    requires 0 <= x1 && 0 <= y1
    ensures var c := CropImage(img, x1, x2, y1, y2);
      forall i, j :: 0 <= i < |c| && 0 <= j < |c[i]| ==>
        x1 + i < |img| && y1 + j < |img[x1 + i]| && c[i][j] == img[x1 + i][y1 + j]
  {
    var c := CropImage(img, x1, x2, y1, y2);
    var rows := PySlice(img, x1, x2);
    forall i, j | 0 <= i < |c| && 0 <= j < |c[i]|
      ensures x1 + i < |img| && y1 + j < |img[x1 + i]| && c[i][j] == img[x1 + i][y1 + j]
    {
      assert rows[i] == img[x1 + i];
      assert c[i] == PySlice(rows[i], y1, y2);
    }
  }

  lemma CropImageShape(img: Image, x1: int, x2: int, y1: int, y2: int)
    requires 0 <= x1 <= x2 && 0 <= y1 <= y2
    requires x2 <= |img| && forall i :: x1 <= i < x2 ==> y2 <= |img[i]|
    ensures var c := CropImage(img, x1, x2, y1, y2);
      |c| == x2 - x1 && forall i :: 0 <= i < |c| ==> |c[i]| == y2 - y1
  {
    var c := CropImage(img, x1, x2, y1, y2);
    var rows := PySlice(img, x1, x2);
    forall i | 0 <= i < |c|
      ensures |c[i]| == y2 - y1
    {
      assert rows[i] == img[x1 + i];
      assert c[i] == PySlice(rows[i], y1, y2);
    }
  }

  // ---------------------------------------------------------------------
  // define_intramural_part: the frame-range precondition

  function FrameNumbers(rows: seq<ReportRow>): (r: seq<int>)
    ensures |r| == |rows|
  {
    seq(|rows|, i requires 0 <= i < |rows| => rows[i].frame)
  }

  /** `report_data[report_data['frame'].between(lower + 1, upper)]`: the rows
      whose frame lies in lower+1..upper, in report order. */
  function RowsInRange(rows: seq<ReportRow>, lower: int, upper: int): (r: seq<ReportRow>)
    ensures forall row :: row in r <==> row in rows && lower + 1 <= row.frame <= upper
    ensures |r| <= |rows|
  {
    if rows == [] then []
    else
      var rest := RowsInRange(rows[1..], lower, upper);
      assert forall row :: row in rows <==> row == rows[0] || row in rows[1..];
      (if lower + 1 <= rows[0].frame <= upper then [rows[0]] else []) + rest
  }

  /** The cut keeps every in-range row as often as the report holds it,
      drops every other row, and keeps report order: it is a boolean mask. */
  lemma {:induction false} RowsInRangeIsMask(rows: seq<ReportRow>, lower: int, upper: int)
    ensures var r := RowsInRange(rows, lower, upper);
      (forall row :: multiset(r)[row] == if lower + 1 <= row.frame <= upper then multiset(rows)[row] else 0) &&
      IsSubsequence(r, rows)
    decreases |rows|
  {
    if rows != [] {
      var rest := RowsInRange(rows[1..], lower, upper);
      RowsInRangeIsMask(rows[1..], lower, upper);
      assert rows == [rows[0]] + rows[1..];
      if lower + 1 <= rows[0].frame <= upper {
        assert RowsInRange(rows, lower, upper) == [rows[0]] + rest;
        assert ([rows[0]] + rest)[1..] == rest;
      } else {
        assert RowsInRange(rows, lower, upper) == rest;
      }
    }
  }

  /** a is b with some entries dropped: its entries appear in b, in order. */
  predicate IsSubsequence(a: seq<ReportRow>, b: seq<ReportRow>)
    decreases |b|
  {
    a == [] || (b != [] && ((a[0] == b[0] && IsSubsequence(a[1..], b[1..])) || IsSubsequence(a, b[1..])))
  }

  /** The frames of lower+1..upper that no row carries, ascending. */
  function MissingFrames(rows: seq<ReportRow>, lower: int, upper: int): (r: seq<int>)
    ensures StrictlyIncreasing(r)
    ensures forall f :: f in r <==> lower < f <= upper && f !in FrameNumbers(rows)
  {
    IndicesWhere(lower + 1, upper + 1, f => f !in FrameNumbers(rows))
  }

  datatype RangeCheck =
    | Accepted(kept: seq<ReportRow>)
    | Rejected(kept: seq<ReportRow>, missing: seq<int>)

  /** The check of `define_intramural_part`: the report is cut to the range;
      the range is rejected when the number of rows left is not upper - lower,
      and the message then lists the frames of the range the cut report lacks. */
  function CheckFrameRange(rows: seq<ReportRow>, lower: int, upper: int): (r: RangeCheck)
    ensures r.kept == RowsInRange(rows, lower, upper)
    ensures r.Rejected? <==> |r.kept| != upper - lower
    ensures r.Rejected? ==> r.missing == MissingFrames(r.kept, lower, upper)
  {
    var kept := RowsInRange(rows, lower, upper);
    if |kept| != upper - lower then Rejected(kept, MissingFrames(kept, lower, upper))
    else Accepted(kept)
  }

  predicate DistinctFrames(rows: seq<ReportRow>)
  {
    forall i, j :: 0 <= i < j < |rows| ==> rows[i].frame != rows[j].frame
  }

  /** With one row per frame (as the report has) and lower <= upper, a range
      is accepted exactly when every frame of lower+1..upper has a row, and
      when it is rejected the list of missing frames is not empty. */
  lemma AcceptedIffComplete(rows: seq<ReportRow>, lower: int, upper: int)
    requires DistinctFrames(rows) && lower <= upper
    ensures CheckFrameRange(rows, lower, upper).Accepted? <==>
      forall f :: lower < f <= upper ==> f in FrameNumbers(rows)
    ensures CheckFrameRange(rows, lower, upper).Rejected? ==>
      CheckFrameRange(rows, lower, upper).missing != []
  {
    KeptCountIffComplete(rows, lower, upper);
    var kept := RowsInRange(rows, lower, upper);
    if |kept| != upper - lower {
      var f :| lower < f <= upper && f !in FrameNumbers(rows);
      KeptFramesExact(rows, lower, upper);
      assert f in MissingFrames(kept, lower, upper);
    }
  }

  /** The rows kept by the cut carry exactly the frames of the range that
      the report carries. */
  lemma KeptFramesExact(rows: seq<ReportRow>, lower: int, upper: int)
    ensures forall f :: f in FrameNumbers(RowsInRange(rows, lower, upper)) <==>
      lower < f <= upper && f in FrameNumbers(rows)
  {
    var kept := RowsInRange(rows, lower, upper);
    forall f | f in FrameNumbers(kept)
      ensures lower < f <= upper && f in FrameNumbers(rows)
    {
      var i :| 0 <= i < |kept| && FrameNumbers(kept)[i] == f;
      var row := kept[i];
      assert row in kept && row.frame == f;
      FrameOfRow(rows, row);
    }
    forall f | lower < f <= upper && f in FrameNumbers(rows)
      ensures f in FrameNumbers(kept)
    {
      var i :| 0 <= i < |rows| && FrameNumbers(rows)[i] == f;
      var row := rows[i];
      assert row in rows && row.frame == f;
      FrameOfRow(kept, row);
    }
  }

  /** With distinct frames, the cut keeps upper - lower rows exactly when
      every frame of the range has a row. */
  lemma KeptCountIffComplete(rows: seq<ReportRow>, lower: int, upper: int)
    requires DistinctFrames(rows) && lower <= upper
    ensures |RowsInRange(rows, lower, upper)| == upper - lower <==>
      forall f :: lower < f <= upper ==> f in FrameNumbers(rows)
  {
    var kept := RowsInRange(rows, lower, upper);
    RowsInRangeDistinct(rows, lower, upper);
    KeptFramesExact(rows, lower, upper);
    DistinctFrameCount(kept);
    var present := FrameSet(kept);
    var range := FrameRange(lower, upper);
    assert present <= range;
    if forall f :: lower < f <= upper ==> f in FrameNumbers(rows) {
      assert range <= present;
      assert present == range;
      assert |kept| == |range| == upper - lower;
    } else {
      var f :| lower < f <= upper && f !in FrameNumbers(rows);
      if |kept| == upper - lower {
        SubsetSameSize(present, range);
      }
    }
  }

  /** The set of frames the rows carry. */
  function FrameSet(rows: seq<ReportRow>): (r: set<int>)
    ensures forall f :: f in r <==> f in FrameNumbers(rows)
  {
    set f | f in FrameNumbers(rows)
  }

  lemma FrameOfRow(rows: seq<ReportRow>, row: ReportRow)
    requires row in rows
    ensures row.frame in FrameNumbers(rows)
  {
    var i :| 0 <= i < |rows| && rows[i] == row;
    assert FrameNumbers(rows)[i] == row.frame;
  }

  lemma {:induction false} RowsInRangeDistinct(rows: seq<ReportRow>, lower: int, upper: int)
    requires DistinctFrames(rows)
    ensures DistinctFrames(RowsInRange(rows, lower, upper))
  {
    if rows != [] {
      RowsInRangeDistinct(rows[1..], lower, upper);
      var rest := RowsInRange(rows[1..], lower, upper);
      forall j | 0 <= j < |rest| ensures rest[j].frame != rows[0].frame {
        assert rest[j] in rows[1..];
      }
    }
  }

  lemma {:induction false} DistinctFrameCount(rows: seq<ReportRow>)
    requires DistinctFrames(rows)
    ensures |FrameSet(rows)| == |rows|
  {
    if rows != [] {
      var tail := rows[1..];
      DistinctFrameCount(tail);
      assert FrameNumbers(rows) == [rows[0].frame] + FrameNumbers(tail);
      assert FrameSet(rows) == {rows[0].frame} + FrameSet(tail);
      assert rows[0].frame !in FrameNumbers(tail);
    }
  }

  /** The frames lower+1..upper as a set, with upper - lower of them. */
  function FrameRange(lower: int, upper: int): (r: set<int>)
    ensures forall f :: f in r <==> lower < f <= upper
    ensures |r| == if lower <= upper then upper - lower else 0
    decreases upper - lower
  {
    if lower >= upper then {} else FrameRange(lower, upper - 1) + {upper}
  }

  lemma SubsetSameSize(a: set<int>, b: set<int>)
    requires a <= b && |a| == |b|
    ensures a == b
  {
    assert |b - a| == |b| - |a|;
  }

  /** A range running backwards (upper < lower) leaves no rows, yet is
      rejected with an empty list of missing frames. */
  lemma {:induction false} ReversedRangeRejected(rows: seq<ReportRow>, lower: int, upper: int)
    requires upper < lower
    ensures CheckFrameRange(rows, lower, upper) == Rejected([], [])
  {
    var kept := RowsInRange(rows, lower, upper);
    if rows != [] {
      ReversedRangeRejected(rows[1..], lower, upper);
    }
    assert MissingFrames(kept, lower, upper) == [];
  }

  /** The check counts rows, not frames: two rows for frame 1 pass the range
      1..2 although frame 2 has no contour. */
  lemma DuplicateRowMasksGap()
    ensures var rows := [ReportRow(1, 0.0, 0.0, 0.0), ReportRow(1, 0.0, 0.0, 0.0)];
      CheckFrameRange(rows, 0, 2).Accepted? && 2 !in FrameNumbers(rows)
  {
    var rows := [ReportRow(1, 0.0, 0.0, 0.0), ReportRow(1, 0.0, 0.0, 0.0)];
    assert RowsInRange(rows[1..], 0, 2) == [rows[1]];
    assert FrameNumbers(rows) == [1, 1];
  }

  /** Frames 1..50 with frame 12 lacking contours: the range 0..50 is rejected
      and 12 is the one frame named. */
  lemma MissingFrameTwelve()
    ensures var rows := seq(49, i => ReportRow(if i < 11 then i + 1 else i + 2, 0.0, 0.0, 0.0));
      var r := CheckFrameRange(rows, 0, 50);
      r.Rejected? && forall f :: f in r.missing <==> f == 12
  {
    var rows := seq(49, i => ReportRow(if i < 11 then i + 1 else i + 2, 0.0, 0.0, 0.0));
    FramesWithoutTwelve(rows);
    AcceptedIffComplete(rows, 0, 50);
    KeptFramesExact(rows, 0, 50);
  }

  /** The rows of that report carry one row for each frame of 1..50 but 12. */
  lemma FramesWithoutTwelve(rows: seq<ReportRow>)
    requires rows == seq(49, i => ReportRow(if i < 11 then i + 1 else i + 2, 0.0, 0.0, 0.0))
    ensures DistinctFrames(rows)
    ensures forall f :: 0 < f <= 50 ==> (f in FrameNumbers(rows) <==> f != 12)
  {
    var fs := FrameNumbers(rows);
    forall f | 0 < f <= 50 && f != 12 ensures f in fs {
      var i := if f < 12 then f - 1 else f - 2;
      assert fs[i] == f;
    }
    assert 12 !in fs;
  }

  // ---------------------------------------------------------------------
  // Python's round() on the slider position

  /** `round(x)`: the nearest integer, ties to the even one. */
  function RoundHalfEven(x: real): (r: int)
    ensures -0.5 <= r as real - x <= 0.5
    ensures (r as real - x == 0.5 || x - r as real == 0.5) ==> r % 2 == 0
  {
    var f := x.Floor;
    var frac := x - f as real;
    if frac < 0.5 then f
    else if frac > 0.5 then f + 1
    else if f % 2 == 0 then f else f + 1
  }

  /** The two properties above determine the rounded value: no other
      integer is as close with ties going to an even one. */
  lemma RoundHalfEvenUnique(x: real, n: int)
    requires -0.5 <= n as real - x <= 0.5
    requires (n as real - x == 0.5 || x - n as real == 0.5) ==> n % 2 == 0
    ensures n == RoundHalfEven(x)
  {
    var r := RoundHalfEven(x);
  }

  lemma RoundHalfEvenExamples()
    ensures RoundHalfEven(2.5) == 2 && RoundHalfEven(3.5) == 4
    ensures RoundHalfEven(-0.5) == 0 && RoundHalfEven(1.4) == 1 && RoundHalfEven(1.6) == 2
  {
    RoundHalfEvenUnique(2.5, 2);
    RoundHalfEvenUnique(3.5, 4);
    RoundHalfEvenUnique(-0.5, 0);
    RoundHalfEvenUnique(1.4, 1);
    RoundHalfEvenUnique(1.6, 2);
  }

  // ---------------------------------------------------------------------
  // The marker editor as a state machine over the marker positions

  datatype Button = Left | Middle | Right

  /** A mouse event; `xdata` is absent when the mouse is outside the axes. */
  datatype MouseEvent = MouseEvent(button: Button, xdata: Option<real>)

  /** The marker x-positions in creation order, the index of the selected
      marker, and the frame slider the editor drives. */
  datatype MarkerState = MarkerState(lines: seq<real>, selected: Option<nat>, slider: int)

  predicate ValidMarkers(st: MarkerState)
  {
    st.selected.Some? ==> st.selected.value < |st.lines|
  }

  function Dist(a: real, b: real): real
  {
    if a >= b then a - b else b - a
  }

  /** `np.argmin` of the distances to x: the first nearest marker. */
  function Nearest(lines: seq<real>, x: real): (k: nat)
    requires |lines| > 0
    ensures k < |lines|
    ensures forall j :: 0 <= j < |lines| ==> Dist(lines[k], x) <= Dist(lines[j], x)
    ensures forall j :: 0 <= j < k ==> Dist(lines[j], x) > Dist(lines[k], x)
    decreases |lines|
  {
    if |lines| == 1 then 0
    else
      var k := Nearest(lines[..|lines| - 1], x);
      if Dist(lines[|lines| - 1], x) < Dist(lines[k], x) then |lines| - 1 else k
  }

  /** A click selects a marker closer than one hundredth of the frame count. */
  function Sensitivity(frameCount: nat): real
  {
    frameCount as real / 100.0
  }

  /** `on_click`. Ignored while zooming or panning (`navigating`), for other
      buttons, and outside the axes. Otherwise the slider moves to
      round(x - 1); if some marker lies within the sensitivity the first
      nearest one is selected and nothing is added, else a marker is appended
      at x and the selection is left as it was. */
  function Click(st: MarkerState, ev: MouseEvent, navigating: bool, frameCount: nat): (r: MarkerState)
    requires ValidMarkers(st)
    ensures ValidMarkers(r)
    ensures navigating || ev.button != Left || ev.xdata.None? ==> r == st
    ensures !navigating && ev.button == Left && ev.xdata.Some? ==>
      var x := ev.xdata.value;
      r.slider == RoundHalfEven(x - 1.0) &&
      if exists j :: 0 <= j < |st.lines| && Dist(st.lines[j], x) < Sensitivity(frameCount) then
        r.lines == st.lines && r.selected.Some? &&
        var k := r.selected.value;
        k < |st.lines| && Dist(st.lines[k], x) < Sensitivity(frameCount) &&
        (forall j :: 0 <= j < |st.lines| ==> Dist(st.lines[k], x) <= Dist(st.lines[j], x)) &&
        (forall j :: 0 <= j < k ==> Dist(st.lines[j], x) > Dist(st.lines[k], x))
      else
        r.lines == st.lines + [x] && r.selected == st.selected
  {
    if navigating || ev.button != Left || ev.xdata.None? then st
    else
      var x := ev.xdata.value;
      var slider := RoundHalfEven(x - 1.0);
      if st.lines == [] then MarkerState([x], st.selected, slider)
      else
        var k := Nearest(st.lines, x);
        if Dist(st.lines[k], x) < Sensitivity(frameCount) then MarkerState(st.lines, Some(k), slider)
        else MarkerState(st.lines + [x], st.selected, slider)
  }

  /** `on_motion`. While a marker is selected and the left button is held, the
      selected marker moves to x and the slider follows; no other marker
      changes. Outside the axes there is no x: the handler fails (None). */
  function Motion(st: MarkerState, ev: MouseEvent, navigating: bool): (r: Option<MarkerState>)
    requires ValidMarkers(st)
    ensures r.None? <==> !navigating && ev.button == Left && st.selected.Some? && ev.xdata.None?
    ensures r.Some? ==> ValidMarkers(r.value) && |r.value.lines| == |st.lines| && r.value.selected == st.selected
    ensures navigating || ev.button != Left || st.selected.None? ==> r == Some(st)
    ensures !navigating && ev.button == Left && st.selected.Some? && ev.xdata.Some? ==>
      var k, x := st.selected.value, ev.xdata.value;
      r.value.lines[k] == x && r.value.slider == RoundHalfEven(x - 1.0) &&
      forall j :: 0 <= j < |st.lines| && j != k ==> r.value.lines[j] == st.lines[j]
  {
    if navigating || ev.button != Left || st.selected.None? then Some(st)
    else if ev.xdata.None? then None
    else
      var x := ev.xdata.value;
      Some(MarkerState(st.lines[st.selected.value := x], st.selected, RoundHalfEven(x - 1.0)))
  }

  /** `on_release`: the selection is dropped; every marker stays. */
  function Release(st: MarkerState): (r: MarkerState)
    ensures r.selected.None? && r.lines == st.lines && r.slider == st.slider
  {
    MarkerState(st.lines, None, st.slider)
  }

  /** A serialised stream of mouse events, each with the zoom/pan flag in
      force when it arrived. */
  datatype Event =
    | Press(ev: MouseEvent, navigating: bool)
    | Move(ev: MouseEvent, navigating: bool)
    | Up

  /** The editor after a stream of events; None once a handler has failed. */
  function Replay(st: MarkerState, events: seq<Event>, frameCount: nat): Option<MarkerState>
    requires ValidMarkers(st)
    decreases |events|
  {
    if events == [] then Some(st)
    else
      var next := match events[0]
        case Press(ev, nav) => Some(Click(st, ev, nav, frameCount))
        case Move(ev, nav) => Motion(st, ev, nav)
        case Up => Some(Release(st));
      if next.None? then None else Replay(next.value, events[1..], frameCount)
  }

  /** Over any stream of events the selection stays a valid marker index,
      no marker is ever deleted, and markers are only ever appended: the
      count grows by at most one per event. */
  lemma {:induction false} ReplayKeepsMarkers(st: MarkerState, events: seq<Event>, frameCount: nat)
    requires ValidMarkers(st)
    ensures var r := Replay(st, events, frameCount);
      r.Some? ==> ValidMarkers(r.value) && |st.lines| <= |r.value.lines| <= |st.lines| + |events|
    decreases |events|
  {
    if events != [] {
      var next := match events[0]
        case Press(ev, nav) => Some(Click(st, ev, nav, frameCount))
        case Move(ev, nav) => Motion(st, ev, nav)
        case Up => Some(Release(st));
      if next.Some? {
        ReplayKeepsMarkers(next.value, events[1..], frameCount);
      }
    }
  }

  /** Marker lifecycle over 100 frames (sensitivity 1): clicks at 30 and 10
      create two markers; a click at 10.5 selects the second without adding
      one; a drag to 12 moves only that marker; the release keeps both. The
      positions come back in creation order, not sorted. */
  lemma MarkerLifecycle()
    ensures Replay(MarkerState([], None, 0),
                   [Press(MouseEvent(Left, Some(30.0)), false), Press(MouseEvent(Left, Some(10.0)), false),
                    Press(MouseEvent(Left, Some(10.5)), false), Move(MouseEvent(Left, Some(12.0)), false), Up],
                   100)
            == Some(MarkerState([30.0, 12.0], None, 11))
  {
    var e1, e2, e3 := MouseEvent(Left, Some(30.0)), MouseEvent(Left, Some(10.0)), MouseEvent(Left, Some(10.5));
    var e4 := MouseEvent(Left, Some(12.0));
    var events := [Press(e1, false), Press(e2, false), Press(e3, false), Move(e4, false), Up];
    var s1 := MarkerState([30.0], None, 29);
    var s2 := MarkerState([30.0, 10.0], None, 9);
    var s5 := MarkerState([30.0, 12.0], None, 11);
    MarkerSelectDragRelease();
    assert events[2..] == [Press(e3, false), Move(e4, false), Up];
    MarkerFirstClick();
    MarkerSecondClick();
    assert Replay(s1, events[1..], 100) == Some(s5);
  }

  /** The first two clicks, far apart, each append a marker. */
  lemma MarkerFirstClick()
    ensures Click(MarkerState([], None, 0), MouseEvent(Left, Some(30.0)), false, 100)
            == MarkerState([30.0], None, 29)
  {
    RoundHalfEvenUnique(29.0, 29);
  }

  lemma MarkerSecondClick()
    ensures Click(MarkerState([30.0], None, 29), MouseEvent(Left, Some(10.0)), false, 100)
            == MarkerState([30.0, 10.0], None, 9)
  {
    RoundHalfEvenUnique(9.0, 9);
    assert Nearest([30.0], 10.0) == 0;
    assert Dist(30.0, 10.0) >= Sensitivity(100);
    assert [30.0] + [10.0] == [30.0, 10.0];
  }

  /** A click within the sensitivity of the second marker selects it. */
  lemma MarkerClickSelects()
    ensures Click(MarkerState([30.0, 10.0], None, 9), MouseEvent(Left, Some(10.5)), false, 100)
            == MarkerState([30.0, 10.0], Some(1), 10)
  {
    RoundHalfEvenUnique(9.5, 10);
    assert Dist(10.0, 10.5) < Sensitivity(100);
    assert Dist(30.0, 10.5) > Dist(10.0, 10.5);
  }

  /** Dragging moves only the selected marker; the release keeps both. */
  lemma MarkerDragRelease()
    ensures Replay(MarkerState([30.0, 10.0], Some(1), 10), [Move(MouseEvent(Left, Some(12.0)), false), Up], 100)
            == Some(MarkerState([30.0, 12.0], None, 11))
  {
    var s4 := MarkerState([30.0, 12.0], Some(1), 11);
    RoundHalfEvenUnique(11.0, 11);
    assert Motion(MarkerState([30.0, 10.0], Some(1), 10), MouseEvent(Left, Some(12.0)), false) == Some(s4) by {
      assert [30.0, 10.0][1 := 12.0] == [30.0, 12.0];
    }
    assert Replay(s4, [Up], 100) == Some(MarkerState([30.0, 12.0], None, 11));
  }

  lemma MarkerSelectDragRelease()
    ensures Replay(MarkerState([30.0, 10.0], None, 9),
                   [Press(MouseEvent(Left, Some(10.5)), false), Move(MouseEvent(Left, Some(12.0)), false), Up], 100)
            == Some(MarkerState([30.0, 12.0], None, 11))
  {
    MarkerClickSelects();
    MarkerDragRelease();
    var rest := [Move(MouseEvent(Left, Some(12.0)), false), Up];
    assert [Press(MouseEvent(Left, Some(10.5)), false), Move(MouseEvent(Left, Some(12.0)), false), Up][1..] == rest;
  }

  // ---------------------------------------------------------------------
  // The gating session object

  class ContourBasedGating {
    var reportData: seq<ReportRow>
    var frames: seq<Image>
    var x: seq<int>
    var verticalLines: seq<real>
    var selectedLine: Option<nat>
    var displaySlider: int

    function Markers(): MarkerState
      reads this
    {
      MarkerState(verticalLines, selectedLine, displaySlider)
    }

    predicate Valid()
      reads this
    {
      ValidMarkers(Markers())
    }

    /** A session over a freshly computed report: no frames yet, no markers,
        nothing selected. */
    constructor(report: seq<ReportRow>, slider: int)
      ensures reportData == report && frames == [] && x == []
      ensures verticalLines == [] && selectedLine == None && displaySlider == slider
      ensures Valid()
    {
      reportData := report;
      frames := [];
      x := [];
      verticalLines := [];
      selectedLine := None;
      displaySlider := slider;
    }

    /** `define_intramural_part` after the range dialog: declined (accepted
        false) changes nothing; otherwise the report is cut to the range, even
        when the range is then rejected; on success the frames become
        images[lower:upper] and x the frame numbers of the kept rows. */
    method DefineIntramuralPart(accepted: bool, lower: int, upper: int, images: seq<Image>)
      returns (success: bool, missing: seq<int>)
      modifies this
      ensures verticalLines == old(verticalLines) && selectedLine == old(selectedLine)
      ensures displaySlider == old(displaySlider)
      ensures !accepted ==>
        !success && missing == [] && reportData == old(reportData) && frames == old(frames) && x == old(x)
      ensures accepted ==>
        var check := CheckFrameRange(old(reportData), lower, upper);
        reportData == check.kept && success == check.Accepted? &&
        (check.Rejected? ==> missing == check.missing && frames == old(frames) && x == old(x)) &&
        (check.Accepted? ==> missing == [] && frames == PySlice(images, lower, upper) &&
                             x == FrameNumbers(check.kept))
    {
      success, missing := false, [];
      if !accepted {
        return;
      }
      reportData := RowsInRange(reportData, lower, upper);
      if |reportData| != upper - lower {
        missing := MissingFrames(reportData, lower, upper);
        return;
      }
      frames := PySlice(images, lower, upper);
      x := FrameNumbers(reportData);
      success := true;
    }

    /** `crop_frames`. */
    method CropFrames(x1: int, x2: int, y1: int, y2: int)
      modifies this
      ensures frames == CropStack(old(frames), x1, x2, y1, y2)
      ensures reportData == old(reportData) && x == old(x)
      ensures Markers() == old(Markers())
    {
      frames := CropStack(frames, x1, x2, y1, y2);
    }

    /** `calculate_correlation`: the correlation of each frame with the next,
        then a trailing 0 so the list is as long as the frames (a single 0
        when there are no frames). */
    method CalculateCorrelation(corr: (Image, Image) -> real) returns (correlations: seq<real>)
      ensures |correlations| == if |frames| == 0 then 1 else |frames|
      ensures correlations[|correlations| - 1] == 0.0
      ensures forall i :: 0 <= i < |frames| - 1 ==> correlations[i] == corr(frames[i], frames[i + 1])
    {
      correlations := [];
      var i := 0;
      while i < |frames| - 1
        invariant 0 <= i <= (if |frames| == 0 then 0 else |frames| - 1)
        invariant |correlations| == i
        invariant forall t :: 0 <= t < i ==> correlations[t] == corr(frames[t], frames[t + 1])
      {
        correlations := correlations + [corr(frames[i], frames[i + 1])];
        i := i + 1;
      }
      correlations := correlations + [0.0];
    }

    /** `on_click`, with the zoom/pan cursor test as `navigating`. */
    method OnClick(ev: MouseEvent, navigating: bool)
      requires Valid()
      modifies this
      ensures Valid()
      ensures Markers() == Click(old(Markers()), ev, navigating, |frames|)
      ensures reportData == old(reportData) && frames == old(frames) && x == old(x)
    {
      if navigating {
        return;
      }
      if ev.button == Left && ev.xdata.Some? {
        var xd := ev.xdata.value;
        if verticalLines == [] {
          verticalLines := verticalLines + [xd];
        } else {
          var k := Nearest(verticalLines, xd);
          if Dist(verticalLines[k], xd) < Sensitivity(|frames|) {
            selectedLine := Some(k);
          } else {
            verticalLines := verticalLines + [xd];
          }
        }
        displaySlider := RoundHalfEven(xd - 1.0);
      }
    }

    /** `on_motion`; `failed` reports the handler failing on an event
        without coordinates while dragging. */
    method OnMotion(ev: MouseEvent, navigating: bool) returns (failed: bool)
      requires Valid()
      modifies this
      ensures Valid()
      ensures var m := Motion(old(Markers()), ev, navigating);
        failed == m.None? && (m.Some? ==> Markers() == m.value) && (m.None? ==> Markers() == old(Markers()))
      ensures reportData == old(reportData) && frames == old(frames) && x == old(x)
    {
      failed := false;
      if navigating {
        return;
      }
      if ev.button == Left && selectedLine.Some? {
        if ev.xdata.None? {
          failed := true;
          return;
        }
        var xd := ev.xdata.value;
        verticalLines := verticalLines[selectedLine.value := xd];
        displaySlider := RoundHalfEven(xd - 1.0);
      }
    }

    /** `on_release`. */
    method OnRelease()
      modifies this
      ensures Markers() == Release(old(Markers()))
      ensures Valid()
      ensures reportData == old(reportData) && frames == old(frames) && x == old(x)
    {
      selectedLine := None;
    }

    /** `get_x_indices`: the marker positions in creation order. */
    method GetXIndices() returns (positions: seq<real>)
      ensures positions == Markers().lines
    {
      positions := verticalLines;
    }
  }
}
