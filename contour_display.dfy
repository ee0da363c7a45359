/** The contour store behind the image view (`Display`): per-frame
    downsampling of contour point lists, in-place rescaling, clearing one
    contour kind at the current frame when a new contour is started, and the
    point buffer of manual drawing.

    A contour kind is a pair of per-frame lists: the x-coordinates and the
    y-coordinates of each frame's points. Splines, Qt items and rendering are
    not part of this model; a point of the drawing buffer is its two
    coordinates. */
module ContourDisplay {
  import opened Wrappers

  datatype Contours = Contours(x: seq<seq<real>>, y: seq<seq<real>>)

  // ---------------------------------------------------------------------
  // Integer division facts used by the downsampling proofs

  lemma {:induction false} MulMonotone(step: nat, d: nat)
    requires d >= 1
    ensures step * d >= step
    decreases d
  {
    if d > 1 {
      MulMonotone(step, d - 1);
      assert step * d == step * (d - 1) + step;
    }
  }

  /** Euclidean division is determined by its quotient and remainder. */
  lemma DivModUnique(x: int, step: int, q: int, r: int)
    requires step > 0 && x == step * q + r && 0 <= r < step
    ensures x / step == q && x % step == r
  {
    var q', r' := x / step, x % step;
    assert x == step * q' + r';
    if q > q' {
      MulMonotone(step, q - q');
    } else if q < q' {
      MulMonotone(step, q' - q);
    }
  }

  // ---------------------------------------------------------------------
  // Keeping every step-th point

  /** The points at positions j >= start with j % step == 0, in order. */
  function KeepFrom(pts: seq<real>, step: nat, j: nat): (r: seq<real>)
    requires step > 0
    decreases |pts| - j
  {
    if j >= |pts| then [] else (if j % step == 0 then [pts[j]] else []) + KeepFrom(pts, step, j + 1)
  }

  lemma ModOffset(j: nat, step: nat, t: nat)
    requires step > 0 && j % step == 0 && t < step
    ensures (j + t) % step == t
  {
    DivModUnique(j + t, step, j / step, t);
  }

  lemma {:induction false} SkipToNextMultiple(pts: seq<real>, step: nat, j: nat, t: nat)
    requires step > 0 && j % step == 0 && 1 <= t <= step
    ensures KeepFrom(pts, step, j + t) == KeepFrom(pts, step, j + step)
    decreases step - t
  {
    if t < step {
      ModOffset(j, step, t);
      SkipToNextMultiple(pts, step, j, t + 1);
    }
  }

  function Count(n: nat, step: nat, j: nat): nat
    requires step > 0
  {
    if j < n then (n - j - 1) / step + 1 else 0
  }

  lemma CountStep(n: nat, step: nat, j: nat)
    requires step > 0 && j < n
    ensures Count(n, step, j) == 1 + Count(n, step, j + step)
  {
    if j + step < n {
      var a := n - j - step - 1;
      DivModUnique(n - j - 1, step, a / step + 1, a % step);
    } else {
      DivModUnique(n - j - 1, step, 0, n - j - 1);
    }
  }

  lemma {:induction false} KeepFromMultiple(pts: seq<real>, step: nat, j: nat)
    requires step > 0 && j % step == 0
    ensures var r := KeepFrom(pts, step, j);
      |r| == Count(|pts|, step, j) &&
      forall k :: 0 <= k < |r| ==> j + k * step < |pts| && r[k] == pts[j + k * step]
    decreases |pts| - j
  {
    if j < |pts| {
      ModOffset(j, step, 0);
      SkipToNextMultiple(pts, step, j, 1);
      ModOffset(j, step, 0);
      assert (j + step) % step == 0 by { ModStep(j, step); }
      KeepFromMultiple(pts, step, j + step);
      CountStep(|pts|, step, j);
      var r := KeepFrom(pts, step, j);
      var rest := KeepFrom(pts, step, j + step);
      assert r == [pts[j]] + rest;
      forall k | 1 <= k < |r| ensures j + k * step < |pts| && r[k] == pts[j + k * step] {
        assert r[k] == rest[k - 1];
        assert j + step + (k - 1) * step == j + k * step;
      }
    }
  }

  lemma ModStep(j: nat, step: nat)
    requires step > 0 && j % step == 0
    ensures (j + step) % step == 0
  {
    DivModUnique(j + step, step, j / step + 1, 0);
  }

  /** `[pnt for j, pnt in enumerate(pts) if j % step == 0]`. */
  function EveryNth(pts: seq<real>, step: nat): seq<real>
    requires step > 0
  {
    KeepFrom(pts, step, 0)
  }

  /** The kept points are pts[0], pts[step], pts[2*step], ...: ceil(|pts|/step)
      of them, the first point always among them, and each taken in order. */
  lemma EveryNthPositions(pts: seq<real>, step: nat)
    requires step > 0
    ensures var r := EveryNth(pts, step);
      |r| == (if |pts| == 0 then 0 else (|pts| - 1) / step + 1) &&
      (|pts| > 0 ==> |r| > 0 && r[0] == pts[0]) &&
      forall k :: 0 <= k < |r| ==> k * step < |pts| && r[k] == pts[k * step]
  {
    DivModUnique(0, step, 0, 0);
    KeepFromMultiple(pts, step, 0);
  }

  /** The kept points form a subsequence: their positions strictly increase. */
  lemma EveryNthSubsequence(pts: seq<real>, step: nat, k: nat, l: nat)
    requires step > 0 && k < l < |EveryNth(pts, step)|
    ensures k * step < l * step < |pts|
    ensures EveryNth(pts, step)[k] == pts[k * step] && EveryNth(pts, step)[l] == pts[l * step]
  {
    EveryNthPositions(pts, step);
    MulMonotone(step, l - k);
  }

  // ---------------------------------------------------------------------
  // downsample

  /** `len(points) // num_points`, at least 1 once there are num_points points. */
  function Step(n: nat, numPoints: nat): (s: nat)
    requires numPoints > 0
    ensures n >= numPoints ==> s >= 1
    ensures n < numPoints ==> s == 0
  {
    if n < numPoints then DivModUnique(n, numPoints, 0, n); 0
    else DivModUnique(n, numPoints, n / numPoints, n % numPoints); n / numPoints
  }

  /** A non-empty frame with fewer points than asked for: its step is 0 and
      `j % 0` raises. */
  predicate TooShort(pts: seq<real>, numPoints: nat)
  {
    0 < |pts| < numPoints
  }

  datatype DownsampleResult =
    | Downsampled(c: Contours)
    | StepZero(frame: nat)

  /** `downsample`: a fresh pair of per-frame lists with as many frames as
      the x-lists; an empty frame stays empty; a non-empty frame keeps every
      step-th point of its x-list and, with the step of the x-list, of its
      y-list. It fails at the first non-empty frame holding fewer than
      num_points points. */
  method Downsample(contours: Contours, numPoints: nat) returns (r: DownsampleResult)
    requires numPoints > 0 && |contours.x| <= |contours.y|
    ensures r.StepZero? <==> exists i :: 0 <= i < |contours.x| && TooShort(contours.x[i], numPoints)
    ensures r.StepZero? ==>
      r.frame < |contours.x| && TooShort(contours.x[r.frame], numPoints) &&
      forall i :: 0 <= i < r.frame ==> !TooShort(contours.x[i], numPoints)
    ensures r.Downsampled? ==>
      |r.c.x| == |contours.x| && |r.c.y| == |contours.x| &&
      forall i :: 0 <= i < |contours.x| ==>
        if contours.x[i] == [] then r.c.x[i] == [] && r.c.y[i] == []
        else
          var step := Step(|contours.x[i]|, numPoints);
          step > 0 &&
          r.c.x[i] == EveryNth(contours.x[i], step) && r.c.y[i] == EveryNth(contours.y[i], step)
  {
    var n := |contours.x|;
    var xs: seq<seq<real>> := seq(n, _ => []);
    var ys: seq<seq<real>> := seq(n, _ => []);
    for i := 0 to n
      invariant |xs| == n && |ys| == n
      invariant forall t :: 0 <= t < i ==> !TooShort(contours.x[t], numPoints)
      invariant forall t :: i <= t < n ==> xs[t] == [] && ys[t] == []
      invariant forall t :: 0 <= t < i ==>
        if contours.x[t] == [] then xs[t] == [] && ys[t] == []
        else
          var step := Step(|contours.x[t]|, numPoints);
          step > 0 && xs[t] == EveryNth(contours.x[t], step) && ys[t] == EveryNth(contours.y[t], step)
    {
      if contours.x[i] != [] {
        var step := Step(|contours.x[i]|, numPoints);
        if step == 0 {
          return StepZero(i);
        }
        xs := xs[i := EveryNth(contours.x[i], step)];
        ys := ys[i := EveryNth(contours.y[i], step)];
      }
    }
    r := Downsampled(Contours(xs, ys));
  }

  // ---------------------------------------------------------------------
  // resize

  /** Python's `int()` on a float: truncation toward zero. */
  function Trunc(v: real): (r: int)
    ensures v >= 0.0 ==> 0.0 <= r as real <= v && v - r as real < 1.0
    ensures v < 0.0 ==> v <= r as real <= 0.0 && r as real - v < 1.0
  {
    if v >= 0.0 then v.Floor else -((-v).Floor)
  }

  function TruncScaled(v: real, scale: real): (r: real)
    ensures r == r.Floor as real
    ensures -1.0 < r - v * scale < 1.0
    ensures v * scale >= 0.0 ==> 0.0 <= r <= v * scale
    ensures v * scale < 0.0 ==> v * scale <= r <= 0.0
  {
    var p := v * scale;
    Trunc(p) as real
  }

  /** `[int(val * scale) for val in pts]`: each value scaled and truncated
      toward zero: a whole number between 0 and the exact product, less
      than 1 away from it. */
  function ScaleTrunc(pts: seq<real>, scale: real): (r: seq<real>)
    ensures |r| == |pts|
    ensures forall k :: 0 <= k < |pts| ==> r[k] == r[k].Floor as real
    ensures forall k :: 0 <= k < |pts| ==> -1.0 < r[k] - pts[k] * scale < 1.0
    ensures forall k :: 0 <= k < |pts| && pts[k] * scale >= 0.0 ==> 0.0 <= r[k] <= pts[k] * scale
    ensures forall k :: 0 <= k < |pts| && pts[k] * scale < 0.0 ==> pts[k] * scale <= r[k] <= 0.0
  {
    seq(|pts|, k requires 0 <= k < |pts| => TruncScaled(pts[k], scale))
  }

  /** `resize`: in place, each frame whose x-list is non-empty has its x-list,
      and then its y-list, replaced by `int(val * scale)` of each value. The
      y-list is guarded by the x-list of the same frame, not by its own
      emptiness. The same two lists are returned. */
  method Resize(xs: array<seq<real>>, ys: array<seq<real>>, scale: real)
    returns (rx: array<seq<real>>, ry: array<seq<real>>)
    requires xs != ys && ys.Length <= xs.Length
    modifies xs, ys
    ensures rx == xs && ry == ys
    ensures forall i :: 0 <= i < xs.Length ==>
      xs[i] == if old(xs[i]) != [] then ScaleTrunc(old(xs[i]), scale) else old(xs[i])
    ensures forall i :: 0 <= i < ys.Length ==>
      ys[i] == if old(xs[i]) != [] then ScaleTrunc(old(ys[i]), scale) else old(ys[i])
  {
    for idx := 0 to xs.Length
      invariant forall i :: 0 <= i < idx ==>
        xs[i] == if old(xs[i]) != [] then ScaleTrunc(old(xs[i]), scale) else old(xs[i])
      invariant forall i :: idx <= i < xs.Length ==> xs[i] == old(xs[i])
      invariant forall i :: 0 <= i < ys.Length ==> ys[i] == old(ys[i])
    {
      if xs[idx] != [] {
        xs[idx] := ScaleTrunc(xs[idx], scale);
      }
    }
    for idx := 0 to ys.Length
      invariant forall i :: 0 <= i < xs.Length ==>
        xs[i] == if old(xs[i]) != [] then ScaleTrunc(old(xs[i]), scale) else old(xs[i])
      invariant forall i :: 0 <= i < idx ==>
        ys[i] == if old(xs[i]) != [] then ScaleTrunc(old(ys[i]), scale) else old(ys[i])
      invariant forall i :: idx <= i < ys.Length ==> ys[i] == old(ys[i])
    {
      if xs[idx] != [] {
        ys[idx] := ScaleTrunc(ys[idx], scale);
      }
    }
    rx, ry := xs, ys;
  }

  // ---------------------------------------------------------------------
  // new: clearing one contour kind at the current frame

  /** Frame f of a contour kind emptied, x and y alike. */
  function ClearFrame(c: Contours, f: int): (r: Contours)
    requires 0 <= f < |c.x| && f < |c.y|
    ensures |r.x| == |c.x| && |r.y| == |c.y|
    ensures r.x[f] == [] && r.y[f] == []
    ensures forall g :: 0 <= g < |c.x| && g != f ==> r.x[g] == c.x[g]
    ensures forall g :: 0 <= g < |c.y| && g != f ==> r.y[g] == c.y[g]
  {
    Contours(c.x[f := []], c.y[f := []])
  }

  // ---------------------------------------------------------------------
  // The manual-drawing buffer

  datatype Point = Point(x: real, y: real)

  function SqDist(a: Point, b: Point): real
  {
    (a.x - b.x) * (a.x - b.x) + (a.y - b.y) * (a.y - b.y)
  }

  /** A new point closes the drawing when the buffer already holds a point
      and the new one lies within distance 10 of the first (compared as the
      squared distance against 100). */
  predicate Closes(buffer: seq<Point>, p: Point)
  {
    |buffer + [p]| > 1 && SqDist(p, (buffer + [p])[0]) < 100.0
  }

  /** The buffer after one point: emptied when the point closes the drawing,
      otherwise grown by that point. */
  function AddPoint(buffer: seq<Point>, p: Point): (r: seq<Point>)
    ensures Closes(buffer, p) ==> r == []
    ensures !Closes(buffer, p) ==> r == buffer + [p]
  {
    if Closes(buffer, p) then [] else buffer + [p]
  }

  /** No point of an open buffer after the first lies near the first. */
  predicate OpenBuffer(buffer: seq<Point>)
  {
    forall k :: 1 <= k < |buffer| ==> SqDist(buffer[k], buffer[0]) >= 100.0
  }

  /** The buffer after a stream of points. */
  function Feed(buffer: seq<Point>, points: seq<Point>): seq<Point>
    decreases |points|
  {
    if points == [] then buffer else Feed(AddPoint(buffer, points[0]), points[1..])
  }

  predicate IsSuffix(a: seq<Point>, b: seq<Point>)
  {
    |a| <= |b| && a == b[|b| - |a|..]
  }

  /** One point keeps the buffer open. */
  lemma AddPointKeepsOpen(buffer: seq<Point>, p: Point)
    requires OpenBuffer(buffer)
    ensures OpenBuffer(AddPoint(buffer, p))
  {
    if !Closes(buffer, p) && buffer != [] {
      var r := buffer + [p];
      forall k | 1 <= k < |r| ensures SqDist(r[k], r[0]) >= 100.0 {
        if k < |buffer| {
          assert r[k] == buffer[k];
        }
      }
    }
  }

  /** The buffer stays open over any stream of points, and always holds
      exactly the points since the last close: a suffix of what was fed. */
  lemma {:induction false} FeedKeepsOpenSuffix(buffer: seq<Point>, points: seq<Point>)
    requires OpenBuffer(buffer)
    ensures OpenBuffer(Feed(buffer, points))
    ensures IsSuffix(Feed(buffer, points), buffer + points)
    decreases |points|
  {
    if points == [] {
      assert buffer + points == buffer;
    } else {
      var next := AddPoint(buffer, points[0]);
      AddPointKeepsOpen(buffer, points[0]);
      FeedKeepsOpenSuffix(next, points[1..]);
      var all := buffer + points;
      var rest := next + points[1..];
      if Closes(buffer, points[0]) {
        assert rest == all[|buffer| + 1..];
      } else {
        assert rest == all;
      }
    }
  }

  // ---------------------------------------------------------------------
  // The display object

  class Display {
    var frame: int
    var lumen: Contours
    var plaque: Contours
    var stent: Contours
    var draw: bool
    var drawPoints: seq<Point>
    var editSelection: Option<int>
    var splineDrawn: bool
    var hasSpline: bool

    /** The drawing state the manual-spline handler keeps: while points are
        buffered the spline exists exactly from the fourth point on, and the
        buffer is open. */
    predicate Valid()
      reads this
    {
      (drawPoints != [] ==> (splineDrawn <==> |drawPoints| > 3)) &&
      (|drawPoints| > 3 ==> hasSpline) &&
      OpenBuffer(drawPoints)
    }

    constructor()
      ensures frame == 0 && !draw && drawPoints == [] && editSelection == None
      ensures lumen == Contours([], []) && plaque == Contours([], []) && stent == Contours([], [])
      ensures !splineDrawn && !hasSpline
      ensures Valid()
    {
      frame := 0;
      lumen, plaque, stent := Contours([], []), Contours([], []), Contours([], []);
      draw := false;
      drawPoints := [];
      editSelection := None;
      splineDrawn := false;
      hasSpline := false;
    }

    /** `setFrame`. */
    method SetFrame(value: int)
      requires Valid()
      modifies this
      ensures Valid()
      ensures frame == value
      ensures lumen == old(lumen) && plaque == old(plaque) && stent == old(stent)
      ensures draw == old(draw) && drawPoints == old(drawPoints) && editSelection == old(editSelection)
      ensures splineDrawn == old(splineDrawn) && hasSpline == old(hasSpline)
    {
      frame := value;
    }

    /** `new`: drawing starts (`draw` set) and the selection is stored
        whatever it is; selection 0, 1 or 2 empties the stent, plaque or
        lumen contour at the current frame, and nothing else changes. */
    method New(selection: int)
      requires selection == 0 ==> 0 <= frame < |stent.x| && frame < |stent.y|
      requires selection == 1 ==> 0 <= frame < |plaque.x| && frame < |plaque.y|
      requires selection == 2 ==> 0 <= frame < |lumen.x| && frame < |lumen.y|
      requires Valid()
      modifies this
      ensures Valid()
      ensures draw && editSelection == Some(selection)
      ensures stent == if selection == 0 then ClearFrame(old(stent), old(frame)) else old(stent)
      ensures plaque == if selection == 1 then ClearFrame(old(plaque), old(frame)) else old(plaque)
      ensures lumen == if selection == 2 then ClearFrame(old(lumen), old(frame)) else old(lumen)
      ensures frame == old(frame) && drawPoints == old(drawPoints)
      ensures splineDrawn == old(splineDrawn) && hasSpline == old(hasSpline)
    {
      draw := true;
      editSelection := Some(selection);
      if selection == 0 {
        stent := ClearFrame(stent, frame);
      } else if selection == 1 {
        plaque := ClearFrame(plaque, frame);
      } else if selection == 2 {
        lumen := ClearFrame(lumen, frame);
      }
    }

    /** The buffer logic of `addManualSpline`: the point is appended; from
        the fourth point on a spline exists; once more than one point is held
        and the new one is within distance 10 of the first, drawing ends and
        the buffer is emptied. */
    method AddManualSpline(p: Point)
      requires Valid()
      modifies this
      ensures Valid()
      ensures drawPoints == AddPoint(old(drawPoints), p)
      ensures draw == (old(draw) && !Closes(old(drawPoints), p))
      ensures splineDrawn == ((old(drawPoints) != [] && old(splineDrawn)) || |old(drawPoints)| + 1 > 3)
      ensures hasSpline == (old(hasSpline) || |old(drawPoints)| + 1 > 3)
      ensures frame == old(frame) && lumen == old(lumen) && plaque == old(plaque) && stent == old(stent)
      ensures editSelection == old(editSelection)
    {
      if drawPoints == [] {
        splineDrawn := false;
      }
      drawPoints := drawPoints + [p];
      if |drawPoints| > 3 {
        if !splineDrawn {
          hasSpline := true;
          splineDrawn := true;
        }
      }
      if |drawPoints| > 1 {
        if SqDist(p, drawPoints[0]) < 100.0 {
          draw := false;
          drawPoints := [];
        }
      }
    }
  }
}
