/** The post-processing script of a gated pullback: the split of the report
    rows into alternating systole and diastole rows, and `calculate_zposition`,
    which turns frame differences into millimetres along the pullback.

    Report rows are generic; only their position in the table (the default
    integer index of a freshly read table) and, for the z-positions, their
    frame numbers matter. */
module Postprocessing {
  import opened Wrappers
  import opened Sorting

  // ---------------------------------------------------------------------
  // The even/odd split

  /** The rows at positions j and later whose position has the given parity,
      in order: `df[df.index % 2 == parity]` restricted to positions >= j. */
  function RowsWithParity<T>(rows: seq<T>, parity: nat, j: nat): seq<T>
    requires parity < 2
    decreases |rows| - j
  {
    if j >= |rows| then []
    else (if j % 2 == parity then [rows[j]] else []) + RowsWithParity(rows, parity, j + 1)
  }

  /** `systole = df[df.index % 2 == 0]`. */
  function Systole<T>(rows: seq<T>): seq<T>
  {
    RowsWithParity(rows, 0, 0)
  }

  /** `diastole = df[df.index % 2 != 0]`. */
  function Diastole<T>(rows: seq<T>): seq<T>
  {
    RowsWithParity(rows, 1, 0)
  }

  /** Alternate the rows of a and b, starting with a. */
  function Interleave<T>(a: seq<T>, b: seq<T>): seq<T>
    decreases |a| + |b|
  {
    if a == [] then b else [a[0]] + Interleave(b, a[1..])
  }

  /** The two phases partition the rows: together they hold every row once,
      and taking them alternately from systole gives the table back. */
  lemma SplitPartitions<T>(rows: seq<T>)
    ensures multiset(Systole(rows)) + multiset(Diastole(rows)) == multiset(rows)
    ensures Interleave(Systole(rows), Diastole(rows)) == rows
  {
    ParityMultiset(rows, 0);
    ParityInterleave(rows, 0);
  }

  lemma {:induction false} ParityMultiset<T>(rows: seq<T>, j: nat)
    requires j <= |rows|
    ensures multiset(RowsWithParity(rows, 0, j)) + multiset(RowsWithParity(rows, 1, j)) == multiset(rows[j..])
    decreases |rows| - j
  {
    if j < |rows| {
      ParityMultiset(rows, j + 1);
      SuffixMultiset(rows, j);
      ParityMultisetStep(rows, j);
    }
  }

  /** Row j joins exactly one of the two phases. */
  lemma ParityMultisetStep<T>(rows: seq<T>, j: nat)
    requires j < |rows|
    ensures multiset(RowsWithParity(rows, 0, j)) + multiset(RowsWithParity(rows, 1, j)) ==
      multiset{rows[j]} + multiset(RowsWithParity(rows, 0, j + 1)) + multiset(RowsWithParity(rows, 1, j + 1))
  {
    var even, odd := RowsWithParity(rows, 0, j + 1), RowsWithParity(rows, 1, j + 1);
    if j % 2 == 0 {
      assert RowsWithParity(rows, 0, j) == [rows[j]] + even;
      assert RowsWithParity(rows, 1, j) == odd;
      assert multiset([rows[j]] + even) == multiset{rows[j]} + multiset(even);
    } else {
      assert RowsWithParity(rows, 0, j) == even;
      assert RowsWithParity(rows, 1, j) == [rows[j]] + odd;
      assert multiset([rows[j]] + odd) == multiset{rows[j]} + multiset(odd);
    }
  }

  lemma SuffixMultiset<T>(rows: seq<T>, j: nat)
    requires j < |rows|
    ensures multiset(rows[j..]) == multiset{rows[j]} + multiset(rows[j + 1..])
  {
    assert rows[j..] == [rows[j]] + rows[j + 1..];
  }

  lemma {:induction false} ParityInterleave<T>(rows: seq<T>, j: nat)
    requires j <= |rows|
    ensures Interleave(RowsWithParity(rows, j % 2, j), RowsWithParity(rows, 1 - j % 2, j)) == rows[j..]
    decreases |rows| - j
  {
    if j < |rows| {
      var p := j % 2;
      ParityInterleave(rows, j + 1);
      assert RowsWithParity(rows, 1 - p, j) == RowsWithParity(rows, 1 - p, j + 1);
      assert RowsWithParity(rows, p, j) == [rows[j]] + RowsWithParity(rows, p, j + 1);
      assert (j + 1) % 2 == 1 - p;
      assert rows[j..] == [rows[j]] + rows[j + 1..];
    }
  }

  /** Systole holds ceil(n/2) rows and diastole floor(n/2). */
  lemma SplitSizes<T>(rows: seq<T>)
    ensures |Systole(rows)| == (|rows| + 1) / 2 && |Diastole(rows)| == |rows| / 2
  {
    ParityCount(rows, 0, 0);
    ParityCount(rows, 1, 0);
  }

  lemma {:induction false} ParityCount<T>(rows: seq<T>, parity: nat, j: nat)
    requires parity < 2 && j <= |rows|
    ensures |RowsWithParity(rows, parity, j)| ==
      (|rows| - j + (if j % 2 == parity then 1 else 0)) / 2
    decreases |rows| - j
  {
    if j < |rows| {
      ParityCount(rows, parity, j + 1);
      var m := |rows| - j;
      var tail := |RowsWithParity(rows, parity, j + 1)|;
      if j % 2 == parity {
        assert tail == (m - 1) / 2 by { NextParity(j, parity); }
        assert |RowsWithParity(rows, parity, j)| == 1 + tail;
        HalfStep(m - 1);
      } else {
        assert tail == m / 2 by { NextParity(j, parity); }
        assert |RowsWithParity(rows, parity, j)| == tail;
      }
    }
  }

  lemma NextParity(j: nat, parity: nat)
    requires parity < 2
    ensures (j + 1) % 2 == parity <==> j % 2 != parity
  {
  }

  lemma HalfStep(n: int)
    requires n >= 0
    ensures 1 + n / 2 == (n + 2) / 2
  {
  }

  // ---------------------------------------------------------------------
  // calculate_zposition

  function Abs(n: int): nat
  {
    if n < 0 then -n else n
  }

  /** The pullback distance between frames i and i+1:
      |f[i+1] - f[i]| / frame_rate * pullback_speed. */
  function Gap(f: seq<int>, i: nat, speed: real, rate: real): real
    requires i + 1 < |f| && rate != 0.0
  {
    (Abs(f[i + 1] - f[i]) as real / rate) * speed
  }

  /** The distance accumulated over the gaps 1..i (the gap between rows 0
      and 1 is never counted). */
  function Travel(f: seq<int>, i: nat, speed: real, rate: real): real
    requires i + 1 < |f| && rate != 0.0
  {
    if i == 0 then 0.0 else Travel(f, i - 1, speed, rate) + Gap(f, i, speed, rate)
  }

  /** The z_position column for frame column f: 0 at the first row, the
      accumulated travel at rows 1..n-2, and 0 again at the last row. */
  function ZColumn(f: seq<int>, speed: real, rate: real): (z: seq<real>)
    requires |f| >= 3 && rate != 0.0
    ensures |z| == |f| && z[0] == 0.0 && z[|f| - 1] == 0.0
  {
    seq(|f|, i requires 0 <= i < |f| => if i == |f| - 1 then 0.0 else Travel(f, i, speed, rate))
  }

  /** The loop of `calculate_zposition` on a fresh zero-filled array:
      z[1] from the gap between rows 1 and 2, then z[i] = z[i-1] + gap(i)
      for i up to n-2, and z[n-1] set to 0. */
  method FillZPosition(f: seq<int>, speed: real, rate: real) returns (z: array<real>)
    requires |f| >= 3 && rate != 0.0
    ensures fresh(z)
    ensures z[..] == ZColumn(f, speed, rate)
  {
    var n := |f|;
    z := new real[n](_ => 0.0);
    z[1] := Gap(f, 1, speed, rate) + z[0];
    assert z[1] == Travel(f, 1, speed, rate);
    for i := 2 to n
      invariant z.Length == n && z[0] == 0.0 && z[n - 1] == 0.0
      invariant forall t :: 1 <= t < i && t < n - 1 ==> z[t] == Travel(f, t, speed, rate)
    {
      if i + 1 >= n {
        z[i] := 0.0;
      } else {
        assert z[i - 1] == Travel(f, i - 1, speed, rate);
        z[i] := Gap(f, i, speed, rate) + z[i - 1];
        assert z[i] == Travel(f, i, speed, rate);
      }
    }
    ZColumnOf(f, speed, rate, z[..]);
  }

  /** A column that is 0 at both ends and the travel in between is the
      z-position column. */
  lemma ZColumnOf(f: seq<int>, speed: real, rate: real, z: seq<real>)
    requires |f| >= 3 && rate != 0.0 && |z| == |f|
    requires z[0] == 0.0 && z[|f| - 1] == 0.0
    requires forall t :: 1 <= t < |f| - 1 ==> z[t] == Travel(f, t, speed, rate)
    ensures z == ZColumn(f, speed, rate)
  {
  }

  /** A table of one cardiac phase: its frame numbers and, once computed,
      its z_position column. */
  class PhaseTable {
    var frame: seq<int>
    var zPosition: Option<seq<real>>

    constructor(frames: seq<int>)
      ensures frame == frames && zPosition == None
    {
      frame := frames;
      zPosition := None;
    }
  }

  /** `calculate_zposition`: writes the z_position column into the table it
      is given and returns that same table. It reads the row at position 2
      unconditionally, so it needs three rows. */
  method CalculateZPosition(table: PhaseTable, speed: real, rate: real) returns (result: PhaseTable)
    requires |table.frame| >= 3 && rate != 0.0
    modifies table
    ensures result == table
    ensures table.frame == old(table.frame)
    ensures table.zPosition == Some(ZColumn(table.frame, speed, rate))
  {
    var z := FillZPosition(table.frame, speed, rate);
    table.zPosition := Some(z[..]);
    result := table;
  }

  /** With positive speed and rate the column rises from row 0 to row n-2. */
  lemma {:induction false} ZNonDecreasing(f: seq<int>, speed: real, rate: real, i: nat, j: nat)
    requires |f| >= 3 && rate > 0.0 && speed > 0.0
    requires i <= j <= |f| - 2
    ensures ZColumn(f, speed, rate)[i] <= ZColumn(f, speed, rate)[j]
    decreases j - i
  {
    if i < j {
      ZNonDecreasing(f, speed, rate, i, j - 1);
      GapNonNegative(f, j, speed, rate);
    }
  }

  lemma GapNonNegative(f: seq<int>, i: nat, speed: real, rate: real)
    requires i + 1 < |f| && rate > 0.0 && speed > 0.0
    ensures Gap(f, i, speed, rate) >= 0.0
  {
    var d := Abs(f[i + 1] - f[i]) as real;
    assert d / rate >= 0.0;
  }

  /** The first frame number never enters the column: two frame columns
      that differ only at row 0 give the same z-positions. */
  lemma {:induction false} ZIgnoresFirstRow(f: seq<int>, g: seq<int>, speed: real, rate: real)
    requires |f| >= 3 && |g| == |f| && rate != 0.0
    requires f[1..] == g[1..]
    ensures ZColumn(f, speed, rate) == ZColumn(g, speed, rate)
  {
    forall i | 1 <= i < |f| - 1 ensures Travel(f, i, speed, rate) == Travel(g, i, speed, rate) {
      TravelIgnoresFirstRow(f, g, speed, rate, i);
    }
  }

  lemma {:induction false} TravelIgnoresFirstRow(f: seq<int>, g: seq<int>, speed: real, rate: real, i: nat)
    requires |g| == |f| && i + 1 < |f| && rate != 0.0
    requires f[1..] == g[1..]
    ensures Travel(f, i, speed, rate) == Travel(g, i, speed, rate)
  {
    if i > 0 {
      TravelIgnoresFirstRow(f, g, speed, rate, i - 1);
      assert f[i] == f[1..][i - 1] == g[i];
      assert f[i + 1] == f[1..][i] == g[i + 1];
    }
  }

  /** On frames sorted in descending order (as the script passes them) the
      travel telescopes: z[i] is the frame distance from row 1 to row i+1,
      converted to millimetres. */
  lemma {:induction false} TravelTelescopes(f: seq<int>, speed: real, rate: real, i: nat)
    requires SortedDescending(f) && i + 1 < |f| && rate != 0.0
    ensures Travel(f, i, speed, rate) == ((f[1] - f[i + 1]) as real / rate) * speed
  {
    if i == 0 {
    } else {
      TravelTelescopes(f, speed, rate, i - 1);
      assert Abs(f[i + 1] - f[i]) == f[i] - f[i + 1];
      SplitQuotient((f[1] - f[i]) as real, (f[i] - f[i + 1]) as real, rate, speed);
    }
  }

  lemma SplitQuotient(a: real, b: real, rate: real, speed: real)
    requires rate != 0.0
    ensures (a / rate) * speed + (b / rate) * speed == ((a + b) / rate) * speed
  {
  }

  /** Rows of frames 10, 8, 5, 2 at 30 frames per second and 0.5 mm/s:
      z = [0, 0.05, 0.1, 0]; the first gap (10 to 8) is skipped. */
  lemma ZExample()
    ensures ZColumn([10, 8, 5, 2], 0.5, 30.0) == [0.0, 0.05, 0.1, 0.0]
  {
    var f := [10, 8, 5, 2];
    assert Travel(f, 1, 0.5, 30.0) == 0.05;
    assert Travel(f, 2, 0.5, 30.0) == 0.1;
  }

  // ---------------------------------------------------------------------
  // The script's use of the two phases

  /** The script sorts each phase by descending frame and computes its
      z-positions, but the table it names `dia` comes from the systole rows
      and the one it names `sys` from the diastole rows. */
  method PhasePositions(frames: seq<int>, speed: real, rate: real) returns (dia: PhaseTable, sys: PhaseTable)
    requires |frames| >= 6 && rate != 0.0
    ensures fresh(dia) && fresh(sys) && dia != sys
    ensures |dia.frame| >= 3 && |sys.frame| >= 3
    ensures dia.frame == SortDescending(Systole(frames))
    ensures sys.frame == SortDescending(Diastole(frames))
    ensures dia.zPosition == Some(ZColumn(dia.frame, speed, rate))
    ensures sys.zPosition == Some(ZColumn(sys.frame, speed, rate))
  {
    SplitSizes(frames);
    var diastoleFlip := new PhaseTable(SortDescending(Diastole(frames)));
    var systoleFlip := new PhaseTable(SortDescending(Systole(frames)));
    MultisetSize(Systole(frames), SortDescending(Systole(frames)));
    MultisetSize(Diastole(frames), SortDescending(Diastole(frames)));
    dia := CalculateZPosition(systoleFlip, speed, rate);
    sys := CalculateZPosition(diastoleFlip, speed, rate);
  }

  lemma MultisetSize(a: seq<int>, b: seq<int>)
    requires multiset(a) == multiset(b)
    ensures |a| == |b|
  {
    assert |multiset(a)| == |a| && |multiset(b)| == |b|;
  }
}
