/** The grid behind the bars (js/renderer.js): vertical lines at the days
    that start a unit of the zoom, horizontal lines under every row, and the
    size of the canvas. */
module Grid {
  import opened Seqs
  import opened Dates
  import opened Constants
  import opened RenderHelpers

  /** Pixels added to the right of the last day. */
  const RightPad: int := 120

  /** The canvas width: every day plus the right padding. */
  function CanvasWidth(totalDays: int, dayWidth: int): int { totalDays * dayWidth + RightPad }

  /** The height of the bars area: one band per row. */
  function ContentHeight(rowCount: nat): int { rowCount * RowH }

  /** The offsets below `n` of the days from `min` on that satisfy `ok`,
      in increasing order. */
  function DaysWhere(n: int, min: Day, ok: Day -> bool): seq<nat>
    decreases n
  {
    if n <= 0 then []
    else DaysWhere(n - 1, min, ok) + (if ok(min + n - 1) then [n - 1] else [])
  }

  /** The days that start a unit of the zoom `mode`. */
  function Boundary(mode: string): Day -> bool { d => IsBoundary(d, mode) }

  /** The offsets below `n` of the days that start a unit of `mode`. */
  function BoundaryDays(n: int, min: Day, mode: string): seq<nat> {
    DaysWhere(n, min, Boundary(mode))
  }

  /** The chosen days are exactly those below `n` that satisfy `ok`, each
      once, in increasing order. */
  lemma {:induction false} DaysWhereSpec(n: int, min: Day, ok: Day -> bool)
    ensures forall d: nat :: d in DaysWhere(n, min, ok) <==> d < n && ok(min + d)
    ensures forall i, j :: 0 <= i < j < |DaysWhere(n, min, ok)| ==> DaysWhere(n, min, ok)[i] < DaysWhere(n, min, ok)[j]
    decreases n
  {
    if n > 0 {
      DaysWhereSpec(n - 1, min, ok);
      var ds := DaysWhere(n - 1, min, ok);
      forall i | 0 <= i < |ds|
        ensures ds[i] < n - 1
      {
        assert ds[i] in ds;
      }
    }
  }

  /** Counting one more day adds it when it satisfies `ok`. */
  lemma DaysWhereStep(d: nat, min: Day, ok: Day -> bool)
    ensures DaysWhere(d + 1, min, ok) == DaysWhere(d, min, ok) + (if ok(min + d) then [d] else [])
  {
  }

  /** Counting more days only adds days at the end. */
  lemma {:induction false} DaysWherePrefix(n: int, m: int, min: Day, ok: Day -> bool)
    requires n <= m
    ensures DaysWhere(n, min, ok) <= DaysWhere(m, min, ok)
    decreases m - n
  {
    if n < m {
      DaysWherePrefix(n, m - 1, min, ok);
    }
  }

  /** In day mode every day gets its line. */
  lemma {:induction false} DayModeEveryDay(n: nat, min: Day)
    ensures |BoundaryDays(n, min, "day")| == n
    ensures forall i :: 0 <= i < n ==> BoundaryDays(n, min, "day")[i] == i
  {
    if n > 0 {
      DayModeEveryDay(n - 1, min);
      assert Boundary("day")(min + n - 1);
    }
  }

  /** In week mode any seven consecutive days of the range hold exactly one
      line, on a Sunday. */
  lemma WeekModeOnePerWeek(n: int, min: Day, d: nat)
    requires d + 7 <= n
    ensures exists e: nat :: d <= e < d + 7 && e in BoundaryDays(n, min, "week") && Weekday(min + e) == 0
    ensures forall e: nat, f: nat :: d <= e < d + 7 && d <= f < d + 7 && e in BoundaryDays(n, min, "week") && f in BoundaryDays(n, min, "week") ==> e == f
  {
    DaysWhereSpec(n, min, Boundary("week"));
    WeekBoundaries(min + d);
    var e :| min + d <= e < min + d + 7 && IsBoundary(e, "week");
    assert (e - min) in BoundaryDays(n, min, "week");
    forall e: nat, f: nat | d <= e < d + 7 && d <= f < d + 7 && e in BoundaryDays(n, min, "week") && f in BoundaryDays(n, min, "week")
      ensures e == f
    {
      assert IsBoundary(min + e, "week") && IsBoundary(min + f, "week");
    }
  }

  /** `at` applied to each day offset of `ds`, in order. */
  function Place<T>(ds: seq<nat>, at: nat -> T): (out: seq<T>)
    ensures |out| == |ds|
  {
    if ds == [] then [] else Place(ds[..|ds| - 1], at) + [at(Last(ds))]
  }

  lemma {:induction false} PlaceAt<T>(ds: seq<nat>, at: nat -> T)
    ensures forall i :: 0 <= i < |ds| ==> Place(ds, at)[i] == at(ds[i])
  {
    if ds != [] {
      PlaceAt(ds[..|ds| - 1], at);
    }
  }

  lemma PlaceSnoc<T>(ds: seq<nat>, d: nat, at: nat -> T)
    ensures Place(ds + [d], at) == Place(ds, at) + [at(d)]
  {
    assert (ds + [d])[..|ds|] == ds;
  }

  /** The day loop `render` and `renderHeader` share: for `d` from 0 to
      `n`, with `cur` the day `d` after `min`, place an element for each
      `d < n` whose day passes `ok`. */
  method DayLoop<T>(n: int, min: Day, ok: Day -> bool, at: nat -> T) returns (out: seq<T>)
    ensures out == Place(DaysWhere(n, min, ok), at)
  {
    out := [];
    ghost var ds: seq<nat> := [];
    var cur := min;
    var d := 0;
    while d <= n
      invariant 0 <= d && (d <= n + 1 || d == 0)
      invariant cur == min + d
      invariant ds == DaysWhere(if d < n then d else n, min, ok)
      invariant out == Place(ds, at)
    {
      if d < n && ok(cur) {
        PlaceSnoc(ds, d, at);
        out := out + [at(d)];
        ds := ds + [d];
      }
      cur := cur + 1;
      d := d + 1;
    }
  }

  /** The x of day `d`'s left edge. */
  function LineX(dayWidth: int): nat -> int { d => d * dayWidth }

  /** The vertical grid lines: for the days below `totalDays`, one at each
      that starts a unit of the zoom. */
  method DrawVLines(totalDays: int, min: Day, mode: string, dayWidth: int) returns (xs: seq<int>)
    ensures xs == Place(BoundaryDays(totalDays, min, mode), LineX(dayWidth))
  {
    xs := DayLoop(totalDays, min, Boundary(mode), LineX(dayWidth));
  }

  /** The horizontal grid lines: one at the bottom of every row's band. */
  method DrawHLines(rowCount: nat) returns (ys: seq<int>)
    ensures |ys| == rowCount
    ensures forall r :: 0 <= r < rowCount ==> ys[r] == (r + 1) * RowH
  {
    ys := [];
    var r := 0;
    while r < rowCount
      invariant 0 <= r <= rowCount
      invariant |ys| == r
      invariant forall k :: 0 <= k < r ==> ys[k] == (k + 1) * RowH
    {
      ys := ys + [r * RowH + RowH];
      r := r + 1;
    }
  }
}
