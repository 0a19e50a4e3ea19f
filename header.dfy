/** The date header above the grid (`renderHeader`, js/renderer.js): a tick
    with a label at every boundary of the zoom over the days plus two guard
    days, and, outside month mode, a row of month labels each centred over
    its month. The tick text of the header is also kept as `__tickLabel`
    in app.js. */
module Header {
  import opened Text
  import opened Seqs
  import opened Dates
  import opened RenderHelpers
  import opened Grid

  /** Days drawn past the last day of the chart. */
  const GuardDays: int := 2

  /** A tick of the day row: its day offset, the x of its line and the x of
      its label, which may fall on a half pixel. */
  datatype Tick = Tick(day: nat, x: int, labelX: real)

  /** Month and week labels start 6 pixels right of their line; day labels
      are centred in their day. */
  function LabelX(mode: string, x: int, dayWidth: int): real {
    if mode == "month" || mode == "week" then (x + 6) as real else x as real + dayWidth as real / 2.0
  }

  /** The tick of day `d`. */
  function TickAt(mode: string, dayWidth: int): nat -> Tick {
    (d: nat) => Tick(d, d * dayWidth, LabelX(mode, d * dayWidth, dayWidth))
  }

  /** The ticks of the header: one per boundary among the days and the two
      guard days. */
  function TicksOf(totalDays: int, min: Day, mode: string, dayWidth: int): seq<Tick>
  {
    Place(BoundaryDays(totalDays + GuardDays, min, mode), TickAt(mode, dayWidth))
  }

  /** The tick loop of `renderHeader`. */
  method DrawTicks(totalDays: int, min: Day, mode: string, dayWidth: int) returns (ticks: seq<Tick>)
    ensures ticks == TicksOf(totalDays, min, mode, dayWidth)
  {
    ticks := DayLoop(totalDays + GuardDays, min, Boundary(mode), TickAt(mode, dayWidth));
  }

  /** The header's ticks line up with the grid: the grid's lines are the
      first ticks, at the same days and the same x. */
  lemma TicksMatchGrid(totalDays: int, min: Day, mode: string, dayWidth: int)
    ensures var grid, ticks := Place(BoundaryDays(totalDays, min, mode), LineX(dayWidth)), TicksOf(totalDays, min, mode, dayWidth);
      |grid| <= |ticks| && forall i :: 0 <= i < |grid| ==> ticks[i].x == grid[i] && ticks[i].day == BoundaryDays(totalDays, min, mode)[i]
  {
    var short, long := BoundaryDays(totalDays, min, mode), BoundaryDays(totalDays + GuardDays, min, mode);
    DaysWherePrefix(totalDays, totalDays + GuardDays, min, Boundary(mode));
    PlaceAt(short, LineX(dayWidth));
    PlaceAt(long, TickAt(mode, dayWidth));
    forall i | 0 <= i < |short|
      ensures short[i] == long[i]
    {
    }
  }

  /** Some tick is at day `d`. */
  predicate HasTick(ticks: seq<Tick>, d: nat) {
    exists i :: 0 <= i < |ticks| && ticks[i].day == d
  }

  /** The header's ticks are exactly the boundaries among the days and the
      guard days, left to right. */
  lemma TicksSpec(totalDays: int, min: Day, mode: string, dayWidth: int)
    ensures var ticks := TicksOf(totalDays, min, mode, dayWidth);
      && (forall d: nat :: HasTick(ticks, d) <==> d < totalDays + GuardDays && Boundary(mode)(min + d))
      && (forall i, j :: 0 <= i < j < |ticks| ==> ticks[i].day < ticks[j].day)
  {
    var ds := BoundaryDays(totalDays + GuardDays, min, mode);
    DaysWhereSpec(totalDays + GuardDays, min, Boundary(mode));
    var ticks := TicksOf(totalDays, min, mode, dayWidth);
    PlaceAt(ds, TickAt(mode, dayWidth));
    forall d: nat
      ensures HasTick(ticks, d) <==> d in ds
    {
      if d in ds {
        var i :| 0 <= i < |ds| && ds[i] == d;
        assert ticks[i].day == d;
      }
    }
  }

  // -----------------------------------------------------------------------
  // Label text

  /** The text `renderHeader` writes on a tick: `M月` in month mode, `M/D`
      in week mode and the day of the month otherwise. */
  function HeaderText(d: Day, mode: string): string {
    var c := ToCivil(d);
    if mode == "month" then NatToString(c.month) + "月"
    else if mode == "week" then NatToString(c.month) + "/" + NatToString(c.day)
    else NatToString(c.day)
  }

  /** `__tickLabel` in app.js: the same text for the three zoom modes and
      the empty string for any other. */
  function TickLabel(d: Day, mode: string): (s: string)
    ensures mode in {"day", "week", "month"} ==> s == HeaderText(d, mode)
    ensures mode !in {"day", "week", "month"} ==> s == ""
    ensures mode == "week" ==> s == FmtMD(d)
  {
    var c := ToCivil(d);
    if mode == "day" then NatToString(c.day)
    else if mode == "week" then NatToString(c.month) + "/" + NatToString(c.day)
    else if mode == "month" then NatToString(c.month) + "月"
    else ""
  }

  // -----------------------------------------------------------------------
  // Month labels

  /** A month label: the days it spans, from `start`, and so its text and
      its centre. */
  datatype MonthSeg = MonthSeg(start: nat, span: nat)

  /** `YYYY年 M月` of the segment's first day. */
  function SegText(s: MonthSeg, min: Day): string {
    var c := ToCivil(min + s.start);
    IntToString(c.year) + "年 " + NatToString(c.month) + "月"
  }

  /** The centre of the segment. */
  function SegLabelX(s: MonthSeg, dayWidth: int): real {
    (s.start * dayWidth) as real + (s.span * dayWidth) as real / 2.0
  }

  /** The days of the chart that are the first of their month. */
  function FirstOf(min: Day): nat -> bool { d => ToCivil(min + d).day == 1 }

  /** `d1.getUTCDate() === 1` for day `d` of the chart. */
  method IsFirst(min: Day, d: nat) returns (first: bool)
    ensures first == FirstOf(min)(d)
  {
    first := ToCivil(min + d).day == 1;
  }

  /** Where the month loop closes a segment. The loop as written closes one
      at every first of a month, the chart's first day included; with
      `skipStart` the first day never closes one. */
  predicate Closes(d: nat, end: int, first: nat -> bool, skipStart: bool) {
    d == end || ((!skipStart || d > 0) && first(d))
  }

  /** Where the next segment starts: the end of the last one, or day 0. */
  function SegEnd(segs: seq<MonthSeg>): nat {
    if segs == [] then 0 else Last(segs).start + Last(segs).span
  }

  /** The segments closed over the days `[0, k)`. */
  function SegsUpTo(k: nat, end: int, first: nat -> bool, skipStart: bool): (segs: seq<MonthSeg>)
    ensures SegEnd(segs) <= if k == 0 then 0 else k - 1
  {
    if k == 0 then []
    else
      var segs := SegsUpTo(k - 1, end, first, skipStart);
      if Closes(k - 1, end, first, skipStart) then segs + [MonthSeg(SegEnd(segs), k - 1 - SegEnd(segs))] else segs
  }

  /** The month labels of `renderHeader` as written: none in month mode,
      otherwise the segments of the days and the two guard days. */
  function MonthSegsOf(totalDays: int, min: Day, mode: string): seq<MonthSeg> {
    var n := totalDays + GuardDays;
    if mode == "month" || n < 0 then [] else SegsUpTo(n + 1, n, FirstOf(min), false)
  }

  /** The month loop of `renderHeader`. */
  method DrawMonthLabels(totalDays: int, min: Day, mode: string) returns (segs: seq<MonthSeg>)
    ensures segs == MonthSegsOf(totalDays, min, mode)
  {
    segs := [];
    if mode == "month" {
      return;
    }
    var n := totalDays + GuardDays;
    var start := 0;
    var d := 0;
    while d <= n
      invariant 0 <= d && (d <= n + 1 || d == 0)
      invariant segs == SegsUpTo(d, n, FirstOf(min), false)
      invariant start == SegEnd(segs) && start <= d
    {
      var first := IsFirst(min, d);
      var monthChanged := d == n || first;
      if monthChanged {
        var span := d - start;
        segs := segs + [MonthSeg(start, span)];
        start := d;
      }
      d := d + 1;
    }
  }

  /** The month labels the loop evidently means: the chart's first day
      opens the first segment instead of closing an empty one. */
  function MonthSegsFixed(totalDays: int, min: Day, mode: string): seq<MonthSeg> {
    var n := totalDays + GuardDays;
    if mode == "month" || n < 0 then [] else SegsUpTo(n + 1, n, FirstOf(min), true)
  }

  /** The last segment closed on a day that closes. */
  lemma {:induction false} SegsLastCloses(k: nat, end: int, first: nat -> bool, skipStart: bool)
    ensures SegsUpTo(k, end, first, skipStart) != [] ==> Closes(SegEnd(SegsUpTo(k, end, first, skipStart)), end, first, skipStart)
  {
    if k > 0 {
      SegsLastCloses(k - 1, end, first, skipStart);
    }
  }

  /** The segments tile the days `[0, SegEnd)` left to right. */
  lemma {:induction false} SegsContiguous(k: nat, end: int, first: nat -> bool, skipStart: bool)
    ensures SegsUpTo(k, end, first, skipStart) != [] ==> SegsUpTo(k, end, first, skipStart)[0].start == 0
    ensures forall i :: 0 < i < |SegsUpTo(k, end, first, skipStart)| ==>
      SegsUpTo(k, end, first, skipStart)[i].start == SegsUpTo(k, end, first, skipStart)[i - 1].start + SegsUpTo(k, end, first, skipStart)[i - 1].span
  {
    if k > 0 {
      SegsContiguous(k - 1, end, first, skipStart);
      var segs := SegsUpTo(k - 1, end, first, skipStart);
      var all := SegsUpTo(k, end, first, skipStart);
      if Closes(k - 1, end, first, skipStart) {
        assert all == segs + [MonthSeg(SegEnd(segs), k - 1 - SegEnd(segs))];
        forall i | 0 < i < |all|
          ensures all[i].start == all[i - 1].start + all[i - 1].span
        {
          if i < |segs| {
            assert all[i] == segs[i] && all[i - 1] == segs[i - 1];
          } else {
            assert all[i - 1] == Last(segs);
          }
        }
        if segs != [] {
          assert all[0] == segs[0];
        }
      }
    }
  }

  /** Every segment after the first starts on a first of a month. */
  lemma {:induction false} SegsStartOnFirst(k: nat, end: int, first: nat -> bool, skipStart: bool)
    requires k <= end + 1
    ensures forall i :: 0 < i < |SegsUpTo(k, end, first, skipStart)| ==> first(SegsUpTo(k, end, first, skipStart)[i].start)
  {
    if k > 0 {
      SegsStartOnFirst(k - 1, end, first, skipStart);
      var segs := SegsUpTo(k - 1, end, first, skipStart);
      var all := SegsUpTo(k, end, first, skipStart);
      if Closes(k - 1, end, first, skipStart) {
        assert all == segs + [MonthSeg(SegEnd(segs), k - 1 - SegEnd(segs))];
        if segs != [] {
          SegsLastCloses(k - 1, end, first, skipStart);
        }
        forall i | 0 < i < |all|
          ensures first(all[i].start)
        {
          if i < |segs| {
            assert all[i] == segs[i];
          }
        }
      }
    }
  }

  /** No first of a month falls strictly inside a segment. */
  lemma {:induction false} SegsNoFirstInside(k: nat, end: int, first: nat -> bool, skipStart: bool)
    ensures forall i, d: nat ::
      (0 <= i < |SegsUpTo(k, end, first, skipStart)|
       && SegsUpTo(k, end, first, skipStart)[i].start < d < SegsUpTo(k, end, first, skipStart)[i].start + SegsUpTo(k, end, first, skipStart)[i].span)
      ==> !first(d)
  {
    if k > 0 {
      SegsNoFirstInside(k - 1, end, first, skipStart);
      var segs := SegsUpTo(k - 1, end, first, skipStart);
      var all := SegsUpTo(k, end, first, skipStart);
      if Closes(k - 1, end, first, skipStart) {
        SegsNoFirstAfter(k - 1, end, first, skipStart);
        assert all == segs + [MonthSeg(SegEnd(segs), k - 1 - SegEnd(segs))];
        forall i, d: nat | 0 <= i < |all| && all[i].start < d < all[i].start + all[i].span
          ensures !first(d)
        {
          if i < |segs| {
            assert all[i] == segs[i];
          }
        }
      }
    }
  }

  /** No first of a month falls after the last segment, up to day `k`. */
  lemma {:induction false} SegsNoFirstAfter(k: nat, end: int, first: nat -> bool, skipStart: bool)
    ensures forall d: nat :: SegEnd(SegsUpTo(k, end, first, skipStart)) < d < k ==> !first(d)
  {
    if k > 0 {
      SegsNoFirstAfter(k - 1, end, first, skipStart);
    }
  }

  /** Closing more days only appends segments. */
  lemma {:induction false} SegsPrefix(k: nat, k': nat, end: int, first: nat -> bool, skipStart: bool)
    requires k <= k'
    ensures |SegsUpTo(k, end, first, skipStart)| <= |SegsUpTo(k', end, first, skipStart)|
    ensures SegsUpTo(k, end, first, skipStart) == SegsUpTo(k', end, first, skipStart)[..|SegsUpTo(k, end, first, skipStart)|]
  {
    if k < k' {
      SegsPrefix(k, k' - 1, end, first, skipStart);
      var segs := SegsUpTo(k' - 1, end, first, skipStart);
      var n := |SegsUpTo(k, end, first, skipStart)|;
      if Closes(k' - 1, end, first, skipStart) {
        assert (segs + [MonthSeg(SegEnd(segs), k' - 1 - SegEnd(segs))])[..n] == segs[..n];
      }
    }
  }

  /** Once the loop has passed `end`, the segments reach exactly to `end`. */
  lemma SegsReachEnd(end: nat, first: nat -> bool, skipStart: bool)
    ensures SegsUpTo(end + 1, end, first, skipStart) != []
    ensures SegEnd(SegsUpTo(end + 1, end, first, skipStart)) == end
  {
    var segs := SegsUpTo(end, end, first, skipStart);
    assert Closes(end, end, first, skipStart);
    assert SegsUpTo(end + 1, end, first, skipStart) == segs + [MonthSeg(SegEnd(segs), end - SegEnd(segs))];
  }

  /** With the first day skipped, no segment is empty. */
  lemma {:induction false} FixedSegsPositive(k: nat, end: int, first: nat -> bool)
    requires end > 0
    ensures forall i :: 0 <= i < |SegsUpTo(k, end, first, true)| ==> SegsUpTo(k, end, first, true)[i].span > 0
  {
    if k > 0 {
      FixedSegsPositive(k - 1, end, first);
      var segs := SegsUpTo(k - 1, end, first, true);
      var all := SegsUpTo(k, end, first, true);
      if Closes(k - 1, end, first, true) {
        assert all == segs + [MonthSeg(SegEnd(segs), k - 1 - SegEnd(segs))];
        assert k - 1 > SegEnd(segs);
        forall i | 0 <= i < |all|
          ensures all[i].span > 0
        {
          if i < |segs| {
            assert all[i] == segs[i];
          }
        }
      }
    }
  }

  /** The loop as written: when the chart opens on the first of a month, the
      first label spans no day and the next label names the same month
      again from day 0. */
  lemma MonthStartDuplicated(end: nat, first: nat -> bool)
    requires end > 0 && first(0)
    ensures |SegsUpTo(end + 1, end, first, false)| >= 2
    ensures SegsUpTo(end + 1, end, first, false)[0] == MonthSeg(0, 0)
    ensures SegsUpTo(end + 1, end, first, false)[1].start == 0
  {
    SegsPrefix(1, end + 1, end, first, false);
    assert SegsUpTo(1, end, first, false) == [MonthSeg(0, 0)];
    SegsReachEnd(end, first, false);
    SegsContiguous(end + 1, end, first, false);
  }

  /** The month labels as written, for a chart whose first day is the first
      of a month: an empty label at day 0, then the same month again. */
  lemma MonthLabelsDuplicateFirst(totalDays: nat, min: Day, mode: string)
    requires mode != "month" && FirstOf(min)(0)
    ensures |MonthSegsOf(totalDays, min, mode)| >= 2
    ensures MonthSegsOf(totalDays, min, mode)[0] == MonthSeg(0, 0)
    ensures MonthSegsOf(totalDays, min, mode)[1].start == 0
  {
    MonthStartDuplicated(totalDays + GuardDays, FirstOf(min));
  }

  /** The intended month labels tile the days and the guard days: they start
      at day 0, each starts where the previous one ends, the last one ends
      at the end of the guard days, none is empty, every label but the first
      starts on the first of a month and no first of a month falls inside a
      label. */
  lemma MonthSegsFixedSpec(totalDays: nat, min: Day, mode: string)
    requires mode != "month"
    ensures MonthSegsFixed(totalDays, min, mode) != []
    ensures MonthSegsFixed(totalDays, min, mode)[0].start == 0
    ensures forall i :: 0 < i < |MonthSegsFixed(totalDays, min, mode)| ==>
      MonthSegsFixed(totalDays, min, mode)[i].start
        == MonthSegsFixed(totalDays, min, mode)[i - 1].start + MonthSegsFixed(totalDays, min, mode)[i - 1].span
    ensures SegEnd(MonthSegsFixed(totalDays, min, mode)) == totalDays + GuardDays
    ensures forall i :: 0 <= i < |MonthSegsFixed(totalDays, min, mode)| ==> MonthSegsFixed(totalDays, min, mode)[i].span > 0
    ensures forall i :: 0 < i < |MonthSegsFixed(totalDays, min, mode)| ==> FirstOf(min)(MonthSegsFixed(totalDays, min, mode)[i].start)
    ensures forall i, d: nat ::
      (0 <= i < |MonthSegsFixed(totalDays, min, mode)|
       && MonthSegsFixed(totalDays, min, mode)[i].start < d < MonthSegsFixed(totalDays, min, mode)[i].start + MonthSegsFixed(totalDays, min, mode)[i].span)
      ==> !FirstOf(min)(d)
  {
    var n := totalDays + GuardDays;
    SegsReachEnd(n, FirstOf(min), true);
    SegsContiguous(n + 1, n, FirstOf(min), true);
    FixedSegsPositive(n + 1, n, FirstOf(min));
    SegsStartOnFirst(n + 1, n, FirstOf(min), true);
    SegsNoFirstInside(n + 1, n, FirstOf(min), true);
    SegsNoFirstAfter(n + 1, n, FirstOf(min), true);
  }
}
