/** The geometry `render` computes for the row list (js/renderer.js): the
    summary bars of category and viewpoint rows, milestone stars, task bars
    with their date labels and midpoint checks, the grid lines, and the
    targets and path of the today line. Positions are whole pixels; a day
    is `dayWidth` pixels wide and a row `RowH` pixels high. */
module Layout {
  import opened Wrappers
  import opened Seqs
  import opened Sorting
  import opened Dates
  import opened Constants
  import opened Tasks
  import opened RenderHelpers
  import opened Rows

  /** The `--cat-bar-h` fallback: the height of a summary bar. */
  const CatBarH: int := 12

  function Max(a: int, b: int): int { if a < b then b else a }
  function Min(a: int, b: int): int { if a < b then a else b }

  /** A date label: its anchor and the date it shows. */
  datatype DateLabel = DateLabel(x: int, y: int, date: Day)

  /** The text of a date label, `M/D`. */
  function LabelText(l: DateLabel): string { FmtMD(l.date) }

  /** What one row draws. `row` is the row's index. */
  datatype Shape =
    | SummaryBar(row: nat, sub: bool, left: int, width: int, top: int, startLbl: DateLabel, endLbl: DateLabel)
    | SummaryCheck(row: nat, x: int, y: int, date: Day)
    | MilestoneStar(row: nat, x: int, y: int, date: Day, name: string)
    | TaskBar(row: nat, left: int, width: int, top: int, color: string, name: string, startLbl: DateLabel, endLbl: DateLabel)
    | TaskCheck(row: nat, x: int, y: int, date: Day)

  /** A candidate for the today line: an unfinished leaf's row band, the
      height of its bar's centre and its end date. `row` stands for the
      end label the renderer keeps, whose right edge is measured later. */
  datatype ZigTarget = ZigTarget(row: nat, rowTop: int, rowBottom: int, midY: int, endDate: Day)

  /** The days from `min` to `d`, as `Math.floor((d - min) / 86400000)`
      gives them for dates at midnight UTC. */
  function Offset(d: Day, min: Day): int { d - min }

  /** The width of a bar spanning `days` days, at least 6 pixels. */
  function BarWidth(days: int, dayWidth: int): int { Max(6, days * dayWidth - 2) }

  /** The text of a star: `★ M/D中間` for a midpoint check and
      `★ M/D name` for a milestone. */
  function StarText(s: Shape): string
    requires s.SummaryCheck? || s.TaskCheck? || s.MilestoneStar?
  {
    if s.MilestoneStar? then "★ " + FmtMD(s.date) + " " + s.name else "★ " + FmtMD(s.date) + "中間"
  }

  /** The shapes of a category or viewpoint row: nothing for the milestone
      category or an empty row, otherwise a summary bar over the earliest
      start to the latest end with its date labels and, for a viewpoint,
      its earliest midpoint check. */
  function SummaryShapes(r: Row, i: nat, min: Day, dayWidth: int): seq<Shape>
    requires !r.LeafRow?
  {
    var s, e := MinStart(r.items), MaxEnd(r.items);
    if r.cat == Milestone || s.None? || e.None? then []
    else
      var left := Offset(s.value, min) * dayWidth;
      var bw := BarWidth(Offset(e.value, s.value) + 1, dayWidth);
      var top := i * RowH + Max(0, (RowH - CatBarH) / 2) + 2;
      var midY := top + CatBarH / 2;
      var bar := SummaryBar(i, r.SubgroupRow?, left, bw, top,
                            DateLabel(left - 4, midY, s.value), DateLabel(left + bw + 4, midY, e.value));
      var rep := EarliestCheck(r.items);
      if r.SubgroupRow? && rep.Some? then
        [bar, SummaryCheck(i, Offset(rep.value, min) * dayWidth, midY + 9, rep.value)]
      else [bar]
  }

  /** The top of a task bar in row `i`. */
  function BarTop(i: nat): int { i * RowH + (RowH - BarH) / 2 }

  /** A task bar is centred in its row: 14 pixels below the row's top. */
  lemma RowCentre(i: nat)
    ensures BarTop(i) + BarH / 2 == i * RowH + RowH / 2 == i * 28 + 14
  {
  }

  /** The shapes of a leaf row: a star for a milestone; otherwise the
      task bar in its status colour with its date labels and, when the task
      has one, its midpoint check clamped to the bar. */
  function LeafShapes(r: Row, i: nat, min: Day, dayWidth: int): seq<Shape>
    requires r.LeafRow?
  {
    var t := r.item;
    var left := Offset(t.start, min) * dayWidth;
    if r.kind == MilestoneLeaf then [StarShape(t, i, left)]
    else
      var bw := BarWidth(Offset(t.end, t.start) + 1, dayWidth);
      [BarShape(t, i, left, bw)]
      + (if t.check.Some? then [CheckShape(t, i, left, bw, Offset(t.check.value, min) * dayWidth)] else [])
  }

  /** The star of a milestone whose day starts at `left`: 6 pixels into
      the day, on the row's middle. */
  function StarShape(t: Task, i: nat, left: int): Shape
  {
    MilestoneStar(i, left + 6, i * RowH + RowH / 2, t.start, t.name)
  }

  /** The bar of a task at `left`, `bw` wide, with its start and end labels
      on its middle. */
  function BarShape(t: Task, i: nat, left: int, bw: int): Shape
  {
    TaskBar(i, left, bw, BarTop(i), StatusColor(t.status), t.name,
            DateLabel(left, BarTop(i) + BarH / 2, t.start), DateLabel(left + bw, BarTop(i) + BarH / 2, t.end))
  }

  /** The midpoint check of a task whose check day starts at `checkX`,
      moved onto the bar when it falls outside it, 15 pixels below the
      bar's middle. */
  function CheckShape(t: Task, i: nat, left: int, bw: int, checkX: int): Shape
    requires t.check.Some?
  {
    TaskCheck(i, Max(left, Min(left + bw, checkX)), BarTop(i) + BarH / 2 + 15, t.check.value)
  }

  function RowShapes(r: Row, i: nat, min: Day, dayWidth: int): seq<Shape>
  {
    if r.LeafRow? then LeafShapes(r, i, min, dayWidth) else SummaryShapes(r, i, min, dayWidth)
  }

  /** The today-line candidate of a row: task and sub-task rows whose
      normalised status is not done. */
  function RowZig(r: Row, i: nat): seq<ZigTarget>
  {
    if r.LeafRow? && r.kind != MilestoneLeaf && NormStatus(r.item.status) != Done then [ZigAt(i, r.item.end)]
    else []
  }

  /** The today-line candidate of row `i` for a task ending on `end`: the
      row's band and the centre of its bar. */
  function ZigAt(i: nat, end: Day): ZigTarget
  {
    ZigTarget(i, i * RowH, i * RowH + RowH, BarTop(i) + BarH / 2, end)
  }

  /** The shapes of all rows, row by row. */
  function ShapesOf(rows: seq<Row>, min: Day, dayWidth: int): seq<Shape>
  {
    if rows == [] then []
    else ShapesOf(rows[..|rows| - 1], min, dayWidth) + RowShapes(Last(rows), |rows| - 1, min, dayWidth)
  }

  /** The today-line candidates of all rows, row by row. */
  function ZigsOf(rows: seq<Row>): seq<ZigTarget>
  {
    if rows == [] then []
    else ZigsOf(rows[..|rows| - 1]) + RowZig(Last(rows), |rows| - 1)
  }

  // -----------------------------------------------------------------------
  // The bar loop of `render`

  /** A category or viewpoint row. */
  method DrawSummary(r: Row, rowIndex: nat, min: Day, dayWidth: int) returns (out: seq<Shape>)
    requires !r.LeafRow?
    ensures out == SummaryShapes(r, rowIndex, min, dayWidth)
  {
    out := [];
    if r.cat == Milestone {
      return;
    }
    var minS, maxE := ItemSpan(r.items);
    if minS.Some? && maxE.Some? {
      var offsetDays := Offset(minS.value, min);
      var spanDays := Offset(maxE.value, minS.value) + 1;
      var left := offsetDays * dayWidth;
      var bw := Max(6, spanDays * dayWidth - 2);
      var top := rowIndex * RowH + Max(0, (RowH - CatBarH) / 2) + 2;
      var midY := top + CatBarH / 2;
      out := [SummaryBar(rowIndex, r.SubgroupRow?, left, bw, top,
                         DateLabel(left - 4, midY, minS.value), DateLabel(left + bw + 4, midY, maxE.value))];
      if r.SubgroupRow? {
        var repCheck := FirstCheck(r.items);
        if repCheck.Some? {
          var checkX := Offset(repCheck.value, min) * dayWidth;
          out := out + [SummaryCheck(rowIndex, checkX + 0, midY + 9, repCheck.value)];
        }
      }
    }
  }

  /** A milestone, task or sub-task row, and its today-line candidate. */
  method DrawLeaf(r: Row, rowIndex: nat, min: Day, dayWidth: int) returns (out: seq<Shape>, zig: seq<ZigTarget>)
    requires r.LeafRow?
    ensures out == LeafShapes(r, rowIndex, min, dayWidth)
    ensures zig == RowZig(r, rowIndex)
  {
    var t := r.item;
    zig := [];
    if r.kind == MilestoneLeaf {
      var offsetDays := Offset(t.start, min);
      var left := offsetDays * dayWidth;
      LeafStarAt(r, rowIndex, min, dayWidth, left);
      out := [StarShape(t, rowIndex, left)];
      return;
    }
    out := DrawTask(r, rowIndex, min, dayWidth);
    zig := TaskZig(r, rowIndex);
  }

  /** The today-line candidate of a task or sub-task row: its row band
      and bar centre, unless the task is done. */
  method TaskZig(r: Row, rowIndex: nat) returns (zig: seq<ZigTarget>)
    requires r.LeafRow? && r.kind != MilestoneLeaf
    ensures zig == RowZig(r, rowIndex)
  {
    zig := [];
    var st := NormStatus(r.item.status);
    if st != Done {
      var z := BandTarget(rowIndex, r.item.end);
      zig := [z];
    }
  }

  /** The row band and bar centre of a today-line candidate, as `render`
      computes them. */
  method BandTarget(rowIndex: nat, end: Day) returns (z: ZigTarget)
    ensures z == ZigAt(rowIndex, end)
  {
    var barTop := rowIndex * RowH + (RowH - BarH) / 2;
    z := ZigTarget(rowIndex, rowIndex * RowH, rowIndex * RowH + RowH, barTop + BarH / 2, end);
  }

  /** The bar of a task or sub-task row and its midpoint check: the
      geometry as `render` computes it, the shapes built from it. */
  method DrawTask(r: Row, rowIndex: nat, min: Day, dayWidth: int) returns (out: seq<Shape>)
    requires r.LeafRow? && r.kind != MilestoneLeaf
    ensures out == LeafShapes(r, rowIndex, min, dayWidth)
  {
    var t := r.item;
    var offsetDays := Offset(t.start, min);
    var spanDays := Offset(t.end, t.start) + 1;
    var left := offsetDays * dayWidth;
    var bw := Max(6, spanDays * dayWidth - 2);
    LeafTaskAt(r, rowIndex, min, dayWidth, left, bw);
    out := [BarShape(t, rowIndex, left, bw)];
    if t.check.Some? {
      var checkX := Offset(t.check.value, min) * dayWidth;
      out := out + [CheckShape(t, rowIndex, left, bw, checkX)];
    }
  }

  /** A milestone's shapes, given where its day starts. */
  lemma LeafStarAt(r: Row, i: nat, min: Day, dayWidth: int, left: int)
    requires r.LeafRow? && r.kind == MilestoneLeaf
    requires left == Offset(r.item.start, min) * dayWidth
    ensures LeafShapes(r, i, min, dayWidth) == [StarShape(r.item, i, left)]
  {
  }

  /** A task's shapes, given where its bar starts and how wide it is. */
  lemma LeafTaskAt(r: Row, i: nat, min: Day, dayWidth: int, left: int, bw: int)
    requires r.LeafRow? && r.kind != MilestoneLeaf
    requires left == Offset(r.item.start, min) * dayWidth
    requires bw == BarWidth(Offset(r.item.end, r.item.start) + 1, dayWidth)
    ensures LeafShapes(r, i, min, dayWidth) == [BarShape(r.item, i, left, bw)]
      + (if r.item.check.Some? then [CheckShape(r.item, i, left, bw, Offset(r.item.check.value, min) * dayWidth)] else [])
  {
  }

  lemma ShapesStep(rows: seq<Row>, i: nat, min: Day, dayWidth: int)
    requires i < |rows|
    ensures ShapesOf(rows[..i + 1], min, dayWidth) == ShapesOf(rows[..i], min, dayWidth) + RowShapes(rows[i], i, min, dayWidth)
    ensures ZigsOf(rows[..i + 1]) == ZigsOf(rows[..i]) + RowZig(rows[i], i)
  {
    assert rows[..i + 1][..i] == rows[..i];
  }

  /** `for (const r of rows) { ...; rowIndex++ }`: the shapes and the
      today-line candidates of every row. */
  method DrawRows(rows: seq<Row>, min: Day, dayWidth: int) returns (shapes: seq<Shape>, zigs: seq<ZigTarget>)
    ensures shapes == ShapesOf(rows, min, dayWidth)
    ensures zigs == ZigsOf(rows)
  {
    shapes, zigs := [], [];
    var rowIndex := 0;
    while rowIndex < |rows|
      invariant 0 <= rowIndex <= |rows|
      invariant shapes == ShapesOf(rows[..rowIndex], min, dayWidth)
      invariant zigs == ZigsOf(rows[..rowIndex])
    {
      var r := rows[rowIndex];
      ShapesStep(rows, rowIndex, min, dayWidth);
      if r.LeafRow? {
        var out, zig := DrawLeaf(r, rowIndex, min, dayWidth);
        shapes, zigs := shapes + out, zigs + zig;
      } else {
        var out := DrawSummary(r, rowIndex, min, dayWidth);
        shapes := shapes + out;
        assert RowZig(r, rowIndex) == [];
      }
      rowIndex := rowIndex + 1;
    }
    assert rows[..rowIndex] == rows;
  }

  // -----------------------------------------------------------------------
  // What the geometry promises

  /** A shape is drawn for the kind of row it sits in: summary bars for
      category and viewpoint rows outside the milestone category, checks
      for viewpoints and leaves that have one, stars for milestones and
      task bars for task and sub-task rows. */
  predicate FitsRow(s: Shape, r: Row) {
    match s
    case SummaryBar(_, sub, _, _, _, _, _) => !r.LeafRow? && r.cat != Milestone && sub == r.SubgroupRow? && r.items != []
    case SummaryCheck(_, _, _, d) => r.SubgroupRow? && r.cat != Milestone && EarliestCheck(r.items) == Some(d)
    case MilestoneStar(_, _, _, d, name) => r.LeafRow? && r.kind == MilestoneLeaf && d == r.item.start && name == r.item.name
    case TaskBar(_, _, _, _, _, _, _, _) => r.LeafRow? && r.kind != MilestoneLeaf
    case TaskCheck(_, _, _, d) => r.LeafRow? && r.kind != MilestoneLeaf && r.item.check == Some(d)
  }

  /** Bars lie inside their row's band. */
  predicate InBand(s: Shape) {
    (s.SummaryBar? ==> s.row * RowH < s.top && s.top + CatBarH < (s.row + 1) * RowH)
    && (s.TaskBar? ==> s.row * RowH < s.top && s.top + BarH < (s.row + 1) * RowH)
  }

  lemma RowShapesPlaced(r: Row, i: nat, min: Day, dayWidth: int)
    ensures forall s :: s in RowShapes(r, i, min, dayWidth) ==> s.row == i && FitsRow(s, r) && InBand(s)
  {
    if r.LeafRow? {
      LeafShapesPlaced(r, i, min, dayWidth);
    } else {
      SummaryShapesPlaced(r, i, min, dayWidth);
    }
  }

  lemma LeafShapesPlaced(r: Row, i: nat, min: Day, dayWidth: int)
    requires r.LeafRow?
    ensures forall s :: s in LeafShapes(r, i, min, dayWidth) ==> s.row == i && FitsRow(s, r) && InBand(s)
  {
    if r.kind == MilestoneLeaf {
      LeafStarAt(r, i, min, dayWidth, Offset(r.item.start, min) * dayWidth);
    } else {
      LeafTaskPlaced(r, i, min, dayWidth);
    }
  }

  lemma LeafTaskPlaced(r: Row, i: nat, min: Day, dayWidth: int)
    requires r.LeafRow? && r.kind != MilestoneLeaf
    ensures forall s :: s in LeafShapes(r, i, min, dayWidth) ==> s.row == i && FitsRow(s, r) && InBand(s)
  {
    var sh := LeafShapes(r, i, min, dayWidth);
    LeafBarPlaced(r, i, min, dayWidth);
    if r.item.check.Some? {
      LeafCheckPlaced(r, i, min, dayWidth);
    }
    EachPlaced(sh, r, i);
  }

  /** One or two shapes, each placed in row `i` of `r`. */
  lemma EachPlaced(sh: seq<Shape>, r: Row, i: nat)
    requires |sh| == 1 || |sh| == 2
    requires sh[0].row == i && FitsRow(sh[0], r) && InBand(sh[0])
    requires |sh| == 2 ==> sh[1].row == i && FitsRow(sh[1], r) && InBand(sh[1])
    ensures forall s :: s in sh ==> s.row == i && FitsRow(s, r) && InBand(s)
  {
    forall s | s in sh
      ensures s.row == i && FitsRow(s, r) && InBand(s)
    {
      var k :| 0 <= k < |sh| && sh[k] == s;
    }
  }

  lemma LeafBarPlaced(r: Row, i: nat, min: Day, dayWidth: int)
    requires r.LeafRow? && r.kind != MilestoneLeaf
    ensures var sh := LeafShapes(r, i, min, dayWidth);
      && |sh| == (if r.item.check.Some? then 2 else 1)
      && sh[0].row == i && FitsRow(sh[0], r) && InBand(sh[0])
  {
    LeafBarFields(r, i, min, dayWidth);
    BarInBand(i);
  }

  lemma LeafCheckPlaced(r: Row, i: nat, min: Day, dayWidth: int)
    requires r.LeafRow? && r.kind != MilestoneLeaf && r.item.check.Some?
    ensures var sh := LeafShapes(r, i, min, dayWidth);
      |sh| == 2 && sh[1].row == i && FitsRow(sh[1], r) && InBand(sh[1])
  {
    LeafCheckFields(r, i, min, dayWidth);
  }

  /** A task bar lies strictly inside its row's band. */
  lemma BarInBand(i: nat)
    ensures i * RowH < BarTop(i) && BarTop(i) + BarH < (i + 1) * RowH
  {
  }

  lemma SummaryShapesPlaced(r: Row, i: nat, min: Day, dayWidth: int)
    requires !r.LeafRow?
    ensures forall s :: s in SummaryShapes(r, i, min, dayWidth) ==> s.row == i && FitsRow(s, r) && InBand(s)
  {
  }

  /** Every shape belongs to an existing row, fits that row's kind and
      stays inside its band. */
  lemma {:induction false} ShapesPlaced(rows: seq<Row>, min: Day, dayWidth: int)
    ensures forall s :: s in ShapesOf(rows, min, dayWidth) ==> s.row < |rows| && FitsRow(s, rows[s.row]) && InBand(s)
  {
    if rows != [] {
      var f := rows[..|rows| - 1];
      ShapesPlaced(f, min, dayWidth);
      RowShapesPlaced(Last(rows), |rows| - 1, min, dayWidth);
      forall s | s in ShapesOf(f, min, dayWidth)
        ensures rows[s.row] == f[s.row]
      {
      }
    }
  }

  /** Row `i`'s shapes come from row `i`: the shapes of the rows before it
      are followed by its own. */
  lemma {:induction false} ShapesPrefix(rows: seq<Row>, i: nat, min: Day, dayWidth: int)
    requires i < |rows|
    ensures ShapesOf(rows[..i], min, dayWidth) + RowShapes(rows[i], i, min, dayWidth) <= ShapesOf(rows, min, dayWidth)
  {
    if i + 1 < |rows| {
      var f := rows[..|rows| - 1];
      ShapesPrefix(f, i, min, dayWidth);
      assert f[..i] == rows[..i] && f[i] == rows[i];
    } else {
      assert rows[..i + 1] == rows;
      ShapesStep(rows, i, min, dayWidth);
    }
  }

  /** Every task and sub-task row draws its bar. */
  lemma EveryLeafDrawn(rows: seq<Row>, i: nat, min: Day, dayWidth: int)
    requires i < |rows| && rows[i].LeafRow? && rows[i].kind != MilestoneLeaf
    ensures LeafShapes(rows[i], i, min, dayWidth)[0] in ShapesOf(rows, min, dayWidth)
    ensures LeafShapes(rows[i], i, min, dayWidth)[0].TaskBar?
  {
    ShapesPrefix(rows, i, min, dayWidth);
    var pre := ShapesOf(rows[..i], min, dayWidth);
    assert (pre + RowShapes(rows[i], i, min, dayWidth))[|pre|] == LeafShapes(rows[i], i, min, dayWidth)[0];
  }

  /** A task bar starts at the left edge of its start day and is as wide
      as its days (see `BarEnd` for where it ends); its date labels sit at
      its two ends, at the bar's vertical centre, and a second shape follows
      it exactly when the task has a midpoint check. */
  lemma TaskBarGeometry(r: Row, i: nat, min: Day, dayWidth: int)
    requires r.LeafRow? && r.kind != MilestoneLeaf
    ensures var b := LeafShapes(r, i, min, dayWidth)[0];
      && b.TaskBar?
      && b.left == Offset(r.item.start, min) * dayWidth
      && b.width == BarWidth(Offset(r.item.end, r.item.start) + 1, dayWidth)
      && b.startLbl == DateLabel(b.left, b.top + BarH / 2, r.item.start)
      && b.endLbl == DateLabel(b.left + b.width, b.top + BarH / 2, r.item.end)
    ensures |LeafShapes(r, i, min, dayWidth)| == if r.item.check.Some? then 2 else 1
  {
    LeafBarFields(r, i, min, dayWidth);
  }

  /** The midpoint check of a task is kept on its bar, and sits exactly at
      the check day when that day is on the bar. */
  lemma TaskCheckClamped(r: Row, i: nat, min: Day, dayWidth: int)
    requires r.LeafRow? && r.kind != MilestoneLeaf && r.item.check.Some?
    ensures var sh := LeafShapes(r, i, min, dayWidth);
      var checkX := Offset(r.item.check.value, min) * dayWidth;
      && |sh| == 2
      && sh[1].TaskCheck?
      && sh[0].left <= sh[1].x <= sh[0].left + sh[0].width
      && (sh[0].left <= checkX <= sh[0].left + sh[0].width ==> sh[1].x == checkX)
  {
    var t := r.item;
    LeafBarFields(r, i, min, dayWidth);
    LeafCheckFields(r, i, min, dayWidth);
    BarEnd(t.start, t.end, min, dayWidth);
    ClampOnBar(Offset(t.start, min) * dayWidth, BarWidth(Offset(t.end, t.start) + 1, dayWidth), Offset(t.check.value, min) * dayWidth);
  }

  /** The bar of a task or sub-task row, field by field. */
  lemma LeafBarFields(r: Row, i: nat, min: Day, dayWidth: int)
    requires r.LeafRow? && r.kind != MilestoneLeaf
    ensures var sh := LeafShapes(r, i, min, dayWidth);
      var left := Offset(r.item.start, min) * dayWidth;
      var bw := BarWidth(Offset(r.item.end, r.item.start) + 1, dayWidth);
      && |sh| == (if r.item.check.Some? then 2 else 1)
      && sh[0].TaskBar? && sh[0].row == i && sh[0].left == left && sh[0].width == bw && sh[0].top == BarTop(i)
      && sh[0].color == StatusColor(r.item.status) && sh[0].name == r.item.name
      && sh[0].startLbl == DateLabel(left, BarTop(i) + BarH / 2, r.item.start)
      && sh[0].endLbl == DateLabel(left + bw, BarTop(i) + BarH / 2, r.item.end)
  {
    var t := r.item;
    var left := Offset(t.start, min) * dayWidth;
    var bw := BarWidth(Offset(t.end, t.start) + 1, dayWidth);
    LeafTaskAt(r, i, min, dayWidth, left, bw);
    BarShapeFields(t, i, left, bw);
  }

  /** The midpoint check of a task or sub-task row, field by field. */
  lemma LeafCheckFields(r: Row, i: nat, min: Day, dayWidth: int)
    requires r.LeafRow? && r.kind != MilestoneLeaf && r.item.check.Some?
    ensures var sh := LeafShapes(r, i, min, dayWidth);
      var left := Offset(r.item.start, min) * dayWidth;
      var bw := BarWidth(Offset(r.item.end, r.item.start) + 1, dayWidth);
      && |sh| == 2
      && sh[1].TaskCheck? && sh[1].row == i && sh[1].date == r.item.check.value
      && sh[1].x == Max(left, Min(left + bw, Offset(r.item.check.value, min) * dayWidth))
      && sh[1].y == BarTop(i) + BarH / 2 + 15
  {
    var t := r.item;
    var left := Offset(t.start, min) * dayWidth;
    var bw := BarWidth(Offset(t.end, t.start) + 1, dayWidth);
    var checkX := Offset(t.check.value, min) * dayWidth;
    LeafTaskAt(r, i, min, dayWidth, left, bw);
    CheckShapeFields(t, i, left, bw, checkX);
  }

  lemma BarShapeFields(t: Task, i: nat, left: int, bw: int)
    ensures var b := BarShape(t, i, left, bw);
      && b.TaskBar? && b.row == i && b.left == left && b.width == bw && b.top == BarTop(i)
      && b.color == StatusColor(t.status) && b.name == t.name
      && b.startLbl == DateLabel(left, BarTop(i) + BarH / 2, t.start)
      && b.endLbl == DateLabel(left + bw, BarTop(i) + BarH / 2, t.end)
  {
  }

  lemma CheckShapeFields(t: Task, i: nat, left: int, bw: int, checkX: int)
    requires t.check.Some?
    ensures var c := CheckShape(t, i, left, bw, checkX);
      && c.TaskCheck? && c.row == i && c.date == t.check.value
      && c.x == Max(left, Min(left + bw, checkX)) && c.y == BarTop(i) + BarH / 2 + 15
  {
  }

  /** The bar of a task from `start` to `end` is at least 6 pixels wide,
      and past that minimum its right end is 2 pixels short of the edge of
      its last day. */
  lemma BarEnd(start: Day, end: Day, min: Day, dayWidth: int)
    ensures BarWidth(Offset(end, start) + 1, dayWidth) >= 6
    ensures (Offset(end, start) + 1) * dayWidth >= 8 ==>
      Offset(start, min) * dayWidth + BarWidth(Offset(end, start) + 1, dayWidth) == (Offset(end, min) + 1) * dayWidth - 2
  {
    var o, n := Offset(start, min), Offset(end, start) + 1;
    assert o + n == Offset(end, min) + 1;
    SpanSum(o, n, dayWidth);
  }

  /** Clamping `x` to the bar `[left, left + bw]` keeps it on the bar and
      leaves it alone when it is already there. */
  lemma ClampOnBar(left: int, bw: int, x: int)
    requires bw >= 0
    ensures left <= Max(left, Min(left + bw, x)) <= left + bw
    ensures left <= x <= left + bw ==> Max(left, Min(left + bw, x)) == x
  {
  }

  /** A bar starting `offset` days in and spanning `span` days ends at the
      edge of day `offset + span`. */
  lemma SpanSum(offset: int, span: int, dayWidth: int)
    ensures offset * dayWidth + span * dayWidth == (offset + span) * dayWidth
  {
  }

  /** The summary bar of a category or viewpoint starts no later than any
      of its tasks' bars and ends no earlier than any of them. */
  lemma SummaryCovers(r: Row, i: nat, min: Day, dayWidth: int)
    requires !r.LeafRow? && r.cat != Milestone && r.items != [] && dayWidth >= 0
    ensures var sh := SummaryShapes(r, i, min, dayWidth);
      && sh != [] && sh[0].SummaryBar?
      && forall k :: 0 <= k < |r.items| ==>
        var t := r.items[k];
        && sh[0].left <= (t.start - min) * dayWidth
        && (t.end - min + 1) * dayWidth - 2 <= sh[0].left + sh[0].width
  {
    MinStartSpec(r.items);
    MaxEndSpec(r.items);
    var s, e := MinStart(r.items).value, MaxEnd(r.items).value;
    forall k | 0 <= k < |r.items|
      ensures (s - min) * dayWidth <= (r.items[k].start - min) * dayWidth
      ensures (r.items[k].end - min + 1) * dayWidth - 2 <= (s - min) * dayWidth + (e - s + 1) * dayWidth - 2
    {
      MulMono(s - min, r.items[k].start - min, dayWidth);
      MulMono(r.items[k].end - min + 1, e - min + 1, dayWidth);
      SpanSum(s - min, e - s + 1, dayWidth);
    }
  }

  lemma MulMono(a: int, b: int, c: int)
    requires a <= b && c >= 0
    ensures a * c <= b * c
  {
    assert b * c - a * c == (b - a) * c;
  }

  // -----------------------------------------------------------------------
  // The today line

  /** A candidate is recorded exactly for the unfinished task and sub-task
      rows, one per row, carrying that row's band and end date. */
  lemma {:induction false} ZigsSpec(rows: seq<Row>)
    ensures forall z :: z in ZigsOf(rows) <==> z.row < |rows| && RowZig(rows[z.row], z.row) == [z]
  {
    if rows != [] {
      var f := rows[..|rows| - 1];
      ZigsSpec(f);
      var n := |f|;
      assert ZigsOf(rows) == ZigsOf(f) + RowZig(rows[n], n);
      forall z
        ensures z in ZigsOf(rows) <==> z.row < |rows| && RowZig(rows[z.row], z.row) == [z]
      {
        RowZigRow(rows[n], n, z);
        if z.row < n {
          assert rows[z.row] == f[z.row];
        }
      }
    }
  }

  /** A row's candidate, if any, is the only one and carries its index. */
  lemma RowZigRow(r: Row, i: nat, z: ZigTarget)
    ensures z in RowZig(r, i) <==> RowZig(r, i) == [z]
    ensures z in RowZig(r, i) ==> z.row == i
  {
  }

  /** The candidates come in row order, each row at most once. */
  lemma {:induction false} ZigsInRowOrder(rows: seq<Row>)
    ensures Sorted(ZigsOf(rows), RowLt)
  {
    if rows != [] {
      var f := rows[..|rows| - 1];
      ZigsInRowOrder(f);
      ZigsSpec(f);
      var zs := ZigsOf(f);
      forall i | 0 <= i < |zs|
        ensures zs[i].row < |rows| - 1
      {
        assert zs[i] in zs;
      }
    }
  }

  /** A candidate's band is its row's: `RowH` pixels from the row's top,
      with the bar's centre half-way down. */
  predicate BandOf(z: ZigTarget) {
    z.rowTop == z.row * RowH && z.rowBottom == z.rowTop + RowH && z.midY == z.rowTop + RowH / 2
  }

  predicate TopLe(a: ZigTarget, b: ZigTarget) { a.rowTop <= b.rowTop }
  predicate RowLt(a: ZigTarget, b: ZigTarget) { a.row < b.row }

  /** The candidates whose end date is before today. */
  function Overdue(today: Day): ZigTarget -> bool { (z: ZigTarget) => z.endDate < today }

  /** `__zigTargets.filter(x => x.endDate < today).sort((a, b) => a.rowTop - b.rowTop)`. */
  function Targets(zigs: seq<ZigTarget>, today: Day): seq<ZigTarget> {
    SortBy(Members(zigs, true, Overdue(today)), TopLe)
  }

  /** Every candidate lies in its row's band inside the chart. */
  lemma ZigsInBand(rows: seq<Row>)
    ensures forall z :: z in ZigsOf(rows) ==> BandOf(z) && z.rowBottom <= |rows| * RowH
  {
    ZigsSpec(rows);
    forall z | z in ZigsOf(rows)
      ensures BandOf(z) && z.rowBottom <= |rows| * RowH
    {
      assert RowZig(rows[z.row], z.row) == [z];
    }
  }

  /** The sort of the targets keeps the filter's order, since the
      candidates are already in row order. */
  lemma TargetsFiltered(rows: seq<Row>, today: Day)
    ensures Targets(ZigsOf(rows), today) == Members(ZigsOf(rows), true, Overdue(today))
    ensures Sorted(Targets(ZigsOf(rows), today), RowLt)
  {
    var zs := ZigsOf(rows);
    ZigsInRowOrder(rows);
    ZigsInBand(rows);
    var ms := Members(zs, true, Overdue(today));
    MembersSpec(zs, true, Overdue(today));
    MembersSorted(zs, true, Overdue(today), RowLt);
    forall i, j | 0 <= i < j < |ms|
      ensures TopLe(ms[i], ms[j])
    {
      assert ms[i] in ms && ms[j] in ms;
    }
    SortBySorted(ms, TopLe);
  }

  /** The targets of the today line are exactly the overdue unfinished
      task and sub-task rows, each in its row's band inside the chart. */
  lemma TargetsSpec(rows: seq<Row>, today: Day)
    ensures forall z :: z in Targets(ZigsOf(rows), today) <==>
      z.row < |rows| && RowZig(rows[z.row], z.row) == [z] && z.endDate < today
    ensures forall z :: z in Targets(ZigsOf(rows), today) ==> BandOf(z) && z.rowBottom <= |rows| * RowH
  {
    var zs := ZigsOf(rows);
    TargetsFiltered(rows, today);
    MembersSpec(zs, true, Overdue(today));
    ZigsSpec(rows);
    ZigsInBand(rows);
  }

  /** The x of today's left edge. */
  function TodayX(today: Day, min: Day, dayWidth: int): int { Offset(today, min) * dayWidth }

  /** One command of the today line's path, in whole pixels. */
  datatype PathCmd = MoveTo(x: int, y: int) | LineTo(x: int, y: int) | Quad(cx: int, cy: int, x: int, y: int)

  /** How far the line bends into a target's band before and after it. */
  const Radius: int := 8
  /** The gap left between the line and a target's end label. */
  const TouchGap: int := 1

  /** `Math.round(n / 2)`: a half rounds up. */
  function RoundHalf(n: int): int { (n + 1) / 2 }

  /** How far left the line reaches for a target: just right of its end
      label, never right of today's line less a pixel, never left of 0. */
  function TouchX(todayX: int, labelRightX: int): int { Max(0, Min(todayX - 1, labelRightX + TouchGap)) }

  /** The commands for one target, reached with the line at `cursorY`: a
      drop to the band's top bend when the line is above it, a curve out to
      the label and a curve back to the band's bottom bend. */
  function SegCmds(z: ZigTarget, cursorY: int, todayX: int, contentH: int, labelRightX: int): seq<PathCmd>
  {
    var topY := Max(0, z.rowTop);
    var botY := Min(contentH, z.rowBottom);
    var bend := Min(2 * Radius, botY - topY);
    (if cursorY < topY then [LineTo(todayX, RoundHalf(2 * topY + bend))] else [])
    + [Quad(todayX, z.midY, TouchX(todayX, labelRightX), z.midY), Quad(todayX, z.midY, todayX, RoundHalf(2 * botY - bend))]
  }

  /** Where the line stands after the targets `ts`. */
  function Cursor(ts: seq<ZigTarget>, contentH: int): int {
    if ts == [] then 0 else Min(contentH, Last(ts).rowBottom)
  }

  /** The commands of all targets, in order. `labelRight` gives the
      measured right edge of each row's end label. */
  function PathBody(ts: seq<ZigTarget>, todayX: int, contentH: int, labelRight: nat -> int): seq<PathCmd>
  {
    if ts == [] then []
    else
      var f := ts[..|ts| - 1];
      PathBody(f, todayX, contentH, labelRight) + SegCmds(Last(ts), Cursor(f, contentH), todayX, contentH, labelRight(Last(ts).row))
  }

  /** The whole path: from the top at today's x, through every target, to
      the bottom of the chart. */
  function LightningPath(ts: seq<ZigTarget>, todayX: int, contentH: int, labelRight: nat -> int): seq<PathCmd>
  {
    [MoveTo(todayX, 0)] + PathBody(ts, todayX, contentH, labelRight)
    + (if Cursor(ts, contentH) < contentH then [LineTo(todayX, contentH)] else [])
  }

  lemma PathStep(ts: seq<ZigTarget>, k: nat, todayX: int, contentH: int, labelRight: nat -> int)
    requires k < |ts|
    ensures PathBody(ts[..k + 1], todayX, contentH, labelRight)
      == PathBody(ts[..k], todayX, contentH, labelRight) + SegCmds(ts[k], Cursor(ts[..k], contentH), todayX, contentH, labelRight(ts[k].row))
    ensures Cursor(ts[..k + 1], contentH) == Min(contentH, ts[k].rowBottom)
  {
    assert ts[..k + 1][..k] == ts[..k];
  }

  /** The commands for one target. */
  method DrawBite(seg: ZigTarget, cursorY: int, todayX: int, contentH: int, labelRightX: int) returns (cmds: seq<PathCmd>)
    ensures cmds == SegCmds(seg, cursorY, todayX, contentH, labelRightX)
  {
    var topY := Max(0, seg.rowTop);
    var botY := Min(contentH, seg.rowBottom);
    cmds := [];
    if cursorY < topY {
      cmds := [LineTo(todayX, RoundHalf(2 * topY + Min(2 * Radius, botY - topY)))];
    }
    var touchX := Max(0, Min(todayX - 1, labelRightX + TouchGap));
    var midY := seg.midY;
    cmds := cmds + [Quad(todayX, midY, touchX, midY)];
    cmds := cmds + [Quad(todayX, midY, todayX, RoundHalf(2 * botY - Min(2 * Radius, botY - topY)))];
  }

  /** Step 4 of `render`: the path's commands, target by target. */
  method BuildLightning(targets: seq<ZigTarget>, todayX: int, contentH: int, labelRight: nat -> int) returns (parts: seq<PathCmd>)
    ensures parts == LightningPath(targets, todayX, contentH, labelRight)
  {
    parts := [MoveTo(todayX, 0)];
    var cursorY := 0;
    var k := 0;
    while k < |targets|
      invariant 0 <= k <= |targets|
      invariant parts == [MoveTo(todayX, 0)] + PathBody(targets[..k], todayX, contentH, labelRight)
      invariant cursorY == Cursor(targets[..k], contentH)
    {
      PathStep(targets, k, todayX, contentH, labelRight);
      var cmds := DrawBite(targets[k], cursorY, todayX, contentH, labelRight(targets[k].row));
      AppendAssoc([MoveTo(todayX, 0)], PathBody(targets[..k], todayX, contentH, labelRight), cmds);
      parts := parts + cmds;
      cursorY := Min(contentH, targets[k].rowBottom);
      k := k + 1;
    }
    assert targets[..k] == targets;
    if cursorY < contentH {
      parts := parts + [LineTo(todayX, contentH)];
    }
  }

  /** Every control point stands on today's line, and every point the path
      passes through is on today's line or a bite that stays at or right of
      0 and, when today's line is right of 0, left of it. */
  predicate StaysLeft(c: PathCmd, todayX: int) {
    (c.Quad? ==> c.cx == todayX)
    && (c.x == todayX || (0 <= c.x && (todayX >= 1 ==> c.x < todayX)))
  }

  lemma {:induction false} BodyStaysLeft(ts: seq<ZigTarget>, todayX: int, contentH: int, labelRight: nat -> int)
    ensures forall c :: c in PathBody(ts, todayX, contentH, labelRight) ==> StaysLeft(c, todayX)
  {
    if ts != [] {
      BodyStaysLeft(ts[..|ts| - 1], todayX, contentH, labelRight);
    }
  }

  lemma LightningStaysLeft(ts: seq<ZigTarget>, todayX: int, contentH: int, labelRight: nat -> int)
    ensures forall c :: c in LightningPath(ts, todayX, contentH, labelRight) ==> StaysLeft(c, todayX)
  {
    BodyStaysLeft(ts, todayX, contentH, labelRight);
  }

  /** The path bends out to every target's label at the height of its
      bar's centre. */
  lemma {:induction false} EveryTargetBitten(ts: seq<ZigTarget>, todayX: int, contentH: int, labelRight: nat -> int)
    ensures forall k :: 0 <= k < |ts| ==>
      Quad(todayX, ts[k].midY, TouchX(todayX, labelRight(ts[k].row)), ts[k].midY) in LightningPath(ts, todayX, contentH, labelRight)
  {
    BodyBites(ts, todayX, contentH, labelRight);
  }

  lemma {:induction false} BodyBites(ts: seq<ZigTarget>, todayX: int, contentH: int, labelRight: nat -> int)
    ensures forall k :: 0 <= k < |ts| ==>
      Quad(todayX, ts[k].midY, TouchX(todayX, labelRight(ts[k].row)), ts[k].midY) in PathBody(ts, todayX, contentH, labelRight)
  {
    if ts != [] {
      var f := ts[..|ts| - 1];
      BodyBites(f, todayX, contentH, labelRight);
      forall k | 0 <= k < |f|
        ensures ts[k] == f[k]
      {
      }
    }
  }

  /** The path never climbs: the heights it passes through never decrease. */
  predicate Descends(cmds: seq<PathCmd>) {
    forall i, j :: 0 <= i < j < |cmds| ==> cmds[i].y <= cmds[j].y
  }

  lemma DescendsConcat(a: seq<PathCmd>, b: seq<PathCmd>, m: int)
    requires Descends(a) && Descends(b)
    requires forall c :: c in a ==> c.y <= m
    requires forall c :: c in b ==> m <= c.y
    ensures Descends(a + b)
  {
    forall i, j | 0 <= i < j < |a + b|
      ensures (a + b)[i].y <= (a + b)[j].y
    {
      if i < |a| && |a| <= j {
        assert (a + b)[i] in a && (a + b)[j] in b;
      }
    }
  }

  /** The targets as `render` gathers them: each in its row's band inside
      the chart, in row order. */
  predicate WellPlaced(ts: seq<ZigTarget>, contentH: int) {
    (forall z :: z in ts ==> BandOf(z) && z.rowBottom <= contentH) && Sorted(ts, RowLt)
  }

  /** Inside a band of `RowH` pixels a target's commands go down its top
      bend, its bar's centre and its bottom bend. */
  lemma SegDescends(z: ZigTarget, cursorY: int, todayX: int, contentH: int, labelRightX: int)
    requires BandOf(z) && z.rowBottom <= contentH && cursorY <= z.rowTop
    ensures Descends(SegCmds(z, cursorY, todayX, contentH, labelRightX))
    ensures forall c :: c in SegCmds(z, cursorY, todayX, contentH, labelRightX) ==> z.rowTop <= c.y <= z.rowBottom
  {
  }

  lemma {:induction false} BodyDescends(ts: seq<ZigTarget>, todayX: int, contentH: int, labelRight: nat -> int)
    requires WellPlaced(ts, contentH)
    ensures Descends(PathBody(ts, todayX, contentH, labelRight))
    ensures 0 <= Cursor(ts, contentH)
    ensures forall c :: c in PathBody(ts, todayX, contentH, labelRight) ==> 0 <= c.y <= Cursor(ts, contentH)
  {
    if ts != [] {
      var f, z := ts[..|ts| - 1], Last(ts);
      assert Last(ts) in ts;
      assert WellPlaced(f, contentH);
      BodyDescends(f, todayX, contentH, labelRight);
      if f != [] {
        assert Last(f) == ts[|ts| - 2];
        assert Last(f).row < z.row;
        assert Last(f) in ts;
      }
      SegDescends(z, Cursor(f, contentH), todayX, contentH, labelRight(z.row));
      DescendsConcat(PathBody(f, todayX, contentH, labelRight), SegCmds(z, Cursor(f, contentH), todayX, contentH, labelRight(z.row)), Cursor(f, contentH));
    }
  }

  /** For targets gathered as `render` gathers them, the whole path runs
      from the top of the chart to its bottom without climbing. */
  lemma LightningDescends(ts: seq<ZigTarget>, todayX: int, contentH: int, labelRight: nat -> int)
    requires WellPlaced(ts, contentH)
    ensures Descends(LightningPath(ts, todayX, contentH, labelRight))
    ensures forall c :: c in LightningPath(ts, todayX, contentH, labelRight) ==> 0 <= c.y
  {
    var body := PathBody(ts, todayX, contentH, labelRight);
    var cur := Cursor(ts, contentH);
    BodyDescends(ts, todayX, contentH, labelRight);
    DescendsConcat([MoveTo(todayX, 0)], body, 0);
    var tail: seq<PathCmd> := if cur < contentH then [LineTo(todayX, contentH)] else [];
    DescendsConcat([MoveTo(todayX, 0)] + body, tail, cur);
  }

  /** The targets of the rows' today line are well placed, so its path
      descends. */
  lemma TargetsWellPlaced(rows: seq<Row>, today: Day)
    ensures WellPlaced(Targets(ZigsOf(rows), today), |rows| * RowH)
  {
    TargetsFiltered(rows, today);
    TargetsSpec(rows, today);
  }
}
