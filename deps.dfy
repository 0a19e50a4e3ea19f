/** The dependency arrows of the chart (js/deps.js, `drawDependencies`): a
    map from each task shown on a leaf row to the geometry of its bar, then
    one curve from the right end of a task's bar to the left end of each
    successor's bar, for the successors that are shown too. A task is
    identified by its `id`, as the map identifies it by the task object. */
module Deps {
  import opened Wrappers
  import opened Seqs
  import opened Dates
  import opened Constants
  import opened Tasks
  import opened Rows
  import opened Layout

  /** The `taskGeom` entry of a task: its bar's left edge and width, the
      vertical centre of its row and the row it was taken from. */
  datatype Geom = Geom(task: Task, left: int, bw: int, centerY: int, rowIndex: nat)

  /** The entry of task `t` shown on row `i`. */
  function GeomAt(t: Task, i: nat, min: Day, dayWidth: int): Geom
  {
    Geom(t, Offset(t.start, min) * dayWidth, BarWidth(Offset(t.end, t.start) + 1, dayWidth), i * RowH + RowH / 2, i)
  }

  /** `taskGeom` after the rows `rows`: every leaf row sets the entry of its
      task, a later row overwriting an earlier one. */
  function GeomMap(rows: seq<Row>, min: Day, dayWidth: int): map<nat, Geom>
  {
    if rows == [] then map[]
    else
      var m := GeomMap(rows[..|rows| - 1], min, dayWidth);
      var r := Last(rows);
      if r.LeafRow? then m[r.item.id := GeomAt(r.item, |rows| - 1, min, dayWidth)] else m
  }

  /** The order in which `taskGeom.entries()` visits the tasks: the order in
      which they were first set. */
  function GeomKeys(rows: seq<Row>): seq<nat>
  {
    if rows == [] then []
    else
      var ks := GeomKeys(rows[..|rows| - 1]);
      var r := Last(rows);
      if r.LeafRow? && r.item.id !in ks then ks + [r.item.id] else ks
  }

  /** A dependency curve from task `from` to task `to`: a cubic Bézier
      from `(sx, sy)` to `(ex, ey)` with control points `(c1x, c1y)` and
      `(c2x, c2y)`. */
  datatype Curve = Curve(from: nat, to: nat, sx: int, sy: int, c1x: real, c1y: int, c2x: real, c2y: int, ex: int, ey: int)

  function Abs(n: int): int { if n < 0 then -n else n }

  /** The curve from the bar of `a` to the bar of `b`. */
  function CurveOf(a: Geom, b: Geom): Curve
  {
    var sx, sy, ex, ey := a.left + a.bw, a.centerY, b.left, b.centerY;
    var dx := Max(20, Abs(ex - sx));
    Curve(a.task.id, b.task.id, sx, sy, sx as real + dx as real / 2.0, sy, ex as real - dx as real / 2.0, ey, ex, ey)
  }

  /** The curves from the task of `g` to its successors `succs` that have an
      entry in `m`, in order. */
  function CurvesFrom(g: Geom, succs: seq<nat>, m: map<nat, Geom>): seq<Curve>
  {
    if succs == [] then []
    else
      CurvesFrom(g, succs[..|succs| - 1], m)
      + (if Last(succs) in m then [CurveOf(g, m[Last(succs)])] else [])
  }

  /** The curves of the tasks `keys`, task by task. */
  function CurvesOver(keys: seq<nat>, m: map<nat, Geom>): seq<Curve>
  {
    if keys == [] then []
    else
      var k := Last(keys);
      CurvesOver(keys[..|keys| - 1], m) + (if k in m then CurvesFrom(m[k], m[k].task.successors, m) else [])
  }

  /** The curves drawn for `rows`. */
  function Dependencies(rows: seq<Row>, min: Day, dayWidth: int): seq<Curve>
  {
    CurvesOver(GeomKeys(rows), GeomMap(rows, min, dayWidth))
  }

  /** `drawDependencies(rows, depsSVG)`: nothing without a target element;
      otherwise the target is cleared and receives the arrow-head marker and
      the curves, which are returned here. */
  method DrawDependencies(rows: seq<Row>, min: Day, dayWidth: int, hasTarget: bool) returns (paths: Option<seq<Curve>>)
    ensures paths == if hasTarget then Some(Dependencies(rows, min, dayWidth)) else None
  {
    if !hasTarget {
      return None;
    }
    var geom, keys := GeomLoop(rows, min, dayWidth);
    var out: seq<Curve> := [];
    for j := 0 to |keys|
      invariant out == CurvesOver(keys[..j], geom)
    {
      assert keys[..j + 1][..j] == keys[..j];
      var g := geom[keys[j]];
      var succs := g.task.successors;
      if |succs| == 0 {
        continue;
      }
      var part := CurvesFromLoop(g, succs, geom);
      out := out + part;
    }
    assert keys[..|keys|] == keys;
    paths := Some(out);
  }

  /** The first loop of `drawDependencies`: `taskGeom`, and the order in
      which its entries were first set. */
  method GeomLoop(rows: seq<Row>, min: Day, dayWidth: int) returns (geom: map<nat, Geom>, keys: seq<nat>)
    ensures geom == GeomMap(rows, min, dayWidth)
    ensures keys == GeomKeys(rows)
    ensures forall k :: k in keys <==> k in geom
  {
    geom := map[];
    keys := [];
    for i := 0 to |rows|
      invariant geom == GeomMap(rows[..i], min, dayWidth)
      invariant keys == GeomKeys(rows[..i])
      invariant forall k :: k in keys <==> k in geom
    {
      assert rows[..i + 1][..i] == rows[..i];
      var r := rows[i];
      if r.LeafRow? {
        var t := r.item;
        var offsetDays := t.start - min;
        var spanDays := t.end - t.start + 1;
        var left := offsetDays * dayWidth;
        var bw := Max(6, spanDays * dayWidth - 2);
        var centerY := i * RowH + RowH / 2;
        if t.id !in keys {
          keys := keys + [t.id];
        }
        geom := geom[t.id := Geom(t, left, bw, centerY, i)];
      }
    }
    assert rows[..|rows|] == rows;
  }

  /** The inner loop of `drawDependencies`: the curves from the task of
      `g` to those of its successors that have an entry. */
  method CurvesFromLoop(g: Geom, succs: seq<nat>, geom: map<nat, Geom>) returns (part: seq<Curve>)
    ensures part == CurvesFrom(g, succs, geom)
  {
    part := [];
    for s := 0 to |succs|
      invariant part == CurvesFrom(g, succs[..s], geom)
    {
      assert succs[..s + 1][..s] == succs[..s];
      var to := succs[s];
      if to in geom {
        var g2 := geom[to];
        var sx, sy, ex, ey := g.left + g.bw, g.centerY, g2.left, g2.centerY;
        var dx := if ex - sx < 0 then sx - ex else ex - sx;
        if dx < 20 {
          dx := 20;
        }
        part := part + [Curve(g.task.id, g2.task.id, sx, sy, sx as real + dx as real / 2.0, sy,
                              ex as real - dx as real / 2.0, ey, ex, ey)];
      }
    }
    assert succs[..|succs|] == succs;
  }

  // -----------------------------------------------------------------------
  // The geometry map

  /** A leaf row of `rows` shows task `k`. */
  predicate Shown(rows: seq<Row>, k: nat) {
    exists i :: 0 <= i < |rows| && rows[i].LeafRow? && rows[i].item.id == k
  }

  /** The map holds exactly the tasks of the leaf rows (task, sub-task and
      milestone rows, never a category or viewpoint row), and the entry of a
      task is the one of the last row that shows it. */
  lemma GeomMapSpec(rows: seq<Row>, min: Day, dayWidth: int)
    ensures forall k :: k in GeomMap(rows, min, dayWidth) <==> Shown(rows, k)
    ensures forall k :: k in GeomMap(rows, min, dayWidth) ==>
      && GeomMap(rows, min, dayWidth)[k].rowIndex < |rows|
      && rows[GeomMap(rows, min, dayWidth)[k].rowIndex].LeafRow?
      && rows[GeomMap(rows, min, dayWidth)[k].rowIndex].item.id == k
      && GeomMap(rows, min, dayWidth)[k] == GeomAt(rows[GeomMap(rows, min, dayWidth)[k].rowIndex].item, GeomMap(rows, min, dayWidth)[k].rowIndex, min, dayWidth)
    ensures forall k, j ::
      (k in GeomMap(rows, min, dayWidth) && GeomMap(rows, min, dayWidth)[k].rowIndex < j < |rows| && rows[j].LeafRow?)
      ==> rows[j].item.id != k
  {
    GeomMapKeys(rows, min, dayWidth);
    GeomMapEntries(rows, min, dayWidth);
    GeomMapLastRow(rows, min, dayWidth);
  }

  lemma {:induction false} GeomMapKeys(rows: seq<Row>, min: Day, dayWidth: int)
    ensures forall k :: k in GeomMap(rows, min, dayWidth) <==> Shown(rows, k)
  {
    if rows != [] {
      var f := rows[..|rows| - 1];
      GeomMapKeys(f, min, dayWidth);
      forall k
        ensures k in GeomMap(rows, min, dayWidth) <==> Shown(rows, k)
      {
        if Shown(f, k) {
          var i :| 0 <= i < |f| && f[i].LeafRow? && f[i].item.id == k;
          assert rows[i] == f[i];
        }
        if Shown(rows, k) {
          var i :| 0 <= i < |rows| && rows[i].LeafRow? && rows[i].item.id == k;
          if i < |f| {
            assert f[i] == rows[i];
          }
        }
      }
    }
  }

  lemma {:induction false} GeomMapEntries(rows: seq<Row>, min: Day, dayWidth: int)
    ensures forall k :: k in GeomMap(rows, min, dayWidth) ==>
      && GeomMap(rows, min, dayWidth)[k].rowIndex < |rows|
      && rows[GeomMap(rows, min, dayWidth)[k].rowIndex].LeafRow?
      && rows[GeomMap(rows, min, dayWidth)[k].rowIndex].item.id == k
      && GeomMap(rows, min, dayWidth)[k] == GeomAt(rows[GeomMap(rows, min, dayWidth)[k].rowIndex].item, GeomMap(rows, min, dayWidth)[k].rowIndex, min, dayWidth)
  {
    if rows != [] {
      var f := rows[..|rows| - 1];
      GeomMapEntries(f, min, dayWidth);
      var m, mf := GeomMap(rows, min, dayWidth), GeomMap(f, min, dayWidth);
      forall k | k in m
        ensures m[k].rowIndex < |rows| && rows[m[k].rowIndex].LeafRow? && rows[m[k].rowIndex].item.id == k
        ensures m[k] == GeomAt(rows[m[k].rowIndex].item, m[k].rowIndex, min, dayWidth)
      {
        if Last(rows).LeafRow? && Last(rows).item.id == k {
        } else {
          assert k in mf && m[k] == mf[k];
          assert rows[mf[k].rowIndex] == f[mf[k].rowIndex];
        }
      }
    }
  }

  lemma {:induction false} GeomMapLastRow(rows: seq<Row>, min: Day, dayWidth: int)
    ensures forall k, j ::
      (k in GeomMap(rows, min, dayWidth) && GeomMap(rows, min, dayWidth)[k].rowIndex < j < |rows| && rows[j].LeafRow?)
      ==> rows[j].item.id != k
  {
    if rows != [] {
      var f := rows[..|rows| - 1];
      GeomMapLastRow(f, min, dayWidth);
      GeomMapEntries(f, min, dayWidth);
      var m, mf := GeomMap(rows, min, dayWidth), GeomMap(f, min, dayWidth);
      forall k, j | k in m && m[k].rowIndex < j < |rows| && rows[j].LeafRow?
        ensures rows[j].item.id != k
      {
        if !(Last(rows).LeafRow? && Last(rows).item.id == k) {
          assert k in mf && m[k] == mf[k];
          if j < |f| {
            assert rows[j] == f[j];
          }
        }
      }
    }
  }

  /** The tasks are visited once each, and exactly the tasks of the map. */
  lemma {:induction false} GeomKeysSpec(rows: seq<Row>, min: Day, dayWidth: int)
    ensures forall k :: k in GeomKeys(rows) <==> k in GeomMap(rows, min, dayWidth)
    ensures forall a, b :: 0 <= a < b < |GeomKeys(rows)| ==> GeomKeys(rows)[a] != GeomKeys(rows)[b]
  {
    if rows != [] {
      GeomKeysSpec(rows[..|rows| - 1], min, dayWidth);
    }
  }

  /** For a task or sub-task row, the entry is the row's bar: the same left
      edge and width, and the bar's vertical centre. */
  lemma GeomIsBar(r: Row, i: nat, min: Day, dayWidth: int)
    requires r.LeafRow? && r.kind != MilestoneLeaf
    ensures LeafShapes(r, i, min, dayWidth)[0].TaskBar?
    ensures GeomAt(r.item, i, min, dayWidth).left == LeafShapes(r, i, min, dayWidth)[0].left
    ensures GeomAt(r.item, i, min, dayWidth).bw == LeafShapes(r, i, min, dayWidth)[0].width
    ensures GeomAt(r.item, i, min, dayWidth).centerY == LeafShapes(r, i, min, dayWidth)[0].top + BarH / 2
    ensures GeomAt(r.item, i, min, dayWidth).centerY == i * 28 + 14
  {
    LeafBarFields(r, i, min, dayWidth);
    RowCentre(i);
    var g, b := GeomAt(r.item, i, min, dayWidth), LeafShapes(r, i, min, dayWidth)[0];
    assert g.centerY == i * RowH + RowH / 2;
    assert b.top == BarTop(i);
  }

  // -----------------------------------------------------------------------
  // The curves

  /** A curve leaves the right end of the source bar and enters the left
      end of the target bar at their row centres; its control points sit
      half of `dx = max(20, |ex - sx|)` to the right of the start and to the
      left of the end, at the heights of the two ends, so at least 10 pixels
      away; when the target starts 20 pixels or more to the right of the
      source's end both control points are at the horizontal midpoint. */
  lemma CurveShape(a: Geom, b: Geom)
    ensures CurveOf(a, b).from == a.task.id && CurveOf(a, b).to == b.task.id
    ensures CurveOf(a, b).sx == a.left + a.bw && CurveOf(a, b).sy == a.centerY
    ensures CurveOf(a, b).ex == b.left && CurveOf(a, b).ey == b.centerY
    ensures CurveOf(a, b).c1y == a.centerY && CurveOf(a, b).c2y == b.centerY
    ensures CurveOf(a, b).c1x - CurveOf(a, b).sx as real == CurveOf(a, b).ex as real - CurveOf(a, b).c2x
    ensures CurveOf(a, b).c1x - CurveOf(a, b).sx as real >= 10.0
    ensures CurveOf(a, b).c1x - CurveOf(a, b).sx as real >= (CurveOf(a, b).ex - CurveOf(a, b).sx) as real / 2.0
    ensures CurveOf(a, b).c1x - CurveOf(a, b).sx as real >= (CurveOf(a, b).sx - CurveOf(a, b).ex) as real / 2.0
    ensures b.left >= a.left + a.bw + 20 ==>
      CurveOf(a, b).c1x == CurveOf(a, b).c2x == (a.left + a.bw + b.left) as real / 2.0
  {
  }

  /** The curves from one task: one per successor that has an entry, in
      the successor list's order. */
  lemma {:induction false} CurvesFromSpec(g: Geom, succs: seq<nat>, m: map<nat, Geom>)
    ensures forall c :: c in CurvesFrom(g, succs, m) <==>
      exists j :: 0 <= j < |succs| && succs[j] in m && c == CurveOf(g, m[succs[j]])
  {
    if succs != [] {
      var f := succs[..|succs| - 1];
      CurvesFromSpec(g, f, m);
      forall c
        ensures c in CurvesFrom(g, succs, m) <==> exists j :: 0 <= j < |succs| && succs[j] in m && c == CurveOf(g, m[succs[j]])
      {
        if exists j :: 0 <= j < |f| && f[j] in m && c == CurveOf(g, m[f[j]]) {
          var j :| 0 <= j < |f| && f[j] in m && c == CurveOf(g, m[f[j]]);
          assert succs[j] == f[j];
        }
        if exists j :: 0 <= j < |succs| && succs[j] in m && c == CurveOf(g, m[succs[j]]) {
          var j :| 0 <= j < |succs| && succs[j] in m && c == CurveOf(g, m[succs[j]]);
          if j < |f| {
            assert f[j] == succs[j];
          }
        }
      }
    }
  }

  /** The curves of a list of tasks: those of each task with an entry. */
  lemma {:induction false} CurvesOverSpec(keys: seq<nat>, m: map<nat, Geom>)
    ensures forall c :: c in CurvesOver(keys, m) <==>
      exists i :: 0 <= i < |keys| && keys[i] in m && c in CurvesFrom(m[keys[i]], m[keys[i]].task.successors, m)
  {
    if keys != [] {
      var f := keys[..|keys| - 1];
      CurvesOverSpec(f, m);
      forall c
        ensures c in CurvesOver(keys, m) <==>
          exists i :: 0 <= i < |keys| && keys[i] in m && c in CurvesFrom(m[keys[i]], m[keys[i]].task.successors, m)
      {
        if exists i :: 0 <= i < |f| && f[i] in m && c in CurvesFrom(m[f[i]], m[f[i]].task.successors, m) {
          var i :| 0 <= i < |f| && f[i] in m && c in CurvesFrom(m[f[i]], m[f[i]].task.successors, m);
          assert keys[i] == f[i];
        }
        if exists i :: 0 <= i < |keys| && keys[i] in m && c in CurvesFrom(m[keys[i]], m[keys[i]].task.successors, m) {
          var i :| 0 <= i < |keys| && keys[i] in m && c in CurvesFrom(m[keys[i]], m[keys[i]].task.successors, m);
          if i < |f| {
            assert f[i] == keys[i];
          }
        }
      }
    }
  }

  /** A curve is drawn exactly for each pair of a shown task and one of its
      successors that is shown too; a successor that is not shown (its
      category or viewpoint is collapsed, or task rows are hidden) gets no
      curve. */
  lemma DependenciesSpec(rows: seq<Row>, min: Day, dayWidth: int)
    ensures forall c :: c in Dependencies(rows, min, dayWidth) <==>
      exists k, j :: k in GeomMap(rows, min, dayWidth)
        && 0 <= j < |GeomMap(rows, min, dayWidth)[k].task.successors|
        && GeomMap(rows, min, dayWidth)[k].task.successors[j] in GeomMap(rows, min, dayWidth)
        && c == CurveOf(GeomMap(rows, min, dayWidth)[k], GeomMap(rows, min, dayWidth)[GeomMap(rows, min, dayWidth)[k].task.successors[j]])
  {
    var m := GeomMap(rows, min, dayWidth);
    var keys := GeomKeys(rows);
    GeomKeysSpec(rows, min, dayWidth);
    CurvesOverSpec(keys, m);
    forall c
      ensures c in Dependencies(rows, min, dayWidth) <==>
        exists k, j :: k in m && 0 <= j < |m[k].task.successors| && m[k].task.successors[j] in m
          && c == CurveOf(m[k], m[m[k].task.successors[j]])
    {
      if c in Dependencies(rows, min, dayWidth) {
        var i :| 0 <= i < |keys| && keys[i] in m && c in CurvesFrom(m[keys[i]], m[keys[i]].task.successors, m);
        CurvesFromSpec(m[keys[i]], m[keys[i]].task.successors, m);
      }
      if exists k, j :: k in m && 0 <= j < |m[k].task.successors| && m[k].task.successors[j] in m
          && c == CurveOf(m[k], m[m[k].task.successors[j]])
      {
        var k, j :| k in m && 0 <= j < |m[k].task.successors| && m[k].task.successors[j] in m
          && c == CurveOf(m[k], m[m[k].task.successors[j]]);
        CurvesFromSpec(m[k], m[k].task.successors, m);
        assert c in CurvesFrom(m[k], m[k].task.successors, m);
        var i :| 0 <= i < |keys| && keys[i] == k;
      }
    }
  }
}
