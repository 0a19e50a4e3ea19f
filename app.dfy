/** The zoom, fit-to-width and label-click handlers of the page (app.js).
    Each changes the UI state and then redraws; the redraw is not part of
    this model. */
module App {
  import opened Wrappers
  import opened Dates
  import opened Tasks
  import opened State

  /** The day width of a zoom mode. */
  function ZoomWidth(mode: string): int
  {
    if mode == "day" then 28 else if mode == "week" then 12 else 7
  }

  /** `setZoom`: the rounding of the width it sets is the identity on the
      integers it can set. */
  method SetZoom(st: AppState, mode: string)
    modifies st
    requires st.Valid()
    ensures st.model == old(st.model).(dayWidth := ZoomWidth(mode))
    ensures st.collapsedCats == old(st.collapsedCats) && st.collapsedSubs == old(st.collapsedSubs)
    ensures st.hideTaskRows == old(st.hideTaskRows) && st.subsInitialized == old(st.subsInitialized)
    ensures st.Valid()
  {
    ZoomWidthSpec(mode);
    st.model := st.model.(dayWidth := ZoomWidth(mode));
  }

  /** Day zoom is 28 pixels a day, week zoom 12, and every other mode 7;
      every zoom keeps a day at least 4 pixels wide. */
  lemma ZoomWidthSpec(mode: string)
    ensures ZoomWidth(mode) == 28 <==> mode == "day"
    ensures ZoomWidth(mode) == 12 <==> mode == "week"
    ensures ZoomWidth(mode) == 7 <==> mode != "day" && mode != "week"
    ensures ZoomWidth(mode) >= 4
  {
  }

  /** `Math.round(a / b)` for `a >= 0` and `b > 0`: the nearest integer,
      halves rounded up. */
  function RoundDiv(a: nat, b: nat): nat
    requires b > 0
  {
    (2 * a + b) / (2 * b)
  }

  /** The result is the integer nearest to `a / b`: it is off by at most
      half, and a half is rounded up. */
  lemma RoundDivNearest(a: nat, b: nat)
    requires b > 0
    ensures 2 * RoundDiv(a, b) * b <= 2 * a + b < 2 * RoundDiv(a, b) * b + 2 * b
    ensures (RoundDiv(a, b) as real) - 0.5 <= (a as real) / (b as real) < (RoundDiv(a, b) as real) + 0.5
  {
    var r := RoundDiv(a, b);
    var q := 2 * a + b;
    assert q == (2 * b) * r + q % (2 * b);
    assert 0 <= q % (2 * b) < 2 * b;
    assert 2 * r * b <= q < 2 * r * b + 2 * b;
    var x, y := a as real, b as real;
    assert 2.0 * (r as real) * y <= 2.0 * x + y < 2.0 * (r as real) * y + 2.0 * y;
    assert (r as real) * y - 0.5 * y <= x < (r as real) * y + 0.5 * y;
    DivBounds(x, y, r as real);
  }

  lemma DivBounds(x: real, y: real, r: real)
    requires y > 0.0
    requires r * y - 0.5 * y <= x < r * y + 0.5 * y
    ensures r - 0.5 <= x / y < r + 0.5
  {
    var z := x / y;
    assert z * y == x;
    if z < r - 0.5 {
      MulPos(r - 0.5 - z, y);
    }
    if z >= r + 0.5 {
      MulNonNeg(z - r - 0.5, y);
    }
  }

  lemma MulPos(p: real, y: real)
    requires p > 0.0 && y > 0.0
    ensures p * y > 0.0
  {
  }

  lemma MulNonNeg(p: real, y: real)
    requires p >= 0.0 && y > 0.0
    ensures p * y >= 0.0
  {
  }

  /** The day width that fits `totalDays` days into a container `width`
      pixels wide, never below 4. */
  function FitWidth(width: nat, totalDays: nat): int
    requires totalDays > 0
  {
    var w := RoundDiv(width, totalDays);
    if w < 4 then 4 else w
  }

  /** The fitted width is at least 4; unless that minimum applies, the
      chart's days then fill the container to within half a day. */
  lemma FitWidthSpec(width: nat, totalDays: nat)
    requires totalDays > 0
    ensures FitWidth(width, totalDays) >= 4
    ensures FitWidth(width, totalDays) > 4 ==>
      2 * width - totalDays < 2 * FitWidth(width, totalDays) * totalDays <= 2 * width + totalDays
    ensures FitWidth(width, totalDays) == 4 ==> 2 * width < 9 * totalDays
  {
    RoundDivNearest(width, totalDays);
  }

  /** `onFitClick`: nothing without tasks; otherwise the day width that
      fits the chart's days into the grid, whose width is `clientWidth`,
      800 pixels when the grid is missing or has no width. */
  method OnFitClick(st: AppState, clientWidth: nat)
    modifies st
    requires st.Valid()
    ensures old(st.model.tasks) == [] ==> st.model == old(st.model)
    ensures old(st.model.tasks) != [] ==>
      st.model == old(st.model).(dayWidth := FitWidth(if clientWidth > 0 then clientWidth else 800,
                                                        DaysBetween(old(st.model.min.value), old(st.model.max.value))))
    ensures st.collapsedCats == old(st.collapsedCats) && st.collapsedSubs == old(st.collapsedSubs)
    ensures st.hideTaskRows == old(st.hideTaskRows) && st.subsInitialized == old(st.subsInitialized)
    ensures st.Valid()
  {
    if |st.model.tasks| == 0 {
      return;
    }
    var containerWidth := if clientWidth > 0 then clientWidth else 800;
    var totalDays := DaysBetween(st.model.min.value, st.model.max.value);
    FitDivisor(st.model.min.value, st.model.max.value);
    var w := RoundDiv(containerWidth, totalDays);
    st.model := st.model.(dayWidth := if w < 4 then 4 else w);
  }

  /** A built model spans its 7 padding days and at least one more, so the
      divisor of `onFitClick` is at least 8. */
  lemma FitDivisor(min: Day, max: Day)
    requires min + 7 <= max
    ensures DaysBetween(min, max) >= 8
  {
  }

  // -----------------------------------------------------------------------
  // Label clicks

  /** What a click on the task pane lands on: a category label, a
      viewpoint label, or anything else. */
  datatype ClickTarget = CategoryLabel(cat: string) | ViewpointLabel(key: string) | Elsewhere

  /** Add `x` when absent, remove it when present. */
  function Flip(s: set<string>, x: string): set<string>
  {
    if x in s then s - {x} else s + {x}
  }

  /** Flipping changes the membership of `x` and of nothing else, and
      flipping twice restores the set. */
  lemma FlipSpec(s: set<string>, x: string)
    ensures x in Flip(s, x) <==> x !in s
    ensures forall y :: y != x ==> (y in Flip(s, x) <==> y in s)
    ensures Flip(Flip(s, x), x) == s
  {
  }

  /** `onLabelsClick`. */
  method OnLabelsClick(st: AppState, target: ClickTarget)
    modifies st
    ensures st.collapsedCats == if target.CategoryLabel? then Flip(old(st.collapsedCats), target.cat) else old(st.collapsedCats)
    ensures st.collapsedSubs == if target.ViewpointLabel? then Flip(old(st.collapsedSubs), target.key) else old(st.collapsedSubs)
    ensures st.model == old(st.model) && st.hideTaskRows == old(st.hideTaskRows)
    ensures st.subsInitialized == old(st.subsInitialized)
  {
    match target
    case CategoryLabel(cat) =>
      if cat in st.collapsedCats {
        st.collapsedCats := st.collapsedCats - {cat};
      } else {
        st.collapsedCats := st.collapsedCats + {cat};
      }
    case ViewpointLabel(key) =>
      if key in st.collapsedSubs {
        st.collapsedSubs := st.collapsedSubs - {key};
      } else {
        st.collapsedSubs := st.collapsedSubs + {key};
      }
    case Elsewhere =>
  }

  /** Two clicks on the same label restore both collapse sets. */
  method OnLabelsClickTwice(st: AppState, target: ClickTarget)
    modifies st
    ensures st.collapsedCats == old(st.collapsedCats) && st.collapsedSubs == old(st.collapsedSubs)
    ensures st.model == old(st.model) && st.hideTaskRows == old(st.hideTaskRows)
  {
    OnLabelsClick(st, target);
    OnLabelsClick(st, target);
    if target.CategoryLabel? {
      FlipSpec(old(st.collapsedCats), target.cat);
    }
    if target.ViewpointLabel? {
      FlipSpec(old(st.collapsedSubs), target.key);
    }
  }
}
