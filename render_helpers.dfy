/** The pure helpers of the renderer (js/renderer.js; app.js carries copies
    of several): the priority badge, the status colour, the comparator of
    leaf rows, the tick boundary test, task-number depth and the date the
    today line snaps to. */
module RenderHelpers {
  import opened Wrappers
  import opened Text
  import opened Seqs
  import opened Sorting
  import opened Dates
  import opened Headers
  import opened Tasks

  // -----------------------------------------------------------------------
  // Priority badge

  /** A priority badge: CSS class and the text shown. */
  datatype Badge = Badge(cls: string, text: string)

  /** The priorities that get a badge. */
  const PriorityLevels: set<string> := {"緊急", "高", "中", "低"}

  /** The badge of an already trimmed priority. */
  function BadgeOf(v: string): (b: Badge)
    ensures b.cls == "" <==> b.text == ""
    ensures b.text != "" <==> v in PriorityLevels
    ensures b.text != "" ==> b.text == v
  {
    if v == "緊急" then Badge("urgent", "緊急")
    else if v == "高" then Badge("high", "高")
    else if v == "中" then Badge("mid", "中")
    else if v == "低" then Badge("low", "低")
    else Badge("", "")
  }

  /** `prioClassText`: a known priority, once trimmed, is shown as itself
      with its own class; anything else gets no class and no text. */
  function PrioClassText(p: string): (b: Badge)
    ensures b.cls == "" <==> b.text == ""
    ensures b.text != "" <==> Trim(p) in PriorityLevels
    ensures b.text != "" ==> b.text == Trim(p)
  {
    BadgeOf(Trim(p))
  }

  /** Distinct priorities get distinct classes. */
  lemma PrioClassesDistinct(p: string, q: string)
    requires PrioClassText(p).cls != ""
    requires PrioClassText(p).cls == PrioClassText(q).cls
    ensures Trim(p) == Trim(q)
  {
    BadgeClassDistinct(Trim(p), Trim(q));
  }

  /** The four classes differ in their first letter. */
  lemma BadgeClassDistinct(v: string, w: string)
    requires BadgeOf(v).cls != ""
    requires BadgeOf(v).cls == BadgeOf(w).cls
    ensures v == w
  {
    var c, d := BadgeOf(v).cls, BadgeOf(w).cls;
    assert c[0] == d[0];
  }

  // -----------------------------------------------------------------------
  // Status

  const Done: string := "完了済み"
  const NotStarted: string := "開始前"
  const InProgress: string := "進行中"
  const Delayed: string := "遅延"

  const Grey: string := "#bdbdbd"
  const White: string := "#ffffff"
  const Green: string := "#66bb6a"
  const Yellow: string := "#ffd54f"

  /** `String(s || '').replace(/[　]/g, ' ').trim()`. */
  function NormStatus(s: string): string
  {
    Trim(ReplaceChar(s, FullWidthSpace, ' '))
  }

  /** `statusColor`: done is grey, not started white, delayed yellow, and
      in progress as well as any unknown status green. */
  function StatusColor(s: string): (c: string)
    ensures c == Grey || c == White || c == Green || c == Yellow
    ensures c == Grey <==> NormStatus(s) == Done
    ensures c == White <==> NormStatus(s) == NotStarted
    ensures c == Yellow <==> NormStatus(s) == Delayed
  {
    var v := NormStatus(s);
    if v == Done then Grey
    else if v == NotStarted then White
    else if v == InProgress then Green
    else if v == Delayed then Yellow
    else Green
  }

  /** `_isDoneStatus`. */
  predicate IsDone(t: Task) {
    NormStatus(t.status) == Done
  }

  // -----------------------------------------------------------------------
  // Leaf-row comparator

  /** `a.task || a.sub || a.name`. */
  function NameKey(t: Task): string
  {
    if t.task != "" then t.task else if t.sub != "" then t.sub else t.name
  }

  /** `cmpByStartThenName`: the difference of the starts, else of the
      ends, else the collation of the names. Days stand for milliseconds:
      the sign, which is all the sort reads, is the same. */
  function CmpByStartThenName(lc: (string, string) -> int, a: Task, b: Task): int
  {
    if a.start != b.start then a.start - b.start
    else if a.end != b.end then a.end - b.end
    else lc(NameKey(a), NameKey(b))
  }

  /** The comparator as the relation the sort uses. */
  function ByStartThenName(lc: (string, string) -> int): (Task, Task) -> bool
  {
    (a: Task, b: Task) => CmpByStartThenName(lc, a, b) <= 0
  }

  /** The order is lexicographic: start, then end, then name. */
  lemma ByStartThenNameOrder(lc: (string, string) -> int, a: Task, b: Task)
    ensures ByStartThenName(lc)(a, b) <==>
      a.start < b.start
      || (a.start == b.start && (a.end < b.end || (a.end == b.end && lc(NameKey(a), NameKey(b)) <= 0)))
  {
  }

  /** With a collation for the names the comparator is consistent. */
  lemma ByStartThenNamePreorder(lc: (string, string) -> int)
    requires Collation(lc)
    ensures TotalPreorder(ByStartThenName(lc))
  {
    var le := (x: string, y: string) => lc(x, y) <= 0;
    var r := ByStartThenName(lc);
    forall a: Task, b: Task
      ensures r(a, b) || r(b, a)
    {
      ByStartThenNameOrder(lc, a, b);
      ByStartThenNameOrder(lc, b, a);
      assert le(NameKey(a), NameKey(b)) || le(NameKey(b), NameKey(a));
    }
    forall a: Task, b: Task, c: Task | r(a, b) && r(b, c)
      ensures r(a, c)
    {
      ByStartThenNameOrder(lc, a, b);
      ByStartThenNameOrder(lc, b, c);
      ByStartThenNameOrder(lc, a, c);
      if a.start == b.start == c.start && a.end == b.end == c.end {
        assert le(NameKey(a), NameKey(b)) && le(NameKey(b), NameKey(c));
        assert le(NameKey(a), NameKey(c));
      }
    }
  }

  // -----------------------------------------------------------------------
  // Tick boundaries

  /** `__isBoundary`: every day in day mode, Sundays in week mode, the
      first of the month in month mode, and every day for any other mode. */
  function IsBoundary(d: Day, mode: string): bool
  {
    if mode == "day" then true
    else if mode == "week" then Weekday(d) == 0
    else if mode == "month" then ToCivil(d).day == 1
    else true
  }

  /** Week boundaries repeat every seven days, and any seven consecutive
      days hold exactly one. */
  lemma WeekBoundaries(d: Day)
    ensures IsBoundary(d + 7, "week") == IsBoundary(d, "week")
    ensures exists e :: d <= e < d + 7 && IsBoundary(e, "week")
    ensures forall e, f :: d <= e < d + 7 && d <= f < d + 7 && IsBoundary(e, "week") && IsBoundary(f, "week") ==> e == f
  {
    WeekIsSunday(d);
    WeekIsSunday(d + 7);
    WeekdayPeriod(d);
    var k := (7 - Weekday(d)) % 7;
    SundayWithin(d);
    WeekIsSunday(d + k);
    forall e, f | d <= e < d + 7 && d <= f < d + 7 && IsBoundary(e, "week") && IsBoundary(f, "week")
      ensures e == f
    {
      WeekIsSunday(e);
      WeekIsSunday(f);
      SundayUnique(e, f);
    }
  }

  lemma WeekIsSunday(d: Day)
    ensures IsBoundary(d, "week") == (Weekday(d) == 0)
  {
  }

  lemma WeekdayPeriod(d: Day)
    ensures Weekday(d + 7) == Weekday(d)
  {
  }

  lemma SundayWithin(d: Day)
    ensures Weekday(d + (7 - Weekday(d)) % 7) == 0
  {
  }

  lemma SundayUnique(e: Day, f: Day)
    requires e - 7 < f < e + 7 && Weekday(e) == 0 && Weekday(f) == 0
    ensures e == f
  {
    assert (e + 4) % 7 == 0 && (f + 4) % 7 == 0;
  }

  /** Month boundaries are exactly the firsts of the months. */
  lemma MonthBoundaries(d: Day)
    ensures IsBoundary(d, "month") <==> d == FromCivil(Civil(ToCivil(d).year, ToCivil(d).month, 1))
  {
  }

  /** The first of every month is a month boundary. */
  lemma FirstIsBoundary(y: int, m: int)
    requires 1 <= m <= 12
    ensures IsBoundary(FromCivil(Civil(y, m, 1)), "month")
  {
    CivilRoundTrip(Civil(y, m, 1));
  }

  // -----------------------------------------------------------------------
  // Task numbers

  /** `.filter(Boolean)` on strings. */
  function NonEmpty(parts: seq<string>): (r: seq<string>)
    ensures |r| <= |parts|
    ensures forall k :: 0 <= k < |r| ==> r[k] != ""
  {
    if parts == [] then []
    else NonEmpty(parts[..|parts| - 1]) + (if Last(parts) != "" then [Last(parts)] else [])
  }

  /** `_depthOfTaskNo`: the number of non-empty dot-separated parts of the
      trimmed number; at most one more than the number of dots. */
  function DepthOfTaskNo(taskNo: string): (n: nat)
    ensures n <= Count(Trim(taskNo), '.') + 1
  {
    var s := Trim(taskNo);
    SplitParts(s, '.');
    if s == "" then 0 else |NonEmpty(Split(s, '.'))|
  }

  /** Nothing is dropped when every part is non-empty. */
  lemma {:induction false} NonEmptyKeeps(parts: seq<string>)
    requires forall k :: 0 <= k < |parts| ==> parts[k] != ""
    ensures NonEmpty(parts) == parts
  {
    if parts != [] {
      NonEmptyKeeps(parts[..|parts| - 1]);
      FrontLast(parts);
    }
  }

  /** A number written as `n` non-empty parts joined by dots, without
      white space, has depth `n`. */
  lemma DepthOfJoin(parts: seq<string>)
    requires |parts| >= 1
    requires forall k :: 0 <= k < |parts| ==> parts[k] != "" && '.' !in parts[k]
    requires forall k, i :: 0 <= k < |parts| && 0 <= i < |parts[k]| ==> !IsSpace(parts[k][i])
    ensures DepthOfTaskNo(Join(parts, '.')) == |parts|
  {
    DepthOfParts(parts);
    NonEmptyKeeps(parts);
  }

  /** A number written as parts joined by dots, without white space, has
      as its depth the number of non-empty parts: empty parts, as in
      `1..2` or `1.`, are not counted. */
  lemma DepthOfParts(parts: seq<string>)
    requires |parts| >= 1
    requires forall k :: 0 <= k < |parts| ==> '.' !in parts[k]
    requires forall k, i :: 0 <= k < |parts| && 0 <= i < |parts[k]| ==> !IsSpace(parts[k][i])
    ensures DepthOfTaskNo(Join(parts, '.')) == |NonEmpty(parts)|
  {
    var s := Join(parts, '.');
    JoinNoSpace(parts);
    TrimNoSpace(s);
    SplitJoin(parts, '.');
    DepthOfSplit(s, parts);
  }

  lemma DepthOfSplit(s: string, parts: seq<string>)
    requires Trim(s) == s && Split(s, '.') == parts
    ensures DepthOfTaskNo(s) == |NonEmpty(parts)|
  {
    if s == "" {
      EmptyParts(parts);
    } else {
      assert DepthOfTaskNo(s) == |NonEmpty(Split(Trim(s), '.'))|;
    }
  }

  lemma EmptyParts(parts: seq<string>)
    requires parts == Split("", '.')
    ensures NonEmpty(parts) == []
  {
    assert parts == [""];
    assert parts[..0] == [];
  }

  lemma {:induction false} JoinNoSpace(parts: seq<string>)
    requires forall k, i :: 0 <= k < |parts| && 0 <= i < |parts[k]| ==> !IsSpace(parts[k][i])
    ensures forall i :: 0 <= i < |Join(parts, '.')| ==> !IsSpace(Join(parts, '.')[i])
  {
    if |parts| > 1 {
      JoinNoSpace(parts[1..]);
      var r := Join(parts[1..], '.');
      assert Join(parts, '.') == parts[0] + ['.'] + r;
      forall i | 0 <= i < |Join(parts, '.')|
        ensures !IsSpace(Join(parts, '.')[i])
      {
        if i < |parts[0]| {
          assert Join(parts, '.')[i] == parts[0][i];
        } else if i > |parts[0]| {
          assert Join(parts, '.')[i] == r[i - |parts[0]| - 1];
        }
      }
    }
  }

  lemma JoinNonEmpty(parts: seq<string>)
    requires |parts| >= 1 && parts[0] != ""
    ensures Join(parts, '.') != ""
  {
  }

  /** `_isGrandchildTask`: a number three levels deep. */
  predicate IsGrandchild(t: Task) {
    DepthOfTaskNo(t.taskNo) == 3
  }

  // -----------------------------------------------------------------------
  // Today-line snap date

  /** The tasks `findSnapDateForTodayLine` considers: unfinished
      grandchildren that ended before today. */
  predicate SnapCandidate(t: Task, today: Day) {
    IsGrandchild(t) && !IsDone(t) && t.end < today
  }

  /** The latest end among the tasks that satisfy `ok`. */
  function LatestEnd(tasks: seq<Task>, ok: Task -> bool): Option<Day>
  {
    if tasks == [] then None
    else
      var best := LatestEnd(tasks[..|tasks| - 1], ok);
      var cur := Last(tasks);
      if ok(cur) && (best.None? || cur.end > best.value) then Some(cur.end) else best
  }

  /** `LatestEnd` is present exactly when some task satisfies `ok`. */
  lemma {:induction false} LatestEndSome(tasks: seq<Task>, ok: Task -> bool)
    ensures LatestEnd(tasks, ok).Some? <==> exists k :: 0 <= k < |tasks| && ok(tasks[k])
  {
    if tasks != [] {
      var f := tasks[..|tasks| - 1];
      LatestEndSome(f, ok);
      FrontLast(tasks);
      if exists k :: 0 <= k < |f| && ok(f[k]) {
        var k :| 0 <= k < |f| && ok(f[k]);
        assert tasks[k] == f[k];
      }
      if exists k :: 0 <= k < |tasks| && ok(tasks[k]) {
        var k :| 0 <= k < |tasks| && ok(tasks[k]);
        if k < |f| {
          assert f[k] == tasks[k];
        } else {
          assert tasks[k] == Last(tasks);
        }
      }
    }
  }

  /** `LatestEnd` is the end of some task satisfying `ok`, and no such
      task ends later. */
  lemma {:induction false} LatestEndMax(tasks: seq<Task>, ok: Task -> bool)
    ensures LatestEnd(tasks, ok).Some? ==>
      (forall k :: 0 <= k < |tasks| && ok(tasks[k]) ==> tasks[k].end <= LatestEnd(tasks, ok).value)
      && exists k :: 0 <= k < |tasks| && ok(tasks[k]) && tasks[k].end == LatestEnd(tasks, ok).value
  {
    if tasks != [] {
      var f := tasks[..|tasks| - 1];
      LatestEndMax(f, ok);
      LatestEndSome(f, ok);
      FrontLast(tasks);
      assert tasks[|tasks| - 1] == Last(tasks);
      if LatestEnd(f, ok).Some? {
        var k :| 0 <= k < |f| && ok(f[k]) && f[k].end == LatestEnd(f, ok).value;
        assert tasks[k] == f[k];
      }
      var r := LatestEnd(tasks, ok);
      if r.Some? {
        forall k | 0 <= k < |tasks| && ok(tasks[k])
          ensures tasks[k].end <= r.value
        {
          if k < |f| {
            assert tasks[k] == f[k];
          } else {
            assert tasks[k] == Last(tasks);
          }
        }
      }
    }
  }

  /** `findSnapDateForTodayLine`: the latest end among the candidates,
      absent when there is none; always before today. */
  function FindSnapDate(tasks: seq<Task>, today: Day): (r: Option<Day>)
    ensures r.Some? <==> exists k :: 0 <= k < |tasks| && SnapCandidate(tasks[k], today)
    ensures r.Some? ==>
      (forall k :: 0 <= k < |tasks| && SnapCandidate(tasks[k], today) ==> tasks[k].end <= r.value)
      && (exists k :: 0 <= k < |tasks| && SnapCandidate(tasks[k], today) && tasks[k].end == r.value)
      && r.value < today
  {
    var ok := (t: Task) => SnapCandidate(t, today);
    LatestEndSome(tasks, ok);
    LatestEndMax(tasks, ok);
    LatestEnd(tasks, ok)
  }
}
