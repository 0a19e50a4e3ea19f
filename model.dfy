/** `buildModel` (js/model.js): CSV text to the chart model, with the
    collapse state of the viewpoints carried across rebuilds. */
module ModelBuilder {
  import opened Wrappers
  import opened Text
  import opened Seqs
  import opened Sorting
  import opened Dates
  import opened Headers
  import opened Csv
  import opened Constants
  import opened Tasks
  import opened State

  const EmptyCsv: string := "CSVが空です"
  const MissingHeaders: string := "ヘッダ行に カテゴリ, Start, End が必要です"
  const NoTasks: string := "有効なタスクがありません"

  /** The category key of a task without a category. */
  const Uncategorised: string := "(未分類)"

  /** The column of each field, -1 when the header lacks it. */
  datatype Columns = Columns(
    cat: int, sub: int, task: int, start: int, end: int, assignee: int,
    status: int, priority: int, check: int, taskNo: int, succ: int)

  const CatNames: seq<string> := ["カテゴリ", "category"]
  const SubNames: seq<string> := ["観点", "小タスク", "サブ", "subtask", "viewpoint"]
  const TaskNames: seq<string> := ["タスク", "task"]
  const StartNames: seq<string> := ["start", "開始", "開始日"]
  const EndNames: seq<string> := ["end", "終了", "終了日"]
  const AssigneeNames: seq<string> := ["担当者", "assignee", "責任者"]
  const StatusNames: seq<string> := ["進行状況", "status"]
  const PriorityNames: seq<string> := ["優先度", "priority"]
  const CheckNames: seq<string> := ["check", "チェック", "中間", "中間チェック"]
  const TaskNoNames: seq<string> := ["タスクno", "taskno", "task no", "id", "ID", "タスクNo"]
  const SuccNames: seq<string> := ["後続タスクno", "後続タスクno", "後続タスク", "後続", "successors", "next", "後続タスクNo"]

  /** The columns of a normalised header row. */
  function ColumnsOf(header: seq<string>): Columns
  {
    Columns(
      HeaderIndex(CatNames, header), HeaderIndex(SubNames, header),
      HeaderIndex(TaskNames, header), HeaderIndex(StartNames, header),
      HeaderIndex(EndNames, header), HeaderIndex(AssigneeNames, header),
      HeaderIndex(StatusNames, header), HeaderIndex(PriorityNames, header),
      HeaderIndex(CheckNames, header), HeaderIndex(TaskNoNames, header),
      HeaderIndex(SuccNames, header))
  }

  /** The `idx` record: one synonym lookup per field. */
  method FindColumns(header: seq<string>) returns (c: Columns)
    ensures c == ColumnsOf(header)
  {
    var cat := FindHeaderIndex(List(CatNames), header);
    var sub := FindHeaderIndex(List(SubNames), header);
    var task := FindHeaderIndex(List(TaskNames), header);
    var start := FindHeaderIndex(List(StartNames), header);
    var end := FindHeaderIndex(List(EndNames), header);
    var assignee := FindHeaderIndex(List(AssigneeNames), header);
    var status := FindHeaderIndex(List(StatusNames), header);
    var priority := FindHeaderIndex(List(PriorityNames), header);
    var check := FindHeaderIndex(List(CheckNames), header);
    var taskNo := FindHeaderIndex(List(TaskNoNames), header);
    var succ := FindHeaderIndex(List(SuccNames), header);
    c := Columns(cat, sub, task, start, end, assignee, status, priority, check, taskNo, succ);
  }

  /** Category, start and end are the columns a chart cannot do without. */
  predicate HasRequired(c: Columns) {
    c.cat >= 0 && c.start >= 0 && c.end >= 0
  }

  /** `r[i] || ''`: the cell, or empty when the column is absent (-1) or
      the row is too short. */
  function Cell(r: seq<string>, i: int): string
  {
    if 0 <= i < |r| then r[i] else ""
  }

  /** A data row read through the columns, before the filter. */
  datatype Draft = Draft(
    cat: string, sub: string, task: string, name: string,
    start: Option<Day>, end: Option<Day>, check: Option<Day>,
    assignee: string, status: string, priority: string,
    taskNo: string, successorsRaw: string)

  /** The `.map` callback: viewpoint, task, number and successor cells are
      trimmed, the name is the task, else the viewpoint, else the
      category, and a missing or unreadable end falls back to the start. */
  function DraftOf(r: seq<string>, c: Columns): (d: Draft)
    ensures d.name == (if d.task != "" then d.task else if d.sub != "" then d.sub else d.cat)
  {
    var sub := Trim(Cell(r, c.sub));
    var task := Trim(Cell(r, c.task));
    var cat := Trim(Cell(r, c.cat));
    var s := ToDate(Text(Cell(r, c.start)));
    var e := ToDate(Text(Cell(r, c.end)));
    Draft(cat, sub, task,
      if task != "" then task else if sub != "" then sub else cat,
      s, if e.Some? then e else s,
      ToDate(Text(Cell(r, c.check))),
      Cell(r, c.assignee), Cell(r, c.status), Cell(r, c.priority),
      Trim(Cell(r, c.taskNo)), Trim(Cell(r, c.succ)))
  }

  /** The `.filter` test: a name, both dates, and an end not before the
      start. */
  predicate Keep(d: Draft) {
    d.name != "" && d.start.Some? && d.end.Some? && d.end.value >= d.start.value
  }

  function TaskOf(d: Draft, id: nat): (t: Task)
    requires Keep(d)
    ensures t.id == id && t.name != "" && t.start <= t.end && t.successors == []
  {
    Task(id, d.cat, d.sub, d.task, d.name, d.start.value, d.end.value, d.check,
      d.assignee, d.status, d.priority, d.taskNo, d.successorsRaw, [])
  }

  /** The `.map` over the data rows. */
  function Drafts(data: seq<seq<string>>, c: Columns): (ds: seq<Draft>)
    ensures |ds| == |data|
    ensures forall k :: 0 <= k < |data| ==> ds[k] == DraftOf(data[k], c)
  {
    seq(|data|, k requires 0 <= k < |data| => DraftOf(data[k], c))
  }

  /** `rows2`: the drafts the filter keeps, numbered in order. */
  function Survivors(ds: seq<Draft>): (ts: seq<Task>)
    ensures |ts| <= |ds|
  {
    if ds == [] then []
    else
      var front := Survivors(ds[..|ds| - 1]);
      var d := Last(ds);
      if Keep(d) then front + [TaskOf(d, |front|)] else front
  }

  /** Task `t` is kept draft `k` of `ds`, numbered `i`. */
  predicate FromDraft(ds: seq<Draft>, t: Task, i: nat) {
    exists k :: 0 <= k < |ds| && Keep(ds[k]) && t == TaskOf(ds[k], i)
  }

  /** Every survivor is a kept draft, numbered by its position, with a
      name, both dates and no successors yet; there is a survivor exactly
      when some draft is kept. */
  lemma SurvivorsSpec(ds: seq<Draft>)
    ensures forall i :: 0 <= i < |Survivors(ds)| ==>
      Survivors(ds)[i].id == i && Survivors(ds)[i].name != ""
      && Survivors(ds)[i].start <= Survivors(ds)[i].end && Survivors(ds)[i].successors == []
      && FromDraft(ds, Survivors(ds)[i], i)
    ensures (exists k :: 0 <= k < |ds| && Keep(ds[k])) <==> Survivors(ds) != []
  {
    SurvivorsFrom(ds);
    SurvivorsAny(ds);
  }

  lemma {:induction false} SurvivorsFrom(ds: seq<Draft>)
    ensures forall i :: 0 <= i < |Survivors(ds)| ==> FromDraft(ds, Survivors(ds)[i], i)
  {
    if ds != [] {
      var f := ds[..|ds| - 1];
      SurvivorsFrom(f);
      var ts, fs := Survivors(ds), Survivors(f);
      forall i | 0 <= i < |ts|
        ensures FromDraft(ds, ts[i], i)
      {
        if i < |fs| {
          assert ts[i] == fs[i];
          assert FromDraft(f, fs[i], i);
          var k :| 0 <= k < |f| && Keep(f[k]) && fs[i] == TaskOf(f[k], i);
          assert ds[k] == f[k];
        } else {
          assert ds[|ds| - 1] == Last(ds);
        }
      }
    }
  }

  lemma {:induction false} SurvivorsAny(ds: seq<Draft>)
    ensures (exists k :: 0 <= k < |ds| && Keep(ds[k])) <==> Survivors(ds) != []
  {
    if ds != [] {
      var f := ds[..|ds| - 1];
      SurvivorsAny(f);
      assert ds[|ds| - 1] == Last(ds);
      if exists k :: 0 <= k < |ds| && Keep(ds[k]) {
        var k :| 0 <= k < |ds| && Keep(ds[k]);
        if k < |f| {
          assert f[k] == ds[k];
        }
      }
      if exists k :: 0 <= k < |f| && Keep(f[k]) {
        var k :| 0 <= k < |f| && Keep(f[k]);
        assert ds[k] == f[k];
      }
    }
  }

  /** Survivors never end before they start. */
  lemma {:induction false} SurvivorsSpans(ds: seq<Draft>)
    ensures forall i :: 0 <= i < |Survivors(ds)| ==> Survivors(ds)[i].start <= Survivors(ds)[i].end
  {
    if ds != [] {
      SurvivorsSpans(ds[..|ds| - 1]);
    }
  }

  // ---------------------------------------------------------------------
  // Successors

  /** `idMap` as a value: each non-empty task number to the last task
      carrying it. */
  function IdMap(tasks: seq<Task>): map<string, nat>
  {
    if tasks == [] then map[]
    else
      var m := IdMap(tasks[..|tasks| - 1]);
      var t := Last(tasks);
      if t.taskNo != "" then m[t.taskNo := t.id] else m
  }

  /** A number is a key exactly when some task has it, and it maps to the
      last task with that number: on duplicates the last row wins. */
  lemma IdMapSpec(tasks: seq<Task>, no: string)
    ensures no in IdMap(tasks) <==> no != "" && exists j :: 0 <= j < |tasks| && tasks[j].taskNo == no
    ensures no in IdMap(tasks) ==>
      exists j :: 0 <= j < |tasks| && tasks[j].taskNo == no && IdMap(tasks)[no] == tasks[j].id
        && forall j' :: j < j' < |tasks| ==> tasks[j'].taskNo != no
  {
    IdMapKeys(tasks, no);
    IdMapLastWins(tasks, no);
  }

  lemma {:induction false} IdMapKeys(tasks: seq<Task>, no: string)
    ensures no in IdMap(tasks) <==> no != "" && exists j :: 0 <= j < |tasks| && tasks[j].taskNo == no
  {
    if tasks != [] {
      var f, t := tasks[..|tasks| - 1], Last(tasks);
      IdMapKeys(f, no);
      if exists j :: 0 <= j < |tasks| && tasks[j].taskNo == no {
        var j :| 0 <= j < |tasks| && tasks[j].taskNo == no;
        if j < |f| {
          assert f[j] == tasks[j];
        }
      }
      if no != "" && t.taskNo == no {
        assert tasks[|tasks| - 1] == t;
      }
      if exists j :: 0 <= j < |f| && f[j].taskNo == no {
        var j :| 0 <= j < |f| && f[j].taskNo == no;
        assert tasks[j] == f[j];
      }
    }
  }

  lemma {:induction false} IdMapLastWins(tasks: seq<Task>, no: string)
    ensures no in IdMap(tasks) ==>
      exists j :: 0 <= j < |tasks| && tasks[j].taskNo == no && IdMap(tasks)[no] == tasks[j].id
        && forall j' :: j < j' < |tasks| ==> tasks[j'].taskNo != no
  {
    if tasks != [] {
      var f, t := tasks[..|tasks| - 1], Last(tasks);
      IdMapLastWins(f, no);
      if t.taskNo != "" && t.taskNo == no {
        assert tasks[|tasks| - 1] == t;
      } else if no in IdMap(f) {
        IdMapKeys(f, no);
        var j :| 0 <= j < |f| && f[j].taskNo == no && IdMap(f)[no] == f[j].id
          && forall j' :: j < j' < |f| ==> f[j'].taskNo != no;
        assert tasks[j] == f[j];
        forall j' | j < j' < |tasks|
          ensures tasks[j'].taskNo != no
        {
          if j' < |f| {
            assert tasks[j'] == f[j'];
          }
        }
      }
    }
  }

  /** The loop that fills `idMap`. */
  method BuildIdMap(tasks: seq<Task>) returns (m: map<string, nat>)
    ensures m == IdMap(tasks)
  {
    m := map[];
    var i := 0;
    while i < |tasks|
      invariant 0 <= i <= |tasks|
      invariant m == IdMap(tasks[..i])
    {
      var t := tasks[i];
      assert tasks[..i + 1][..i] == tasks[..i];
      if t.taskNo != "" {
        m := m[t.taskNo := t.id];
      }
      i := i + 1;
    }
    assert tasks[..i] == tasks;
  }

  /** `.map(x => x.trim()).filter(Boolean)` on the `;`-separated parts. */
  function Tokens(parts: seq<string>): (toks: seq<string>)
    ensures forall k :: 0 <= k < |toks| ==> toks[k] != "" && IsTrimmed(toks[k])
  {
    if parts == [] then []
    else
      var front := Tokens(parts[..|parts| - 1]);
      var x := Trim(Last(parts));
      if x != "" then front + [x] else front
  }

  /** The ids the tokens resolve to, in token order, skipping unknown
      numbers and the task `self` itself. */
  function ResolveIds(m: map<string, nat>, toks: seq<string>, self: nat): seq<nat>
  {
    if toks == [] then []
    else
      var front := ResolveIds(m, toks[..|toks| - 1], self);
      var pid := Last(toks);
      if pid in m && m[pid] != self then front + [m[pid]] else front
  }

  /** The successors of a task with id `self` and successor cell `raw`. */
  function SuccessorsOf(m: map<string, nat>, raw: string, self: nat): seq<nat>
  {
    if raw == "" then [] else ResolveIds(m, Tokens(Split(raw, ';')), self)
  }

  /** Each resolved id is the lookup of some token and is not the task
      itself; each token that names another task is resolved. */
  lemma {:induction false} ResolveIdsSpec(m: map<string, nat>, toks: seq<string>, self: nat)
    ensures |ResolveIds(m, toks, self)| <= |toks|
    ensures forall s :: s in ResolveIds(m, toks, self) <==>
      s != self && exists k :: 0 <= k < |toks| && toks[k] in m && m[toks[k]] == s
  {
    if toks != [] {
      var f := toks[..|toks| - 1];
      ResolveIdsSpec(m, f, self);
      FrontLast(toks);
      forall s
        ensures s in ResolveIds(m, toks, self) <==>
          s != self && exists k :: 0 <= k < |toks| && toks[k] in m && m[toks[k]] == s
      {
        if exists k :: 0 <= k < |toks| && toks[k] in m && m[toks[k]] == s {
          var k :| 0 <= k < |toks| && toks[k] in m && m[toks[k]] == s;
          if k < |f| {
            assert f[k] == toks[k];
          }
        }
        if exists k :: 0 <= k < |f| && f[k] in m && m[f[k]] == s {
          var k :| 0 <= k < |f| && f[k] in m && m[f[k]] == s;
          assert toks[k] == f[k];
        }
      }
    }
  }

  /** The tasks with their successors filled in. */
  function Resolved(tasks: seq<Task>, m: map<string, nat>): (rs: seq<Task>)
    ensures |rs| == |tasks|
  {
    seq(|tasks|, i requires 0 <= i < |tasks| =>
      tasks[i].(successors := SuccessorsOf(m, tasks[i].successorsRaw, tasks[i].id)))
  }

  /** The second pass: for each task, split its successor cell and look
      every token up. */
  method ResolveSuccessors(tasks: seq<Task>, m: map<string, nat>) returns (out: seq<Task>)
    ensures out == Resolved(tasks, m)
  {
    out := [];
    var i := 0;
    while i < |tasks|
      invariant 0 <= i <= |tasks|
      invariant out == Resolved(tasks, m)[..i]
    {
      var t := tasks[i];
      var succ := ResolveOne(t.successorsRaw, m, t.id);
      assert Resolved(tasks, m)[..i + 1] == Resolved(tasks, m)[..i] + [t.(successors := succ)];
      out := out + [t.(successors := succ)];
      i := i + 1;
    }
    assert Resolved(tasks, m)[..i] == Resolved(tasks, m);
  }

  /** The token loop for one task. */
  method ResolveOne(raw: string, m: map<string, nat>, self: nat) returns (succ: seq<nat>)
    ensures succ == SuccessorsOf(m, raw, self)
  {
    succ := [];
    if raw == "" {
      return;
    }
    var parts := Tokens(Split(raw, ';'));
    var j := 0;
    while j < |parts|
      invariant 0 <= j <= |parts|
      invariant succ == ResolveIds(m, parts[..j], self)
    {
      var pid := parts[j];
      ResolveIdsStep(m, parts, j, self);
      if pid in m && m[pid] != self {
        succ := succ + [m[pid]];
      }
      j := j + 1;
    }
    assert parts[..j] == parts;
  }

  lemma ResolveIdsStep(m: map<string, nat>, toks: seq<string>, j: nat, self: nat)
    requires j < |toks|
    ensures ResolveIds(m, toks[..j + 1], self)
      == ResolveIds(m, toks[..j], self) + (if toks[j] in m && m[toks[j]] != self then [m[toks[j]]] else [])
  {
    assert toks[..j + 1][..j] == toks[..j];
  }

  // ---------------------------------------------------------------------
  // Grouping

  /** `t.cat || '(未分類)'`. */
  function CatKeyOf(t: Task): string
  {
    if t.cat == "" then Uncategorised else t.cat
  }

  /** The group comparator: rank in the category order, then name. */
  function GroupLe(lc: (string, string) -> int): (Group, Group) -> bool
  {
    (a: Group, b: Group) =>
      CatRank(a.cat) < CatRank(b.cat) || (CatRank(a.cat) == CatRank(b.cat) && lc(a.cat, b.cat) <= 0)
  }

  /** The item comparator: viewpoint name. */
  function SubLe(lc: (string, string) -> int): (Task, Task) -> bool
  {
    (x: Task, y: Task) => lc(x.sub, y.sub) <= 0
  }

  lemma GroupLePreorder(lc: (string, string) -> int)
    requires Collation(lc)
    ensures TotalPreorder(GroupLe(lc))
  {
    var le := (a: string, b: string) => lc(a, b) <= 0;
    var gl := GroupLe(lc);
    forall a: Group, b: Group
      ensures gl(a, b) || gl(b, a)
    {
      assert le(a.cat, b.cat) || le(b.cat, a.cat);
    }
    forall a: Group, b: Group, c: Group | gl(a, b) && gl(b, c)
      ensures gl(a, c)
    {
      if CatRank(a.cat) == CatRank(b.cat) == CatRank(c.cat) {
        assert le(a.cat, b.cat) && le(b.cat, c.cat);
        assert le(a.cat, c.cat);
      }
    }
  }

  lemma SubLePreorder(lc: (string, string) -> int)
    requires Collation(lc)
    ensures TotalPreorder(SubLe(lc))
  {
    var le := (a: string, b: string) => lc(a, b) <= 0;
    var sl := SubLe(lc);
    forall x: Task, y: Task
      ensures sl(x, y) || sl(y, x)
    {
      assert le(x.sub, y.sub) || le(y.sub, x.sub);
    }
    forall x: Task, y: Task, z: Task | sl(x, y) && sl(y, z)
      ensures sl(x, z)
    {
      assert le(x.sub, y.sub) && le(y.sub, z.sub);
      assert le(x.sub, z.sub);
    }
  }

  /** `Array.from(map.entries())`: one group per category key, in first
      occurrence order, holding that key's tasks in task order. */
  function Buckets(tasks: seq<Task>): (gs: seq<Group>)
  {
    var ks := KeysInOrder(tasks, CatKeyOf);
    seq(|ks|, i requires 0 <= i < |ks| => Group(ks[i], Members(tasks, ks[i], CatKeyOf)))
  }

  /** Sorts one group's items by viewpoint. */
  function SortItems(g: Group, lc: (string, string) -> int): Group
  {
    Group(g.cat, SortBy(g.items, SubLe(lc)))
  }

  /** `groups`: the buckets sorted by category, each one's items sorted
      by viewpoint. */
  function GroupsOf(tasks: seq<Task>, lc: (string, string) -> int): (gs: seq<Group>)
  {
    var sorted := SortBy(Buckets(tasks), GroupLe(lc));
    seq(|sorted|, i requires 0 <= i < |sorted| => SortItems(sorted[i], lc))
  }

  /** The buckets are distinct, one per key. */
  lemma BucketsDistinct(tasks: seq<Task>)
    ensures Distinct(Buckets(tasks))
    ensures forall p :: 0 <= p < |Buckets(tasks)| ==> Buckets(tasks)[p].cat == KeysInOrder(tasks, CatKeyOf)[p]
  {
    var ks := KeysInOrder(tasks, CatKeyOf);
    KeysInOrderSpec(tasks, CatKeyOf);
    var bs := Buckets(tasks);
    forall p, q | 0 <= p < q < |bs|
      ensures bs[p] != bs[q]
    {
      assert bs[p].cat == ks[p] && bs[q].cat == ks[q];
    }
  }

  /** Each group is one bucket with its items reordered. */
  lemma GroupFromBucket(tasks: seq<Task>, lc: (string, string) -> int, i: int)
    requires 0 <= i < |GroupsOf(tasks, lc)|
    ensures exists p :: (0 <= p < |Buckets(tasks)|
      && GroupsOf(tasks, lc)[i].cat == Buckets(tasks)[p].cat
      && multiset(GroupsOf(tasks, lc)[i].items) == multiset(Buckets(tasks)[p].items))
  {
    var bs := Buckets(tasks);
    var sorted := SortBy(bs, GroupLe(lc));
    SortByPerm(bs, GroupLe(lc));
    assert sorted[i] in multiset(bs);
    var p :| 0 <= p < |bs| && bs[p] == sorted[i];
    SortByPerm(sorted[i].items, SubLe(lc));
  }

  /** Groups partition the tasks: category keys are distinct; every item
      is a task filed under its own key; every task is in some group. */
  lemma GroupsPartition(tasks: seq<Task>, lc: (string, string) -> int)
    ensures forall i, j :: 0 <= i < j < |GroupsOf(tasks, lc)| ==> GroupsOf(tasks, lc)[i].cat != GroupsOf(tasks, lc)[j].cat
    ensures forall i, t :: 0 <= i < |GroupsOf(tasks, lc)| && t in GroupsOf(tasks, lc)[i].items ==>
      t in tasks && CatKeyOf(t) == GroupsOf(tasks, lc)[i].cat
    ensures forall t :: t in tasks ==> exists i :: 0 <= i < |GroupsOf(tasks, lc)| && t in GroupsOf(tasks, lc)[i].items
  {
    GroupCatsDistinct(tasks, lc);
    GroupItemsBelong(tasks, lc);
    TasksGrouped(tasks, lc);
  }

  lemma GroupCatsDistinct(tasks: seq<Task>, lc: (string, string) -> int)
    ensures forall i, j :: 0 <= i < j < |GroupsOf(tasks, lc)| ==> GroupsOf(tasks, lc)[i].cat != GroupsOf(tasks, lc)[j].cat
  {
    var bs := Buckets(tasks);
    var sorted := SortBy(bs, GroupLe(lc));
    var gs := GroupsOf(tasks, lc);
    BucketsDistinct(tasks);
    SortByPerm(bs, GroupLe(lc));
    PermDistinct(bs, sorted);
    KeysInOrderSpec(tasks, CatKeyOf);
    forall i, j | 0 <= i < j < |gs|
      ensures gs[i].cat != gs[j].cat
    {
      assert sorted[i] in multiset(bs) && sorted[j] in multiset(bs);
      var p :| 0 <= p < |bs| && bs[p] == sorted[i];
      var q :| 0 <= q < |bs| && bs[q] == sorted[j];
      assert p != q;
    }
  }

  lemma GroupItemsBelong(tasks: seq<Task>, lc: (string, string) -> int)
    ensures forall i, t :: 0 <= i < |GroupsOf(tasks, lc)| && t in GroupsOf(tasks, lc)[i].items ==>
      t in tasks && CatKeyOf(t) == GroupsOf(tasks, lc)[i].cat
  {
    var gs := GroupsOf(tasks, lc);
    var bs := Buckets(tasks);
    forall i, t | 0 <= i < |gs| && t in gs[i].items
      ensures t in tasks && CatKeyOf(t) == gs[i].cat
    {
      GroupFromBucket(tasks, lc, i);
      var p :| 0 <= p < |bs| && gs[i].cat == bs[p].cat && multiset(gs[i].items) == multiset(bs[p].items);
      assert t in multiset(bs[p].items);
      MembersSpec(tasks, bs[p].cat, CatKeyOf);
    }
  }

  lemma TasksGrouped(tasks: seq<Task>, lc: (string, string) -> int)
    ensures forall t :: t in tasks ==> exists i :: 0 <= i < |GroupsOf(tasks, lc)| && t in GroupsOf(tasks, lc)[i].items
  {
    var bs := Buckets(tasks);
    var gs := GroupsOf(tasks, lc);
    forall t | t in tasks
      ensures exists i :: 0 <= i < |gs| && t in gs[i].items
    {
      TaskInBucket(tasks, t);
      var p :| 0 <= p < |bs| && t in bs[p].items;
      BucketToGroup(tasks, lc, p);
      var i :| 0 <= i < |gs| && multiset(gs[i].items) == multiset(bs[p].items);
      assert t in multiset(gs[i].items);
    }
  }

  /** Every task is in the bucket of its category. */
  lemma TaskInBucket(tasks: seq<Task>, t: Task)
    requires t in tasks
    ensures exists p :: 0 <= p < |Buckets(tasks)| && t in Buckets(tasks)[p].items
  {
    var ks := KeysInOrder(tasks, CatKeyOf);
    KeysInOrderSpec(tasks, CatKeyOf);
    var k :| 0 <= k < |tasks| && tasks[k] == t;
    assert HasKey(tasks, CatKeyOf(t), CatKeyOf);
    var p :| 0 <= p < |ks| && ks[p] == CatKeyOf(t);
    MembersSpec(tasks, ks[p], CatKeyOf);
    assert Buckets(tasks)[p].items == Members(tasks, ks[p], CatKeyOf);
  }

  /** Every bucket becomes a group with the same items. */
  lemma BucketToGroup(tasks: seq<Task>, lc: (string, string) -> int, p: int)
    requires 0 <= p < |Buckets(tasks)|
    ensures exists i :: 0 <= i < |GroupsOf(tasks, lc)| && multiset(GroupsOf(tasks, lc)[i].items) == multiset(Buckets(tasks)[p].items)
  {
    var bs := Buckets(tasks);
    var sorted := SortBy(bs, GroupLe(lc));
    SortByPerm(bs, GroupLe(lc));
    assert bs[p] in multiset(sorted);
    var i :| 0 <= i < |sorted| && sorted[i] == bs[p];
    SortByPerm(sorted[i].items, SubLe(lc));
    assert GroupsOf(tasks, lc)[i] == SortItems(sorted[i], lc);
  }

  /** Groups come in category order (rank, then name), and each group's
      items in viewpoint order, stably: items with equal viewpoints keep
      their task order. */
  lemma GroupsOrdered(tasks: seq<Task>, lc: (string, string) -> int, i: int, p: Task)
    requires Collation(lc)
    requires 0 <= i < |GroupsOf(tasks, lc)|
    ensures Sorted(GroupsOf(tasks, lc), GroupLe(lc))
    ensures Sorted(GroupsOf(tasks, lc)[i].items, SubLe(lc))
    ensures TiesWith(GroupsOf(tasks, lc)[i].items, p, SubLe(lc))
      == TiesWith(Members(tasks, GroupsOf(tasks, lc)[i].cat, CatKeyOf), p, SubLe(lc))
  {
    GroupLePreorder(lc);
    SubLePreorder(lc);
    var bs := Buckets(tasks);
    var sorted := SortBy(bs, GroupLe(lc));
    var gs := GroupsOf(tasks, lc);
    SortBySpec(bs, GroupLe(lc));
    forall a, b | 0 <= a < b < |gs|
      ensures GroupLe(lc)(gs[a], gs[b])
    {
      assert gs[a].cat == sorted[a].cat && gs[b].cat == sorted[b].cat;
      assert GroupLe(lc)(sorted[a], sorted[b]);
    }
    assert sorted[i] in multiset(bs);
    var q :| 0 <= q < |bs| && bs[q] == sorted[i];
    assert bs[q].items == Members(tasks, bs[q].cat, CatKeyOf);
    SortBySpec(sorted[i].items, SubLe(lc));
    SortByStable(sorted[i].items, p, SubLe(lc));
  }

  // ---------------------------------------------------------------------
  // Viewpoint collapse state

  /** The `subgroupKeys` set, built group by group with a per-group `seen`
      set of viewpoint names. */
  method SubgroupKeySet(groups: seq<Group>) returns (keys: set<string>)
    ensures keys == KeySetOf(groups)
  {
    keys := {};
    var gi := 0;
    while gi < |groups|
      invariant 0 <= gi <= |groups|
      invariant forall k :: k in keys <==> k in SubgroupKeyList(groups[..gi])
    {
      var g := groups[gi];
      assert groups[..gi + 1][..gi] == groups[..gi];
      assert SubgroupKeyList(groups[..gi + 1]) == SubgroupKeyList(groups[..gi]) + GroupSubKeys(g);
      keys := AddGroupKeys(keys, g);
      gi := gi + 1;
    }
    assert groups[..gi] == groups;
  }

  /** The loop over one group's tasks in `subgroupKeys`: adds the key of
      each viewpoint name the first time the `seen` set meets it. */
  method AddGroupKeys(keys0: set<string>, g: Group) returns (keys: set<string>)
    ensures forall k :: k in keys <==> k in keys0 || k in GroupSubKeys(g)
  {
    keys := keys0;
    var seen: set<string> := {};
    var ti := 0;
    while ti < |g.items|
      invariant 0 <= ti <= |g.items|
      invariant forall n :: n in seen <==> n in KeysInOrder(g.items[..ti], SubNameOf)
      invariant forall k :: k in keys <==> k in keys0 || k in Prefixed(g.cat, KeysInOrder(g.items[..ti], SubNameOf))
    {
      var t := g.items[ti];
      assert g.items[..ti + 1] == g.items[..ti] + [t];
      var names := KeysInOrder(g.items[..ti], SubNameOf);
      KeysInOrderSnoc(g.items[..ti], t, SubNameOf);
      var subName := SubNameOf(t);
      if subName !in seen {
        seen := seen + {subName};
        keys := keys + {SubKey(g.cat, subName)};
        PrefixedSnoc(g.cat, names, subName);
      }
      ti := ti + 1;
    }
    assert g.items[..ti] == g.items;
  }

  /** The viewpoint keys of `groups`, as a set. */
  function KeySetOf(groups: seq<Group>): set<string>
  {
    set k | k in SubgroupKeyList(groups)
  }

  lemma PrefixedSnoc(cat: string, names: seq<string>, n: string)
    ensures Prefixed(cat, names + [n]) == Prefixed(cat, names) + [SubKey(cat, n)]
  {
    assert (names + [n])[..|names|] == names;
  }

  /** The pruning loop: keeps the previously collapsed keys that still
      exist. */
  method KeepCollapsed(prev: set<string>, keys: set<string>) returns (next: set<string>)
    ensures next == prev * keys
  {
    next := {};
    var rest := keys;
    while rest != {}
      invariant rest <= keys
      invariant next == (keys - rest) * prev
      decreases |rest|
    {
      var key :| key in rest;
      if key in prev {
        next := next + {key};
      }
      rest := rest - {key};
    }
  }

  // ---------------------------------------------------------------------
  // The whole build

  /** The validation steps: the tasks the parsed rows yield, or the first
      error met. */
  function TasksOf(rows: seq<seq<string>>): (r: Result<seq<Task>, string>)
    ensures r.Success? ==> r.value != []
  {
    if rows == [] then Failure(EmptyCsv)
    else
      var c := ColumnsOf(NormHeaders(rows[0]));
      if !HasRequired(c) then Failure(MissingHeaders)
      else
        var ts := Survivors(Drafts(rows[1..], c));
        if ts == [] then Failure(NoTasks) else Success(ts)
  }

  /** The model built from the surviving tasks, keeping `dayWidth`: the
      start is padded by LEFT_START_PAD_DAYS, the end is not. */
  function ModelOf(ts: seq<Task>, lc: (string, string) -> int, dayWidth: int): Model
    requires ts != []
  {
    var tasks := Resolved(ts, IdMap(ts));
    Model(tasks, GroupsOf(tasks, lc), Some(MinStart(ts).value - LeftStartPadDays), MaxEnd(ts), dayWidth)
  }

  /** The model `text` builds, or the error message. */
  function Build(text: string, lc: (string, string) -> int, dayWidth: int): Result<Model, string>
  {
    match TasksOf(Parse(text))
    case Failure(e) => Failure(e)
    case Success(ts) => Success(ModelOf(ts, lc, dayWidth))
  }


  /** Header and row validation, throwing at the first problem. */
  method ValidateRows(rows: seq<seq<string>>) returns (r: Result<seq<Task>, string>)
    ensures r == TasksOf(rows)
  {
    if |rows| == 0 {
      return Failure(EmptyCsv);
    }
    var header := NormHeaders(rows[0]);
    var c := FindColumns(header);
    if c.cat < 0 || c.start < 0 || c.end < 0 {
      return Failure(MissingHeaders);
    }
    var rows2 := Survivors(Drafts(rows[1..], c));
    if |rows2| == 0 {
      return Failure(NoTasks);
    }
    return Success(rows2);
  }

  /** Span scan, successor resolution and grouping. */
  method MakeModel(rows2: seq<Task>, lc: (string, string) -> int, dayWidth: int) returns (m: Model)
    requires rows2 != []
    ensures m == ModelOf(rows2, lc, dayWidth)
  {
    var min, max := ItemSpan(rows2);
    var idMap := BuildIdMap(rows2);
    var tasks := ResolveSuccessors(rows2, idMap);
    var groups := GroupTasks(tasks, lc);
    m := Model(tasks, groups, Some(min.value - LeftStartPadDays), max, dayWidth);
  }

  /** The category map, sorted, with each group's items sorted. */
  method GroupTasks(tasks: seq<Task>, lc: (string, string) -> int) returns (groups: seq<Group>)
    ensures groups == GroupsOf(tasks, lc)
  {
    var order, buckets := BucketBy(tasks, CatKeyOf);
    var entries := seq(|order|, i requires 0 <= i < |order| => Group(order[i], buckets[order[i]]));
    ghost var bs := Buckets(tasks);
    assert |entries| == |bs|;
    forall i | 0 <= i < |entries|
      ensures entries[i] == bs[i]
    {
    }
    assert entries == bs;
    var sorted := SortBy(entries, GroupLe(lc));
    groups := seq(|sorted|, i requires 0 <= i < |sorted| => SortItems(sorted[i], lc));
    ghost var gs := GroupsOf(tasks, lc);
    assert |groups| == |gs|;
    forall i | 0 <= i < |groups|
      ensures groups[i] == gs[i]
    {
    }
    assert groups == gs;
  }

  /** Parsing, validation and model construction. */
  method Rebuild(text: string, lc: (string, string) -> int, dayWidth: int) returns (r: Result<Model, string>)
    ensures r == Build(text, lc, dayWidth)
  {
    var rows := ParseCSV(text);
    var v := ValidateRows(rows);
    if v.Failure? {
      return Failure(v.error);
    }
    var m := MakeModel(v.value, lc, dayWidth);
    return Success(m);
  }

  /** `buildModel`: on an error the state is left as it was; otherwise the
      model is replaced (keeping the day width) and the collapsed
      viewpoints become all keys on the first build and the surviving
      ones on later builds. */
  method BuildModel(st: AppState, text: string, lc: (string, string) -> int) returns (error: Option<string>)
    modifies st
    ensures Build(text, lc, old(st.model.dayWidth)).Failure? ==>
      error == Some(Build(text, lc, old(st.model.dayWidth)).error) && unchanged(st)
    ensures Build(text, lc, old(st.model.dayWidth)).Success? ==>
      error == None && st.subsInitialized
      && st.collapsedCats == old(st.collapsedCats) && st.hideTaskRows == old(st.hideTaskRows)
      && st.collapsedSubs == (if old(st.subsInitialized) then old(st.collapsedSubs) * KeySetOf(st.model.groups) else KeySetOf(st.model.groups))
      && st.model == Build(text, lc, old(st.model.dayWidth)).value
    ensures old(st.Valid()) ==> st.Valid()
  {
    var r := Rebuild(text, lc, st.model.dayWidth);
    if r.Failure? {
      return Some(r.error);
    }
    var m := r.value;
    BuildValid(text, lc, st.model.dayWidth);
    var keys := SubgroupKeySet(m.groups);
    var subs := keys;
    if st.subsInitialized {
      subs := KeepCollapsed(st.collapsedSubs, keys);
    }
    st.Install(m, subs);
    return None;
  }

  /** A built model satisfies the state invariant whenever the day width
      does: its span covers the padding plus at least one day. */
  lemma BuildValid(text: string, lc: (string, string) -> int, dayWidth: int)
    requires Build(text, lc, dayWidth).Success?
    ensures Build(text, lc, dayWidth).value.tasks != []
    ensures Build(text, lc, dayWidth).value.dayWidth == dayWidth
    ensures Build(text, lc, dayWidth).value.min.Some? && Build(text, lc, dayWidth).value.max.Some?
    ensures Build(text, lc, dayWidth).value.min.value + LeftStartPadDays <= Build(text, lc, dayWidth).value.max.value
  {
    var ts := TasksOf(Parse(text)).value;
    assert Build(text, lc, dayWidth) == Success(ModelOf(ts, lc, dayWidth));
    TasksSpans(Parse(text));
    SpanOrdered(ts);
  }

  /** Validated tasks never end before they start. */
  lemma TasksSpans(rows: seq<seq<string>>)
    requires TasksOf(rows).Success?
    ensures TasksOf(rows).value != []
    ensures forall i :: 0 <= i < |TasksOf(rows).value| ==> TasksOf(rows).value[i].start <= TasksOf(rows).value[i].end
  {
    var c := ColumnsOf(NormHeaders(rows[0]));
    SurvivorsSpans(Drafts(rows[1..], c));
  }

  /** Tasks that never end before they start end no earlier than the
      earliest of them starts. */
  lemma SpanOrdered(ts: seq<Task>)
    requires ts != []
    requires forall i :: 0 <= i < |ts| ==> ts[i].start <= ts[i].end
    ensures MinStart(ts).value <= MaxEnd(ts).value
  {
    MinStartSpec(ts);
    MaxEndSpec(ts);
    var k :| 0 <= k < |ts| && ts[k].start == MinStart(ts).value;
    assert ts[k].end <= MaxEnd(ts).value;
  }
}
