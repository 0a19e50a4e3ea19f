/** The row list the renderer builds from the model before it draws
    anything (js/renderer.js, `render`): a head row per category, then
    either the category's milestones or, viewpoint by viewpoint, a head row
    and the task and sub-task rows. */
module Rows {
  import opened Wrappers
  import opened Seqs
  import opened Sorting
  import opened Dates
  import opened Constants
  import opened Tasks
  import opened RenderHelpers
  import opened State

  /** The three kinds of leaf row. */
  datatype LeafKind = TaskLeaf | SubtaskLeaf | MilestoneLeaf

  /** A row of the chart. Every row carries the category it belongs to. */
  datatype Row =
    | GroupRow(cat: string, items: seq<Task>)
    | SubgroupRow(cat: string, sub: string, key: string, items: seq<Task>)
    | LeafRow(kind: LeafKind, cat: string, item: Task, displayName: string)

  /** The label of a leaf row: the task name for task rows, `sub || name`
      for sub-task rows and `sub || task || name` for milestones. */
  function DisplayName(kind: LeafKind, t: Task): string
  {
    match kind
    case TaskLeaf => t.task
    case SubtaskLeaf => if t.sub != "" then t.sub else t.name
    case MilestoneLeaf => if t.sub != "" then t.sub else if t.task != "" then t.task else t.name
  }

  /** One leaf row of kind `kind` per task of `ts`, in order. */
  function Leaves(kind: LeafKind, cat: string, ts: seq<Task>): seq<Row>
  {
    if ts == [] then []
    else Leaves(kind, cat, ts[..|ts| - 1]) + [LeafRow(kind, cat, Last(ts), DisplayName(kind, Last(ts)))]
  }

  // -----------------------------------------------------------------------
  // Viewpoint buckets

  /** An entry of `subsArr`: a viewpoint, its tasks and their earliest
      start. */
  datatype SubBucket = SubBucket(subName: string, items: seq<Task>, minS: Option<Day>)

  /** `Array.from(bySub.entries())` with the earliest starts: one bucket per
      viewpoint name in first-occurrence order. */
  function SubBucketsOf(items: seq<Task>): seq<SubBucket>
  {
    var ns := KeysInOrder(items, SubNameOf);
    seq(|ns|, i requires 0 <= i < |ns| =>
      SubBucket(ns[i], Members(items, ns[i], SubNameOf), MinStart(Members(items, ns[i], SubNameOf))))
  }

  /** `a` comes strictly before `b` when a missing start counts as
      infinitely late. */
  predicate EarlierStart(a: Option<Day>, b: Option<Day>) {
    a.Some? && (b.None? || a.value < b.value)
  }

  /** The `subsArr` comparator: earliest start, then viewpoint name. */
  predicate BucketBefore(lc: (string, string) -> int, a: SubBucket, b: SubBucket) {
    EarlierStart(a.minS, b.minS) || (a.minS == b.minS && lc(a.subName, b.subName) <= 0)
  }

  /** The comparator as the relation the sort uses. */
  function BucketLe(lc: (string, string) -> int): (SubBucket, SubBucket) -> bool
  {
    (a: SubBucket, b: SubBucket) => BucketBefore(lc, a, b)
  }

  lemma BucketLePreorder(lc: (string, string) -> int)
    requires Collation(lc)
    ensures TotalPreorder(BucketLe(lc))
  {
    var le := (a: string, b: string) => lc(a, b) <= 0;
    var bl := BucketLe(lc);
    forall a: SubBucket, b: SubBucket
      ensures bl(a, b) || bl(b, a)
    {
      assert le(a.subName, b.subName) || le(b.subName, a.subName);
    }
    forall a: SubBucket, b: SubBucket, c: SubBucket | bl(a, b) && bl(b, c)
      ensures bl(a, c)
    {
      assert BucketBefore(lc, a, b) && BucketBefore(lc, b, c);
      if a.minS == b.minS == c.minS {
        assert !EarlierStart(a.minS, b.minS) && !EarlierStart(b.minS, c.minS);
        assert le(a.subName, b.subName) && le(b.subName, c.subName);
        assert le(a.subName, c.subName);
      }
    }
  }

  /** The viewpoint buckets in display order. */
  function SortedBuckets(items: seq<Task>, lc: (string, string) -> int): seq<SubBucket>
  {
    SortBy(SubBucketsOf(items), BucketLe(lc))
  }

  /** Each bucket is a distinct viewpoint holding exactly the tasks of that
      viewpoint, its start is their earliest start, and every task lies in
      the bucket of its viewpoint; a bucket is never empty, so the
      infinitely late start never occurs. */
  lemma SubBucketsSpec(items: seq<Task>)
    ensures forall i, j :: 0 <= i < j < |SubBucketsOf(items)| ==> SubBucketsOf(items)[i].subName != SubBucketsOf(items)[j].subName
    ensures forall i :: 0 <= i < |SubBucketsOf(items)| ==>
      var b := SubBucketsOf(items)[i];
      b.items != [] && b.minS.Some?
      && (forall t :: t in b.items <==> t in items && SubNameOf(t) == b.subName)
    ensures forall t :: t in items ==> exists i :: 0 <= i < |SubBucketsOf(items)| && SubBucketsOf(items)[i].subName == SubNameOf(t)
  {
    var bs := SubBucketsOf(items);
    var ns := KeysInOrder(items, SubNameOf);
    KeysInOrderSpec(items, SubNameOf);
    forall i | 0 <= i < |bs|
      ensures bs[i].items != [] && bs[i].minS.Some?
      ensures forall t :: t in bs[i].items <==> t in items && SubNameOf(t) == bs[i].subName
    {
      MembersSpec(items, ns[i], SubNameOf);
      assert HasKey(items, ns[i], SubNameOf);
      var k :| 0 <= k < |items| && SubNameOf(items[k]) == ns[i];
      assert items[k] in bs[i].items;
    }
    forall t | t in items
      ensures exists i :: 0 <= i < |bs| && bs[i].subName == SubNameOf(t)
    {
      var k :| 0 <= k < |items| && items[k] == t;
      assert HasKey(items, SubNameOf(t), SubNameOf);
      var i :| 0 <= i < |ns| && ns[i] == SubNameOf(t);
      assert bs[i].subName == SubNameOf(t);
    }
  }

  /** The display order is a permutation of the buckets sorted by earliest
      start and then by name. */
  lemma SortedBucketsSpec(items: seq<Task>, lc: (string, string) -> int)
    requires Collation(lc)
    ensures Sorted(SortedBuckets(items, lc), BucketLe(lc))
    ensures multiset(SortedBuckets(items, lc)) == multiset(SubBucketsOf(items))
  {
    BucketLePreorder(lc);
    SortBySpec(SubBucketsOf(items), BucketLe(lc));
  }

  // -----------------------------------------------------------------------
  // Rows of one viewpoint

  /** `!!it.task`. */
  function HasTaskName(t: Task): bool
  {
    t.task != ""
  }

  /** `items.some(it => it.task)`. */
  predicate WithTask(items: seq<Task>) {
    exists k :: 0 <= k < |items| && items[k].task != ""
  }

  /** The task rows of a viewpoint, sorted; none while task rows are
      hidden or when no task of the viewpoint has a task name. */
  function TaskPart(b: SubBucket, hideTasks: bool, lc: (string, string) -> int): seq<Task>
  {
    if WithTask(b.items) && !hideTasks then SortBy(Members(b.items, true, HasTaskName), ByStartThenName(lc)) else []
  }

  /** The sub-task rows of a viewpoint, sorted. */
  function PlainPart(b: SubBucket, lc: (string, string) -> int): seq<Task>
  {
    SortBy(Members(b.items, false, HasTaskName), ByStartThenName(lc))
  }

  /** The rows under a viewpoint head. */
  function LeafRows(cat: string, b: SubBucket, hideTasks: bool, lc: (string, string) -> int): seq<Row>
  {
    Leaves(TaskLeaf, cat, TaskPart(b, hideTasks, lc)) + Leaves(SubtaskLeaf, cat, PlainPart(b, lc))
  }

  /** A viewpoint's head row and, unless its key is collapsed, its leaves. */
  function BucketRows(cat: string, b: SubBucket, subs: set<string>, hideTasks: bool, lc: (string, string) -> int): seq<Row>
  {
    var key := SubKey(cat, b.subName);
    [SubgroupRow(cat, b.subName, key, b.items)] + (if key in subs then [] else LeafRows(cat, b, hideTasks, lc))
  }

  /** The rows of a list of viewpoints, one after the other. */
  function BucketsRows(cat: string, bs: seq<SubBucket>, subs: set<string>, hideTasks: bool, lc: (string, string) -> int): seq<Row>
  {
    if bs == [] then []
    else BucketsRows(cat, bs[..|bs| - 1], subs, hideTasks, lc) + BucketRows(cat, Last(bs), subs, hideTasks, lc)
  }

  /** A category's head row and, unless the category is collapsed, its
      milestones or its viewpoints. */
  function GroupRowsOf(g: Group, cats: set<string>, subs: set<string>, hideTasks: bool, lc: (string, string) -> int): seq<Row>
  {
    [GroupRow(g.cat, g.items)]
    + (if g.cat in cats then []
       else if g.cat == Milestone then Leaves(MilestoneLeaf, g.cat, g.items)
       else BucketsRows(g.cat, SortedBuckets(g.items, lc), subs, hideTasks, lc))
  }

  /** The rows of all categories, in group order. */
  function RowsOf(groups: seq<Group>, cats: set<string>, subs: set<string>, hideTasks: bool, lc: (string, string) -> int): seq<Row>
  {
    if groups == [] then []
    else RowsOf(groups[..|groups| - 1], cats, subs, hideTasks, lc) + GroupRowsOf(Last(groups), cats, subs, hideTasks, lc)
  }

  // -----------------------------------------------------------------------
  // What the row list promises

  /** The categories of the head rows, in order. */
  function GroupHeads(rows: seq<Row>): seq<string>
  {
    if rows == [] then []
    else GroupHeads(rows[..|rows| - 1]) + (if Last(rows).GroupRow? then [Last(rows).cat] else [])
  }

  /** The tasks of the leaf rows, in order. */
  function LeafItems(rows: seq<Row>): seq<Task>
  {
    if rows == [] then []
    else LeafItems(rows[..|rows| - 1]) + (if Last(rows).LeafRow? then [Last(rows).item] else [])
  }

  /** The keys of the viewpoint head rows, in order. */
  function SubHeads(rows: seq<Row>): seq<string>
  {
    if rows == [] then []
    else SubHeads(rows[..|rows| - 1]) + (if Last(rows).SubgroupRow? then [Last(rows).key] else [])
  }

  lemma {:induction false} GroupHeadsAppend(a: seq<Row>, b: seq<Row>)
    ensures GroupHeads(a + b) == GroupHeads(a) + GroupHeads(b)
  {
    if b == [] {
      assert a + b == a;
    } else {
      var f := b[..|b| - 1];
      GroupHeadsAppend(a, f);
      assert (a + b)[..|a + b| - 1] == a + f;
    }
  }

  lemma {:induction false} LeafItemsAppend(a: seq<Row>, b: seq<Row>)
    ensures LeafItems(a + b) == LeafItems(a) + LeafItems(b)
  {
    if b == [] {
      assert a + b == a;
    } else {
      var f := b[..|b| - 1];
      LeafItemsAppend(a, f);
      assert (a + b)[..|a + b| - 1] == a + f;
    }
  }

  lemma {:induction false} SubHeadsAppend(a: seq<Row>, b: seq<Row>)
    ensures SubHeads(a + b) == SubHeads(a) + SubHeads(b)
  {
    if b == [] {
      assert a + b == a;
    } else {
      var f := b[..|b| - 1];
      SubHeadsAppend(a, f);
      assert (a + b)[..|a + b| - 1] == a + f;
    }
  }

  /** Leaf rows carry their tasks in order, under their category, and are
      not head rows. */
  lemma {:induction false} LeavesSpec(kind: LeafKind, cat: string, ts: seq<Task>)
    ensures LeafItems(Leaves(kind, cat, ts)) == ts
    ensures GroupHeads(Leaves(kind, cat, ts)) == [] && SubHeads(Leaves(kind, cat, ts)) == []
    ensures forall r :: r in Leaves(kind, cat, ts) ==> r.LeafRow? && r.kind == kind && r.cat == cat
  {
    if ts != [] {
      var f := ts[..|ts| - 1];
      LeavesSpec(kind, cat, f);
      FrontLast(ts);
    }
  }

  /** `Members` with a boolean key splits a list in two. */
  lemma {:induction false} MembersBool(xs: seq<Task>, key: Task -> bool)
    ensures multiset(Members(xs, true, key)) + multiset(Members(xs, false, key)) == multiset(xs)
  {
    if xs != [] {
      var f, x := xs[..|xs| - 1], Last(xs);
      MembersBool(f, key);
      FrontLast(xs);
      MembersSnoc(f, x, true, key);
      MembersSnoc(f, x, false, key);
      if key(x) {
        assert Members(xs, true, key) == Members(f, true, key) + [x];
        assert Members(xs, false, key) == Members(f, false, key);
      } else {
        assert Members(xs, true, key) == Members(f, true, key);
        assert Members(xs, false, key) == Members(f, false, key) + [x];
      }
    }
  }

  /** The leaves under a viewpoint head: its task rows, then its sub-task
      rows. */
  lemma LeafRowsItems(cat: string, b: SubBucket, hideTasks: bool, lc: (string, string) -> int)
    ensures LeafItems(LeafRows(cat, b, hideTasks, lc)) == TaskPart(b, hideTasks, lc) + PlainPart(b, lc)
    ensures GroupHeads(LeafRows(cat, b, hideTasks, lc)) == [] && SubHeads(LeafRows(cat, b, hideTasks, lc)) == []
    ensures forall r :: r in LeafRows(cat, b, hideTasks, lc) ==> r.LeafRow? && r.cat == cat
  {
    var a, p := Leaves(TaskLeaf, cat, TaskPart(b, hideTasks, lc)), Leaves(SubtaskLeaf, cat, PlainPart(b, lc));
    LeavesSpec(TaskLeaf, cat, TaskPart(b, hideTasks, lc));
    LeavesSpec(SubtaskLeaf, cat, PlainPart(b, lc));
    LeafItemsAppend(a, p);
    GroupHeadsAppend(a, p);
    SubHeadsAppend(a, p);
  }

  /** Each run of leaves is sorted by start, end and name. */
  lemma LeafRowsSorted(b: SubBucket, hideTasks: bool, lc: (string, string) -> int)
    requires Collation(lc)
    ensures Sorted(TaskPart(b, hideTasks, lc), ByStartThenName(lc))
    ensures Sorted(PlainPart(b, lc), ByStartThenName(lc))
  {
    var le := ByStartThenName(lc);
    ByStartThenNamePreorder(lc);
    SortBySpec(Members(b.items, true, HasTaskName), le);
    SortBySpec(Members(b.items, false, HasTaskName), le);
  }

  /** Without a task name in the viewpoint there is nothing to filter. */
  lemma NamedNone(items: seq<Task>)
    requires !WithTask(items)
    ensures Members(items, true, HasTaskName) == []
  {
    MembersNone(items, true, HasTaskName);
  }

  /** Sub-task rows hold exactly the viewpoint's tasks without a task
      name. */
  lemma PlainPartCover(b: SubBucket, lc: (string, string) -> int)
    ensures forall t :: t in PlainPart(b, lc) <==> t in b.items && t.task == ""
  {
    var plain := Members(b.items, false, HasTaskName);
    SortByPerm(plain, ByStartThenName(lc));
    MembersSpec(b.items, false, HasTaskName);
    forall t
      ensures t in PlainPart(b, lc) <==> t in b.items && t.task == ""
    {
      assert t in PlainPart(b, lc) <==> t in multiset(plain);
      assert HasTaskName(t) <==> t.task != "";
    }
  }

  /** Task rows, when shown, hold exactly the viewpoint's tasks with a
      task name. */
  lemma TaskPartCover(b: SubBucket, lc: (string, string) -> int)
    ensures forall t :: t in TaskPart(b, false, lc) <==> t in b.items && t.task != ""
  {
    var named := Members(b.items, true, HasTaskName);
    MembersSpec(b.items, true, HasTaskName);
    if !WithTask(b.items) {
      NamedNone(b.items);
    } else {
      SortByPerm(named, ByStartThenName(lc));
      forall t
        ensures t in TaskPart(b, false, lc) <==> t in b.items && t.task != ""
      {
        assert t in TaskPart(b, false, lc) <==> t in multiset(named);
        assert HasTaskName(t) <==> t.task != "";
      }
    }
  }

  /** With task rows shown, the leaves under a viewpoint head are a
      permutation of the viewpoint's tasks. */
  lemma LeavesPermute(b: SubBucket, lc: (string, string) -> int)
    ensures multiset(TaskPart(b, false, lc)) + multiset(PlainPart(b, lc)) == multiset(b.items)
  {
    var le := ByStartThenName(lc);
    var named, plain := Members(b.items, true, HasTaskName), Members(b.items, false, HasTaskName);
    SortByPerm(plain, le);
    MembersBool(b.items, HasTaskName);
    if !WithTask(b.items) {
      NamedNone(b.items);
    } else {
      SortByPerm(named, le);
    }
  }

  /** The heads and leaves of a single row. */
  lemma Single(r: Row)
    ensures GroupHeads([r]) == (if r.GroupRow? then [r.cat] else [])
    ensures SubHeads([r]) == (if r.SubgroupRow? then [r.key] else [])
    ensures LeafItems([r]) == (if r.LeafRow? then [r.item] else [])
  {
    assert [r][..0] == [];
  }

  /** The rows of one viewpoint: its head and no category head. */
  lemma BucketRowsSpec(cat: string, b: SubBucket, subs: set<string>, hideTasks: bool, lc: (string, string) -> int)
    ensures GroupHeads(BucketRows(cat, b, subs, hideTasks, lc)) == []
    ensures SubHeads(BucketRows(cat, b, subs, hideTasks, lc)) == [SubKey(cat, b.subName)]
    ensures forall r :: r in BucketRows(cat, b, subs, hideTasks, lc) ==> r.cat == cat && !r.GroupRow?
  {
    var h := SubgroupRow(cat, b.subName, SubKey(cat, b.subName), b.items);
    var rest := if SubKey(cat, b.subName) in subs then [] else LeafRows(cat, b, hideTasks, lc);
    LeafRowsItems(cat, b, hideTasks, lc);
    Single(h);
    GroupHeadsAppend([h], rest);
    SubHeadsAppend([h], rest);
  }

  /** The collapse keys of a list of viewpoints, in order. */
  function BucketKeys(cat: string, bs: seq<SubBucket>): (keys: seq<string>)
    ensures |keys| == |bs|
    ensures forall i :: 0 <= i < |bs| ==> keys[i] == SubKey(cat, bs[i].subName)
  {
    if bs == [] then [] else BucketKeys(cat, bs[..|bs| - 1]) + [SubKey(cat, Last(bs).subName)]
  }

  /** The heads in the rows of a list of viewpoints: one viewpoint head
      per viewpoint, in list order, and no category head. */
  lemma {:induction false} BucketsRowsHeads(cat: string, bs: seq<SubBucket>, subs: set<string>, hideTasks: bool, lc: (string, string) -> int)
    ensures GroupHeads(BucketsRows(cat, bs, subs, hideTasks, lc)) == []
    ensures SubHeads(BucketsRows(cat, bs, subs, hideTasks, lc)) == BucketKeys(cat, bs)
  {
    if bs != [] {
      var f, b := bs[..|bs| - 1], Last(bs);
      BucketsRowsHeads(cat, f, subs, hideTasks, lc);
      var pre, cur := BucketsRows(cat, f, subs, hideTasks, lc), BucketRows(cat, b, subs, hideTasks, lc);
      BucketRowsSpec(cat, b, subs, hideTasks, lc);
      GroupHeadsAppend(pre, cur);
      SubHeadsAppend(pre, cur);
    }
  }

  /** Every row of a list of viewpoints carries the category and none is a
      category head. */
  lemma {:induction false} BucketsRowsCat(cat: string, bs: seq<SubBucket>, subs: set<string>, hideTasks: bool, lc: (string, string) -> int)
    ensures forall r :: r in BucketsRows(cat, bs, subs, hideTasks, lc) ==> r.cat == cat && !r.GroupRow?
  {
    if bs != [] {
      BucketsRowsCat(cat, bs[..|bs| - 1], subs, hideTasks, lc);
      BucketRowsSpec(cat, Last(bs), subs, hideTasks, lc);
    }
  }

  /** A category contributes exactly one head row, its own; every row it
      contributes carries its category, and a collapsed category
      contributes nothing but its head. */
  lemma GroupRowsSpec(g: Group, cats: set<string>, subs: set<string>, hideTasks: bool, lc: (string, string) -> int)
    ensures GroupHeads(GroupRowsOf(g, cats, subs, hideTasks, lc)) == [g.cat]
    ensures forall r :: r in GroupRowsOf(g, cats, subs, hideTasks, lc) ==> r.cat == g.cat
    ensures forall r :: r in GroupRowsOf(g, cats, subs, hideTasks, lc) && !r.GroupRow? ==> g.cat !in cats
  {
    var head := [GroupRow(g.cat, g.items)];
    Single(GroupRow(g.cat, g.items));
    if g.cat in cats {
      assert GroupRowsOf(g, cats, subs, hideTasks, lc) == head;
    } else if g.cat == Milestone {
      LeavesSpec(MilestoneLeaf, g.cat, g.items);
      GroupHeadsAppend(head, Leaves(MilestoneLeaf, g.cat, g.items));
    } else {
      var bs := SortedBuckets(g.items, lc);
      BucketsRowsHeads(g.cat, bs, subs, hideTasks, lc);
      BucketsRowsCat(g.cat, bs, subs, hideTasks, lc);
      GroupHeadsAppend(head, BucketsRows(g.cat, bs, subs, hideTasks, lc));
    }
  }

  /** The head rows of the whole list are the categories, one each, in
      group order. */
  lemma {:induction false} RowsHeads(groups: seq<Group>, cats: set<string>, subs: set<string>, hideTasks: bool, lc: (string, string) -> int)
    ensures |GroupHeads(RowsOf(groups, cats, subs, hideTasks, lc))| == |groups|
    ensures forall i :: 0 <= i < |groups| ==> GroupHeads(RowsOf(groups, cats, subs, hideTasks, lc))[i] == groups[i].cat
  {
    if groups != [] {
      var f := groups[..|groups| - 1];
      RowsHeads(f, cats, subs, hideTasks, lc);
      FrontLast(groups);
      GroupRowsSpec(Last(groups), cats, subs, hideTasks, lc);
      GroupHeadsAppend(RowsOf(f, cats, subs, hideTasks, lc), GroupRowsOf(Last(groups), cats, subs, hideTasks, lc));
    }
  }

  /** No row but a head row belongs to a collapsed category. */
  lemma {:induction false} CollapsedHidden(groups: seq<Group>, cats: set<string>, subs: set<string>, hideTasks: bool, lc: (string, string) -> int)
    ensures forall r :: r in RowsOf(groups, cats, subs, hideTasks, lc) && !r.GroupRow? ==> r.cat !in cats
  {
    if groups != [] {
      var f := groups[..|groups| - 1];
      CollapsedHidden(f, cats, subs, hideTasks, lc);
      GroupRowsSpec(Last(groups), cats, subs, hideTasks, lc);
    }
  }

  /** An open milestone category lists its tasks, in order, as milestone
      rows and nothing else. */
  lemma MilestoneRowsSpec(g: Group, cats: set<string>, subs: set<string>, hideTasks: bool, lc: (string, string) -> int)
    requires g.cat == Milestone && g.cat !in cats
    ensures LeafItems(GroupRowsOf(g, cats, subs, hideTasks, lc)) == g.items
    ensures forall r :: r in GroupRowsOf(g, cats, subs, hideTasks, lc) && !r.GroupRow? ==> r.LeafRow? && r.kind == MilestoneLeaf
  {
    var head := [GroupRow(g.cat, g.items)];
    Single(GroupRow(g.cat, g.items));
    LeavesSpec(MilestoneLeaf, g.cat, g.items);
    LeafItemsAppend(head, Leaves(MilestoneLeaf, g.cat, g.items));
  }

  /** Sorting the viewpoints does not change which keys they have. */
  lemma SortedBucketKeys(cat: string, items: seq<Task>, lc: (string, string) -> int)
    ensures forall k :: k in BucketKeys(cat, SortedBuckets(items, lc)) <==> k in Prefixed(cat, KeysInOrder(items, SubNameOf))
  {
    forall k
      ensures k in BucketKeys(cat, SortedBuckets(items, lc)) <==> k in Prefixed(cat, KeysInOrder(items, SubNameOf))
    {
      if k in BucketKeys(cat, SortedBuckets(items, lc)) {
        SortedHeadIsKey(cat, items, lc, k);
      }
      if k in Prefixed(cat, KeysInOrder(items, SubNameOf)) {
        KeyIsSortedHead(cat, items, lc, k);
      }
    }
  }

  lemma SortedHeadIsKey(cat: string, items: seq<Task>, lc: (string, string) -> int, k: string)
    requires k in BucketKeys(cat, SortedBuckets(items, lc))
    ensures k in Prefixed(cat, KeysInOrder(items, SubNameOf))
  {
    var ubs := SubBucketsOf(items);
    var bs := SortedBuckets(items, lc);
    var heads := BucketKeys(cat, bs);
    var keys := Prefixed(cat, KeysInOrder(items, SubNameOf));
    SortByPerm(ubs, BucketLe(lc));
    var i :| 0 <= i < |heads| && heads[i] == k;
    assert bs[i] in multiset(ubs);
    var j :| 0 <= j < |ubs| && ubs[j] == bs[i];
    assert ubs[j].subName == KeysInOrder(items, SubNameOf)[j];
    assert heads[i] == SubKey(cat, bs[i].subName);
    assert keys[j] == k;
  }

  lemma KeyIsSortedHead(cat: string, items: seq<Task>, lc: (string, string) -> int, k: string)
    requires k in Prefixed(cat, KeysInOrder(items, SubNameOf))
    ensures k in BucketKeys(cat, SortedBuckets(items, lc))
  {
    var ubs := SubBucketsOf(items);
    var bs := SortedBuckets(items, lc);
    var heads := BucketKeys(cat, bs);
    var keys := Prefixed(cat, KeysInOrder(items, SubNameOf));
    SortByPerm(ubs, BucketLe(lc));
    var j :| 0 <= j < |keys| && keys[j] == k;
    assert ubs[j] in multiset(bs);
    assert ubs[j].subName == KeysInOrder(items, SubNameOf)[j];
    var i :| 0 <= i < |bs| && bs[i] == ubs[j];
    assert heads[i] == k;
  }

  /** An open category other than the milestones has a viewpoint head for
      exactly the viewpoint keys of its tasks, which are the keys the
      viewpoint toggle works on. */
  lemma GroupSubHeads(g: Group, cats: set<string>, subs: set<string>, hideTasks: bool, lc: (string, string) -> int)
    requires g.cat !in cats && g.cat != Milestone
    ensures forall k :: k in SubHeads(GroupRowsOf(g, cats, subs, hideTasks, lc)) <==> k in GroupSubKeys(g)
  {
    var h := GroupRow(g.cat, g.items);
    var bs := SortedBuckets(g.items, lc);
    Single(h);
    BucketsRowsHeads(g.cat, bs, subs, hideTasks, lc);
    SubHeadsAppend([h], BucketsRows(g.cat, bs, subs, hideTasks, lc));
    SortedBucketKeys(g.cat, g.items, lc);
  }

  // -----------------------------------------------------------------------
  // The loops of `render` that build the list

  /** `rows.push` of one leaf row per task. */
  method PushLeaves(rows: seq<Row>, kind: LeafKind, cat: string, ts: seq<Task>) returns (out: seq<Row>)
    ensures out == rows + Leaves(kind, cat, ts)
  {
    out := rows;
    var i := 0;
    while i < |ts|
      invariant 0 <= i <= |ts|
      invariant out == rows + Leaves(kind, cat, ts[..i])
    {
      assert ts[..i + 1][..i] == ts[..i];
      out := out + [LeafRow(kind, cat, ts[i], DisplayName(kind, ts[i]))];
      i := i + 1;
    }
    assert ts[..i] == ts;
  }

  /** The `withTask` scan, which stops at the first task name. */
  method AnyTask(items: seq<Task>) returns (withTask: bool)
    ensures withTask <==> exists k :: 0 <= k < |items| && items[k].task != ""
  {
    withTask := false;
    var i := 0;
    while i < |items|
      invariant 0 <= i <= |items|
      invariant forall k :: 0 <= k < i ==> items[k].task == ""
    {
      if items[i].task != "" {
        withTask := true;
        break;
      }
      i := i + 1;
    }
  }

  /** The `minS` scan of one viewpoint. */
  method EarliestStart(items: seq<Task>) returns (minS: Option<Day>)
    ensures minS == MinStart(items)
  {
    minS := None;
    var i := 0;
    while i < |items|
      invariant 0 <= i <= |items|
      invariant minS == MinStart(items[..i])
    {
      assert items[..i + 1][..i] == items[..i];
      if minS.None? || items[i].start < minS.value {
        minS := Some(items[i].start);
      }
      i := i + 1;
    }
    assert items[..i] == items;
  }

  /** `bySub` and `subsArr` before sorting. */
  method MakeSubBuckets(items: seq<Task>) returns (arr: seq<SubBucket>)
    ensures arr == SubBucketsOf(items)
  {
    var order, bySub := BucketBy(items, SubNameOf);
    arr := [];
    var j := 0;
    while j < |order|
      invariant 0 <= j <= |order| && |arr| == j
      invariant forall k :: 0 <= k < j ==>
        arr[k] == SubBucket(order[k], Members(items, order[k], SubNameOf), MinStart(Members(items, order[k], SubNameOf)))
    {
      var its := bySub[order[j]];
      var minS := EarliestStart(its);
      arr := arr + [SubBucket(order[j], its, minS)];
      j := j + 1;
    }
    ghost var want := SubBucketsOf(items);
    assert |arr| == |want|;
    forall k | 0 <= k < |arr|
      ensures arr[k] == want[k]
    {
    }
  }

  /** The leaves of one open viewpoint pushed onto `rows`: with a task
      name in the viewpoint, its task rows unless hidden and then its
      sub-task rows; otherwise its sub-task rows alone. */
  method PushLeafRows(rows: seq<Row>, cat: string, b: SubBucket, withTask: bool, hideTasks: bool, lc: (string, string) -> int)
    returns (out: seq<Row>)
    requires withTask == WithTask(b.items)
    ensures out == rows + LeafRows(cat, b, hideTasks, lc)
  {
    var tasksInSub := SortBy(Members(b.items, true, HasTaskName), ByStartThenName(lc));
    var plainSub := SortBy(Members(b.items, false, HasTaskName), ByStartThenName(lc));
    ghost var taskRows := Leaves(TaskLeaf, cat, TaskPart(b, hideTasks, lc));
    assert plainSub == PlainPart(b, lc);
    out := rows;
    if withTask {
      if !hideTasks {
        assert TaskPart(b, hideTasks, lc) == tasksInSub;
        out := PushLeaves(out, TaskLeaf, cat, tasksInSub);
      } else {
        assert taskRows == [];
      }
      assert out == rows + taskRows;
      out := PushLeaves(out, SubtaskLeaf, cat, plainSub);
    } else {
      assert taskRows == [];
      out := PushLeaves(out, SubtaskLeaf, cat, plainSub);
    }
    AppendAssoc(rows, taskRows, Leaves(SubtaskLeaf, cat, plainSub));
  }

  /** The rows of one viewpoint pushed onto `rows`. */
  method PushBucket(rows: seq<Row>, cat: string, b: SubBucket, subs: set<string>, hideTasks: bool, lc: (string, string) -> int)
    returns (out: seq<Row>)
    ensures out == rows + BucketRows(cat, b, subs, hideTasks, lc)
  {
    var key := SubKey(cat, b.subName);
    var withTask := AnyTask(b.items);
    out := rows + [SubgroupRow(cat, b.subName, key, b.items)];
    if key in subs {
      return;
    }
    ghost var head := out;
    out := PushLeafRows(out, cat, b, withTask, hideTasks, lc);
    AppendAssoc(rows, [SubgroupRow(cat, b.subName, key, b.items)], LeafRows(cat, b, hideTasks, lc));
  }

  lemma BucketsRowsStep(cat: string, bs: seq<SubBucket>, j: nat, subs: set<string>, hideTasks: bool, lc: (string, string) -> int)
    requires j < |bs|
    ensures BucketsRows(cat, bs[..j + 1], subs, hideTasks, lc) == BucketsRows(cat, bs[..j], subs, hideTasks, lc) + BucketRows(cat, bs[j], subs, hideTasks, lc)
  {
    assert bs[..j + 1][..j] == bs[..j];
  }

  lemma RowsStep(groups: seq<Group>, i: nat, cats: set<string>, subs: set<string>, hideTasks: bool, lc: (string, string) -> int)
    requires i < |groups|
    ensures RowsOf(groups[..i + 1], cats, subs, hideTasks, lc) == RowsOf(groups[..i], cats, subs, hideTasks, lc) + GroupRowsOf(groups[i], cats, subs, hideTasks, lc)
  {
    assert groups[..i + 1][..i] == groups[..i];
  }

  /** The rows of a list of viewpoints pushed onto `rows`. */
  method PushBuckets(rows: seq<Row>, cat: string, bs: seq<SubBucket>, subs: set<string>, hideTasks: bool, lc: (string, string) -> int)
    returns (out: seq<Row>)
    ensures out == rows + BucketsRows(cat, bs, subs, hideTasks, lc)
  {
    out := rows;
    var j := 0;
    while j < |bs|
      invariant 0 <= j <= |bs|
      invariant out == rows + BucketsRows(cat, bs[..j], subs, hideTasks, lc)
    {
      BucketsRowsStep(cat, bs, j, subs, hideTasks, lc);
      AppendAssoc(rows, BucketsRows(cat, bs[..j], subs, hideTasks, lc), BucketRows(cat, bs[j], subs, hideTasks, lc));
      out := PushBucket(out, cat, bs[j], subs, hideTasks, lc);
      j := j + 1;
    }
    assert bs[..j] == bs;
  }

  /** The rows of one category pushed onto `rows`. */
  method PushGroup(rows: seq<Row>, g: Group, cats: set<string>, subs: set<string>, hideTasks: bool, lc: (string, string) -> int)
    returns (out: seq<Row>)
    ensures out == rows + GroupRowsOf(g, cats, subs, hideTasks, lc)
  {
    var head := [GroupRow(g.cat, g.items)];
    out := rows + head;
    if g.cat in cats {
      return;
    }
    if g.cat == Milestone {
      out := PushLeaves(out, MilestoneLeaf, g.cat, g.items);
      AppendAssoc(rows, head, Leaves(MilestoneLeaf, g.cat, g.items));
      return;
    }
    var arr := MakeSubBuckets(g.items);
    var subsArr := SortBy(arr, BucketLe(lc));
    out := PushBuckets(out, g.cat, subsArr, subs, hideTasks, lc);
    AppendAssoc(rows, head, BucketsRows(g.cat, subsArr, subs, hideTasks, lc));
  }

  /** The row list of `render` over the current state. */
  method SequenceRows(st: AppState, lc: (string, string) -> int) returns (rows: seq<Row>)
    ensures rows == RowsOf(st.model.groups, st.collapsedCats, st.collapsedSubs, st.hideTaskRows, lc)
  {
    var groups := st.model.groups;
    rows := [];
    var i := 0;
    while i < |groups|
      invariant 0 <= i <= |groups|
      invariant rows == RowsOf(groups[..i], st.collapsedCats, st.collapsedSubs, st.hideTaskRows, lc)
    {
      RowsStep(groups, i, st.collapsedCats, st.collapsedSubs, st.hideTaskRows, lc);
      rows := PushGroup(rows, groups[i], st.collapsedCats, st.collapsedSubs, st.hideTaskRows, lc);
      i := i + 1;
    }
    assert groups[..i] == groups;
  }
}
