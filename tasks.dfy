/** The records the model builder produces and the renderer reads: tasks,
    category groups and the chart model (js/types.d.ts), with the
    start/end/check spans the renderer computes over a list of tasks. */
module Tasks {
  import opened Wrappers
  import opened Seqs
  import opened Sorting
  import opened Dates

  /** One surviving CSV row. `id` is its position in `Model.tasks`, and
      `successors` are the ids of the tasks it points to. */
  datatype Task = Task(
    id: nat,
    cat: string,
    sub: string,
    task: string,
    name: string,
    start: Day,
    end: Day,
    check: Option<Day>,
    assignee: string,
    status: string,
    priority: string,
    taskNo: string,
    successorsRaw: string,
    successors: seq<nat>)

  /** A category and its tasks. */
  datatype Group = Group(cat: string, items: seq<Task>)

  /** The chart model: `min` and `max` are absent until a model is built. */
  datatype Model = Model(tasks: seq<Task>, groups: seq<Group>, min: Option<Day>, max: Option<Day>, dayWidth: int)

  /** The viewpoint name of a task, `t.sub || '(なし)'`. */
  function SubNameOf(t: Task): string
  {
    if t.sub == "" then "(なし)" else t.sub
  }

  /** The collapse key of a viewpoint, `${cat}::${subName}`. */
  function SubKey(cat: string, subName: string): string
  {
    cat + "::" + subName
  }

  /** The keys of the viewpoints `names` of category `cat`. */
  function Prefixed(cat: string, names: seq<string>): (keys: seq<string>)
    ensures |keys| == |names|
    ensures forall i :: 0 <= i < |names| ==> keys[i] == SubKey(cat, names[i])
  {
    if names == [] then [] else Prefixed(cat, names[..|names| - 1]) + [SubKey(cat, Last(names))]
  }

  /** The viewpoint keys of a group: one per viewpoint name, at its first
      task. */
  function GroupSubKeys(g: Group): seq<string>
  {
    Prefixed(g.cat, KeysInOrder(g.items, SubNameOf))
  }

  /** The viewpoint keys of all groups, group by group. */
  function SubgroupKeyList(groups: seq<Group>): seq<string>
  {
    if groups == [] then [] else SubgroupKeyList(groups[..|groups| - 1]) + GroupSubKeys(Last(groups))
  }

  /** Some task of group `g` has the viewpoint whose key is `key`. */
  predicate HasViewpoint(g: Group, key: string) {
    exists k :: 0 <= k < |g.items| && key == SubKey(g.cat, SubNameOf(g.items[k]))
  }

  /** A key is listed exactly when some group has a task of that viewpoint. */
  lemma {:induction false} SubgroupKeyListSpec(groups: seq<Group>, key: string)
    ensures key in SubgroupKeyList(groups) <==> exists i :: 0 <= i < |groups| && HasViewpoint(groups[i], key)
  {
    if groups != [] {
      var f, g := groups[..|groups| - 1], Last(groups);
      SubgroupKeyListSpec(f, key);
      GroupSubKeysSpec(g, key);
      assert SubgroupKeyList(groups) == SubgroupKeyList(f) + GroupSubKeys(g);
      if exists i :: 0 <= i < |f| && HasViewpoint(f[i], key) {
        var i :| 0 <= i < |f| && HasViewpoint(f[i], key);
        assert groups[i] == f[i];
      }
      if HasViewpoint(g, key) {
        assert groups[|groups| - 1] == g;
      }
      if exists i :: 0 <= i < |groups| && HasViewpoint(groups[i], key) {
        var i :| 0 <= i < |groups| && HasViewpoint(groups[i], key);
        if i < |f| {
          assert f[i] == groups[i];
        }
      }
    }
  }

  /** A group lists the key of every viewpoint name of its tasks, and no
      other key. */
  lemma GroupSubKeysSpec(g: Group, key: string)
    ensures key in GroupSubKeys(g) <==> HasViewpoint(g, key)
  {
    KeysInOrderSpec(g.items, SubNameOf);
    var names := KeysInOrder(g.items, SubNameOf);
    if key in GroupSubKeys(g) {
      var j :| 0 <= j < |names| && key == SubKey(g.cat, names[j]);
      assert HasKey(g.items, names[j], SubNameOf);
    }
    if exists k :: 0 <= k < |g.items| && key == SubKey(g.cat, SubNameOf(g.items[k])) {
      var k :| 0 <= k < |g.items| && key == SubKey(g.cat, SubNameOf(g.items[k]));
      assert HasKey(g.items, SubNameOf(g.items[k]), SubNameOf);
      var j :| 0 <= j < |names| && names[j] == SubNameOf(g.items[k]);
      assert GroupSubKeys(g)[j] == key;
    }
  }

  /** The earliest start among `items`, absent for none. */
  function MinStart(items: seq<Task>): (r: Option<Day>)
    ensures r.Some? <==> items != []
  {
    if items == [] then None
    else
      var m := MinStart(items[..|items| - 1]);
      var s := Last(items).start;
      if m.None? || s < m.value then Some(s) else m
  }

  /** The latest end among `items`, absent for none. */
  function MaxEnd(items: seq<Task>): (r: Option<Day>)
    ensures r.Some? <==> items != []
  {
    if items == [] then None
    else
      var m := MaxEnd(items[..|items| - 1]);
      var e := Last(items).end;
      if m.None? || e > m.value then Some(e) else m
  }

  /** The earliest midpoint check among `items`, absent when none has one. */
  function EarliestCheck(items: seq<Task>): Option<Day>
  {
    if items == [] then None
    else
      var m := EarliestCheck(items[..|items| - 1]);
      var c := Last(items).check;
      if c.Some? && (m.None? || c.value < m.value) then c else m
  }

  /** `MinStart` is the least start: no start is earlier, and some task
      starts then. */
  lemma {:induction false} MinStartSpec(items: seq<Task>)
    ensures MinStart(items).Some? ==>
      (forall k :: 0 <= k < |items| ==> MinStart(items).value <= items[k].start)
      && exists k :: 0 <= k < |items| && items[k].start == MinStart(items).value
  {
    if items != [] {
      var f := items[..|items| - 1];
      MinStartSpec(f);
      FrontLast(items);
      if MinStart(f).Some? {
        var k :| 0 <= k < |f| && f[k].start == MinStart(f).value;
        assert items[k] == f[k];
      }
      assert items[|items| - 1] == Last(items);
    }
  }

  /** `MaxEnd` is the greatest end, in the same sense. */
  lemma {:induction false} MaxEndSpec(items: seq<Task>)
    ensures MaxEnd(items).Some? ==>
      (forall k :: 0 <= k < |items| ==> items[k].end <= MaxEnd(items).value)
      && exists k :: 0 <= k < |items| && items[k].end == MaxEnd(items).value
  {
    if items != [] {
      var f := items[..|items| - 1];
      MaxEndSpec(f);
      FrontLast(items);
      if MaxEnd(f).Some? {
        var k :| 0 <= k < |f| && f[k].end == MaxEnd(f).value;
        assert items[k] == f[k];
      }
      assert items[|items| - 1] == Last(items);
    }
  }

  /** `EarliestCheck` is present exactly when some task has a check, and is
      then the least check. */
  lemma EarliestCheckSpec(items: seq<Task>)
    ensures EarliestCheck(items).Some? <==> exists k :: 0 <= k < |items| && items[k].check.Some?
    ensures EarliestCheck(items).Some? ==>
      (forall k :: 0 <= k < |items| && items[k].check.Some? ==> EarliestCheck(items).value <= items[k].check.value)
      && exists k :: 0 <= k < |items| && items[k].check == EarliestCheck(items)
  {
    EarliestCheckPresent(items);
    EarliestCheckLeast(items);
    EarliestCheckAttained(items);
  }

  lemma {:induction false} EarliestCheckPresent(items: seq<Task>)
    ensures EarliestCheck(items).Some? <==> exists k :: 0 <= k < |items| && items[k].check.Some?
  {
    if items != [] {
      var f := items[..|items| - 1];
      EarliestCheckPresent(f);
      if exists k :: 0 <= k < |f| && f[k].check.Some? {
        var k :| 0 <= k < |f| && f[k].check.Some?;
        assert items[k] == f[k];
      }
      if exists k :: 0 <= k < |items| && items[k].check.Some? {
        var k :| 0 <= k < |items| && items[k].check.Some?;
        if k < |f| {
          assert f[k] == items[k];
        }
      }
      assert items[|items| - 1] == Last(items);
    }
  }

  lemma {:induction false} EarliestCheckLeast(items: seq<Task>)
    ensures forall k :: 0 <= k < |items| && items[k].check.Some? ==>
      EarliestCheck(items).Some? && EarliestCheck(items).value <= items[k].check.value
  {
    if items != [] {
      var f := items[..|items| - 1];
      EarliestCheckLeast(f);
      forall k | 0 <= k < |items| && items[k].check.Some?
        ensures EarliestCheck(items).Some? && EarliestCheck(items).value <= items[k].check.value
      {
        if k < |f| {
          assert f[k] == items[k];
        } else {
          assert items[k] == Last(items);
        }
      }
    }
  }

  lemma {:induction false} EarliestCheckAttained(items: seq<Task>)
    ensures EarliestCheck(items).Some? ==> exists k :: 0 <= k < |items| && items[k].check == EarliestCheck(items)
  {
    if items != [] {
      var f := items[..|items| - 1];
      EarliestCheckAttained(f);
      var c := Last(items).check;
      if EarliestCheck(items) == c {
        assert items[|items| - 1] == Last(items);
      } else if EarliestCheck(f).Some? {
        var k :| 0 <= k < |f| && f[k].check == EarliestCheck(f);
        assert items[k] == f[k];
      }
    }
  }

  /** The `minS`/`maxE` scan over a list of tasks. */
  method ItemSpan(items: seq<Task>) returns (minS: Option<Day>, maxE: Option<Day>)
    ensures minS == MinStart(items) && maxE == MaxEnd(items)
  {
    minS, maxE := None, None;
    var i := 0;
    while i < |items|
      invariant 0 <= i <= |items|
      invariant minS == MinStart(items[..i]) && maxE == MaxEnd(items[..i])
    {
      var t := items[i];
      assert items[..i + 1][..i] == items[..i];
      if minS.None? || t.start < minS.value {
        minS := Some(t.start);
      }
      if maxE.None? || t.end > maxE.value {
        maxE := Some(t.end);
      }
      i := i + 1;
    }
    assert items[..i] == items;
  }

  /** The `repCheck` scan: the earliest check among `items`. */
  method FirstCheck(items: seq<Task>) returns (rep: Option<Day>)
    ensures rep == EarliestCheck(items)
  {
    rep := None;
    var i := 0;
    while i < |items|
      invariant 0 <= i <= |items|
      invariant rep == EarliestCheck(items[..i])
    {
      var t := items[i];
      assert items[..i + 1][..i] == items[..i];
      if t.check.Some? && (rep.None? || t.check.value < rep.value) {
        rep := t.check;
      }
      i := i + 1;
    }
    assert items[..i] == items;
  }
}
