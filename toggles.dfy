/** The collapse toggles of the task pane (js/toggles.js): collapse or
    expand every category, every viewpoint, or hide the task rows. Each
    handler changes one field of the UI state and then asks the page to
    redraw; the redraw is not part of this model. */
module Toggles {
  import opened Seqs
  import opened Sorting
  import opened Tasks
  import opened State
  import opened RenderHelpers
  import ModelBuilder
  import Rows

  /** The list is non-empty and every member of it is collapsed. */
  predicate AllCollapsed(keys: seq<string>, collapsed: set<string>) {
    |keys| > 0 && forall k :: k in keys ==> k in collapsed
  }

  /** The collapsed categories after "collapse all" with the displayed
      categories `cats`: none when all of them were collapsed, otherwise
      exactly them. */
  function ToggledCats(cats: seq<string>, collapsed: set<string>): set<string>
  {
    if AllCollapsed(cats, collapsed) then {} else set c | c in cats
  }

  /** The collapsed viewpoints after "collapse viewpoints" with the keys
      `keys`: none when all of them were collapsed, otherwise every key
      added to those already collapsed. */
  function ToggledSubs(keys: seq<string>, collapsed: set<string>): set<string>
  {
    if AllCollapsed(keys, collapsed) then {} else collapsed + set k | k in keys
  }

  /** `onToggleAllClick`: `labelCats` are the `data-cat` values of the
      category labels on the page, of which the empty ones are dropped. */
  method ToggleAll(st: AppState, labelCats: seq<string>)
    modifies st
    ensures st.collapsedCats == ToggledCats(NonEmpty(labelCats), old(st.collapsedCats))
    ensures st.collapsedSubs == old(st.collapsedSubs) && st.hideTaskRows == old(st.hideTaskRows)
    ensures st.model == old(st.model) && st.subsInitialized == old(st.subsInitialized)
  {
    var cats := NonEmpty(labelCats);
    var allCollapsed := |cats| > 0;
    for i := 0 to |cats|
      invariant allCollapsed <==> |cats| > 0 && forall j :: 0 <= j < i ==> cats[j] in st.collapsedCats
    {
      if cats[i] !in st.collapsedCats {
        allCollapsed := false;
      }
    }
    if allCollapsed {
      st.collapsedCats := {};
    } else {
      st.collapsedCats := set c | c in cats;
    }
  }

  /** The key list of `onToggleSubsClick`: group by group, the key of each
      viewpoint name at its first task. */
  method SubgroupKeys(groups: seq<Group>) returns (keys: seq<string>)
    ensures keys == SubgroupKeyList(groups)
  {
    keys := [];
    for gi := 0 to |groups|
      invariant keys == SubgroupKeyList(groups[..gi])
    {
      assert groups[..gi + 1][..gi] == groups[..gi];
      var mine := GroupKeys(groups[gi]);
      keys := keys + mine;
    }
    assert groups[..|groups|] == groups;
  }

  /** The loop over one group's tasks, with its own `seen` set. */
  method GroupKeys(g: Group) returns (mine: seq<string>)
    ensures mine == GroupSubKeys(g)
  {
    var seen: set<string> := {};
    mine := [];
    for ti := 0 to |g.items|
      invariant forall n :: n in seen <==> n in KeysInOrder(g.items[..ti], SubNameOf)
      invariant mine == Prefixed(g.cat, KeysInOrder(g.items[..ti], SubNameOf))
    {
      var t := g.items[ti];
      GroupKeysStep(g.cat, g.items, ti);
      var subName := if t.sub == "" then "(なし)" else t.sub;
      if subName !in seen {
        seen := seen + {subName};
        mine := mine + [g.cat + "::" + subName];
      }
    }
    assert g.items[..|g.items|] == g.items;
    assert mine == GroupSubKeys(g);
  }

  /** One task further, the viewpoint names and their keys grow by the
      task's viewpoint when it is new, and stay put otherwise. */
  lemma GroupKeysStep(cat: string, items: seq<Task>, ti: nat)
    requires ti < |items|
    ensures var ks := KeysInOrder(items[..ti], SubNameOf);
      var n := if items[ti].sub == "" then "(なし)" else items[ti].sub;
      && (n in ks ==> KeysInOrder(items[..ti + 1], SubNameOf) == ks)
      && (n !in ks ==> KeysInOrder(items[..ti + 1], SubNameOf) == ks + [n])
      && (n !in ks ==> Prefixed(cat, KeysInOrder(items[..ti + 1], SubNameOf)) == Prefixed(cat, ks) + [cat + "::" + n])
  {
    var t := items[ti];
    assert items[..ti + 1] == items[..ti] + [t];
    KeysInOrderSnoc(items[..ti], t, SubNameOf);
    ModelBuilder.PrefixedSnoc(cat, KeysInOrder(items[..ti], SubNameOf), SubNameOf(t));
  }

  /** `onToggleSubsClick`. */
  method ToggleSubs(st: AppState)
    modifies st
    ensures st.collapsedSubs == ToggledSubs(SubgroupKeyList(old(st.model.groups)), old(st.collapsedSubs))
    ensures st.collapsedCats == old(st.collapsedCats) && st.hideTaskRows == old(st.hideTaskRows)
    ensures st.model == old(st.model) && st.subsInitialized == old(st.subsInitialized)
  {
    var keys := SubgroupKeys(st.model.groups);
    var allCollapsed := |keys| > 0;
    for i := 0 to |keys|
      invariant allCollapsed <==> |keys| > 0 && forall j :: 0 <= j < i ==> keys[j] in st.collapsedSubs
    {
      if keys[i] !in st.collapsedSubs {
        allCollapsed := false;
      }
    }
    if allCollapsed {
      st.collapsedSubs := {};
    } else {
      var added := st.collapsedSubs;
      for i := 0 to |keys|
        invariant added == st.collapsedSubs + set j | 0 <= j < i :: keys[j]
      {
        added := added + {keys[i]};
      }
      assert (set j | 0 <= j < |keys| :: keys[j]) == set k | k in keys;
      st.collapsedSubs := added;
    }
  }

  /** `onToggleTasksClick`. */
  method ToggleTasks(st: AppState)
    modifies st
    ensures st.hideTaskRows == !old(st.hideTaskRows)
    ensures st.collapsedCats == old(st.collapsedCats) && st.collapsedSubs == old(st.collapsedSubs)
    ensures st.model == old(st.model) && st.subsInitialized == old(st.subsInitialized)
  {
    st.hideTaskRows := !st.hideTaskRows;
  }

  /** Hiding the task rows twice shows them again. */
  method ToggleTasksTwice(st: AppState)
    modifies st
    ensures st.hideTaskRows == old(st.hideTaskRows)
    ensures st.collapsedCats == old(st.collapsedCats) && st.collapsedSubs == old(st.collapsedSubs)
  {
    ToggleTasks(st);
    ToggleTasks(st);
  }

  // -----------------------------------------------------------------------
  // Properties of the transitions

  /** The category list keeps exactly the non-empty `data-cat` values. */
  lemma {:induction false} NonEmptyMembers(parts: seq<string>)
    ensures forall x :: x in NonEmpty(parts) <==> x in parts && x != ""
  {
    if parts != [] {
      NonEmptyMembers(parts[..|parts| - 1]);
      FrontLast(parts);
    }
  }

  /** "Collapse all" either expands every category, exactly when there are
      categories and all were collapsed, or collapses exactly the displayed
      ones, forgetting any other. */
  lemma ToggledCatsSpec(cats: seq<string>, collapsed: set<string>)
    ensures ToggledCats(cats, collapsed) == {} <==> AllCollapsed(cats, collapsed) || cats == []
    ensures !AllCollapsed(cats, collapsed) ==> forall c :: c in ToggledCats(cats, collapsed) <==> c in cats
  {
    if !AllCollapsed(cats, collapsed) && cats != [] {
      assert cats[0] in ToggledCats(cats, collapsed);
    }
  }

  /** With some category displayed, pressing "collapse all" twice returns
      to the other extreme: all collapsed after all expanded and the
      reverse; from a mixed state it ends with none collapsed. */
  lemma ToggleAllTwice(cats: seq<string>, collapsed: set<string>)
    requires cats != []
    ensures ToggledCats(cats, ToggledCats(cats, collapsed)) == if AllCollapsed(cats, collapsed) then set c | c in cats else {}
  {
    var once := ToggledCats(cats, collapsed);
    if AllCollapsed(cats, collapsed) {
      assert cats[0] !in once;
    } else {
      assert AllCollapsed(cats, once);
    }
  }

  /** "Collapse viewpoints" either expands every viewpoint, exactly when
      there are keys and all were collapsed, or adds every key and removes
      nothing. */
  lemma ToggledSubsSpec(keys: seq<string>, collapsed: set<string>)
    ensures ToggledSubs(keys, collapsed) == {} <==> AllCollapsed(keys, collapsed) || (keys == [] && collapsed == {})
    ensures !AllCollapsed(keys, collapsed) ==>
      forall k :: k in ToggledSubs(keys, collapsed) <==> k in collapsed || k in keys
    ensures !AllCollapsed(keys, collapsed) ==> AllCollapsed(keys, ToggledSubs(keys, collapsed)) || keys == []
  {
    if !AllCollapsed(keys, collapsed) && keys != [] {
      assert keys[0] in ToggledSubs(keys, collapsed);
    }
  }

  /** With some viewpoint listed, pressing "collapse viewpoints" twice from
      a state where not all were collapsed expands every viewpoint. */
  lemma ToggleSubsTwice(keys: seq<string>, collapsed: set<string>)
    requires keys != [] && !AllCollapsed(keys, collapsed)
    ensures ToggledSubs(keys, ToggledSubs(keys, collapsed)) == {}
  {
    ToggledSubsSpec(keys, collapsed);
  }

  // -----------------------------------------------------------------------
  // "Collapse all" on the drawn rows

  /** The categories named by the groups, the empty one aside. */
  function GroupCatSet(groups: seq<Group>): set<string>
  {
    set i | 0 <= i < |groups| && groups[i].cat != "" :: groups[i].cat
  }

  /** The `data-cat` values of the category labels are the categories of
      the head rows, whatever is collapsed: after dropping the empty ones
      they are exactly the groups' categories. */
  lemma LabelCats(groups: seq<Group>, cats: set<string>, subs: set<string>, hideTasks: bool, lc: (string, string) -> int)
    ensures forall c :: c in NonEmpty(Rows.GroupHeads(Rows.RowsOf(groups, cats, subs, hideTasks, lc))) <==> c in GroupCatSet(groups)
  {
    var heads := Rows.GroupHeads(Rows.RowsOf(groups, cats, subs, hideTasks, lc));
    Rows.RowsHeads(groups, cats, subs, hideTasks, lc);
    NonEmptyMembers(heads);
    forall c | c in GroupCatSet(groups)
      ensures c in heads
    {
      var i :| 0 <= i < |groups| && groups[i].cat != "" && groups[i].cat == c;
      assert heads[i] == c;
    }
  }

  /** "Collapse all" pressed on the drawn chart: unless every category was
      collapsed, it collapses exactly the groups' categories, and pressing
      it again, on the chart drawn from that state, expands them all. */
  lemma ToggleAllOnRows(groups: seq<Group>, collapsed: set<string>, subs: set<string>, hideTasks: bool, lc: (string, string) -> int)
    ensures var labels := NonEmpty(Rows.GroupHeads(Rows.RowsOf(groups, collapsed, subs, hideTasks, lc)));
      && (AllCollapsed(labels, collapsed) ==> ToggledCats(labels, collapsed) == {})
      && (!AllCollapsed(labels, collapsed) ==> ToggledCats(labels, collapsed) == GroupCatSet(groups))
    ensures var labels := NonEmpty(Rows.GroupHeads(Rows.RowsOf(groups, collapsed, subs, hideTasks, lc)));
      var once := ToggledCats(labels, collapsed);
      !AllCollapsed(labels, collapsed) && GroupCatSet(groups) != {} ==>
        ToggledCats(NonEmpty(Rows.GroupHeads(Rows.RowsOf(groups, once, subs, hideTasks, lc))), once) == {}
  {
    var labels := NonEmpty(Rows.GroupHeads(Rows.RowsOf(groups, collapsed, subs, hideTasks, lc)));
    LabelCats(groups, collapsed, subs, hideTasks, lc);
    ToggledCatsSpec(labels, collapsed);
    var once := ToggledCats(labels, collapsed);
    var again := NonEmpty(Rows.GroupHeads(Rows.RowsOf(groups, once, subs, hideTasks, lc)));
    LabelCats(groups, once, subs, hideTasks, lc);
    if !AllCollapsed(labels, collapsed) && GroupCatSet(groups) != {} {
      assert once == GroupCatSet(groups);
      var c :| c in GroupCatSet(groups);
      assert c in again;
      assert AllCollapsed(again, once);
    }
  }
}
