/** The process-wide UI state record (js/state.js). */
module State {
  import opened Wrappers
  import opened Tasks

  /** The width of a day before any zoom is chosen. */
  const InitialDayWidth: int := 28

  class AppState {
    var model: Model
    var collapsedCats: set<string>
    var collapsedSubs: set<string>
    var hideTaskRows: bool
    var subsInitialized: bool

    /** What the handlers rely on: a day is at least 4 pixels wide, and a
        model with tasks has a span of at least the 7 padding days plus
        one. */
    predicate Valid()
      reads this
    {
      model.dayWidth >= 4
      && (model.tasks != [] ==> model.min.Some? && model.max.Some? && model.min.value + 7 <= model.max.value)
    }

    /** The initial record: an empty model 28 pixels per day wide, nothing
        collapsed, task rows shown, viewpoints not yet initialised. */
    constructor ()
      ensures model == Model([], [], None, None, InitialDayWidth)
      ensures collapsedCats == {} && collapsedSubs == {}
      ensures !hideTaskRows && !subsInitialized
      ensures Valid()
    {
      model := Model([], [], None, None, InitialDayWidth);
      collapsedCats := {};
      collapsedSubs := {};
      hideTaskRows := false;
      subsInitialized := false;
    }

    /** The commit at the end of a successful build: the new model, the
        new collapsed viewpoints, and viewpoints marked initialised. */
    method Install(m: Model, subs: set<string>)
      modifies this
      ensures model == m && collapsedSubs == subs && subsInitialized
      ensures collapsedCats == old(collapsedCats) && hideTaskRows == old(hideTaskRows)
    {
      model := m;
      collapsedSubs := subs;
      subsInitialized := true;
    }
  }
}
