/** TaskSearcherPanel: the side panel that shows the searcher tree. It
    keeps a title filter typed by the user, and hands out the selected
    searcher as a copy whose filter is narrowed by that title filter and
    whose sorter can put completed tasks last. It enables the remove and
    edit buttons from the selected searcher's type, and restores the
    selection saved in the settings. */
module SearcherPanel {
  import opened Common
  import opened Settings
  import opened SearcherTypes

  /** TaskSearcherType: the kinds of searcher the tree shows. */
  datatype SearcherType =
    | GENERAL | PERSONAL | TAG | CONTEXT | FOLDER | GOAL | LOCATION
    | OtherType(name: string)

  /** A searcher as the panel sees it: id, type, order, title, filter and
      sorter. clone() copies it, so it is a value here. */
  datatype ApiSearcher = ApiSearcher(id: string, searcherType: SearcherType, order: int, title: string,
                                     filter: TaskFilter, sorter: TaskSorter)

  const ShowCompletedLastKey := "searcher.show_completed_tasks_at_the_end"

  /** Integer.MAX_VALUE, the order a new searcher is created with. */
  const MaxInt: int := 0x7FFF_FFFF

  /** Whether a filter accepts a task, given which of its conditions the
      task meets: an AND filter needs all its conditions and sub-filters, an
      OR filter one of them. */
  predicate Eval(f: TaskFilter, holds: FilterElement -> bool)
    decreases f
  {
    match f.link
    case AND =>
      && (forall i :: 0 <= i < |f.elements| ==> holds(f.elements[i]))
      && (forall i :: 0 <= i < |f.filters| ==> Eval(f.filters[i], holds))
    case OR =>
      || (exists i :: 0 <= i < |f.elements| && holds(f.elements[i]))
      || (exists i :: 0 <= i < |f.filters| && Eval(f.filters[i], holds))
  }

  /** The filter a non-empty title filter adds: title, tags or note
      contains the text. */
  function TitleSearchFilter(text: string): TaskFilter {
    TaskFilter(OR, [FilterElement(TITLE, CONTAINS, text), FilterElement(TAGS, CONTAINS, text),
                    FilterElement(NOTE, CONTAINS, text)], [])
  }

  /** The filter of the handed-out copy: the original alone, or, under a
      non-empty title filter, AND of the title search and the original. */
  function NarrowedFilter(original: TaskFilter, titleFilter: Option<string>): (r: TaskFilter)
    ensures titleFilter.None? || titleFilter.value == "" ==> r == original
    ensures titleFilter.Some? && titleFilter.value != "" ==>
      r.link == AND && r.elements == [] && |r.filters| == 2 && r.filters[1] == original
  {
    if titleFilter.None? || titleFilter.value == "" then original
    else TaskFilter(AND, [], [TitleSearchFilter(titleFilter.value), original])
  }

  /** A task passes the narrowed filter exactly when it passes the original
      and its title, tags or note contains the title filter. */
  lemma NarrowedFilterMeaning(original: TaskFilter, text: string, holds: FilterElement -> bool)
    requires text != ""
    ensures Eval(NarrowedFilter(original, Some(text)), holds) <==>
      && Eval(original, holds)
      && (holds(FilterElement(TITLE, CONTAINS, text)) || holds(FilterElement(TAGS, CONTAINS, text))
          || holds(FilterElement(NOTE, CONTAINS, text)))
  {
    var search := TitleSearchFilter(text);
    var r := NarrowedFilter(original, Some(text));
    assert r.filters == [search, original];
    if holds(FilterElement(TITLE, CONTAINS, text)) {
      assert holds(search.elements[0]);
    }
    if holds(FilterElement(TAGS, CONTAINS, text)) {
      assert holds(search.elements[1]);
    }
    if holds(FilterElement(NOTE, CONTAINS, text)) {
      assert holds(search.elements[2]);
    }
    assert Eval(r, holds) <==> Eval(r.filters[0], holds) && Eval(r.filters[1], holds);
  }

  /** The element appended when completed tasks go last. */
  const CompletedLast := SorterElement(0, COMPLETED, ASCENDING)

  /** The copy getSelectedTaskSearcher hands out. */
  function ComposeSearcher(s: ApiSearcher, titleFilter: Option<string>, completedLast: bool): ApiSearcher {
    s.(filter := NarrowedFilter(s.filter, titleFilter),
       sorter := TaskSorter(s.sorter.elements + if completedLast then [CompletedLast] else []))
  }

  /** The copy keeps the searcher's identity and title, keeps its sorter as
      a prefix with at most the completed-last element after it, and keeps
      its filter inside the narrowed one. */
  lemma ComposeKeepsOriginal(s: ApiSearcher, titleFilter: Option<string>, completedLast: bool)
    ensures var r := ComposeSearcher(s, titleFilter, completedLast);
      && r.id == s.id && r.searcherType == s.searcherType && r.order == s.order && r.title == s.title
      && r.sorter.elements[..|s.sorter.elements|] == s.sorter.elements
      && |r.sorter.elements| == |s.sorter.elements| + (if completedLast then 1 else 0)
      && (completedLast ==> r.sorter.elements[|r.sorter.elements| - 1] == CompletedLast)
      && (r.filter == s.filter || r.filter.filters[1] == s.filter)
  {
    var r := ComposeSearcher(s, titleFilter, completedLast);
    assert r.sorter.elements[..|s.sorter.elements|] == s.sorter.elements;
  }

  /** The sorter of a new personal searcher. */
  const DefaultSorter := TaskSorter([SorterElement(1, COMPLETED, ASCENDING), SorterElement(2, DUE_DATE, ASCENDING),
                                     SorterElement(3, PRIORITY, DESCENDING), SorterElement(4, TITLE, ASCENDING)])

  /** The searcher the add button creates (the factory assigns the id). */
  function NewPersonalSearcher(id: string, defaultTitle: string): (r: ApiSearcher)
    ensures r.searcherType == PERSONAL && r.order == MaxInt && r.title == defaultTitle
    ensures r.filter == EmptyFilter && |r.sorter.elements| == 4
    ensures forall i :: 0 <= i < 4 ==> r.sorter.elements[i].order == i + 1
  {
    ApiSearcher(id, PERSONAL, MaxInt, defaultTitle, EmptyFilter, DefaultSorter)
  }

  /** The sort keys of a new personal searcher: completed first, then due
      date, priority (highest first) and title; orders strictly increase. */
  lemma NewPersonalSorterOrder(id: string, defaultTitle: string)
    ensures var e := NewPersonalSearcher(id, defaultTitle).sorter.elements;
      && [e[0].column, e[1].column, e[2].column, e[3].column] == [COMPLETED, DUE_DATE, PRIORITY, TITLE]
      && [e[0].direction, e[1].direction, e[2].direction, e[3].direction] == [ASCENDING, ASCENDING, DESCENDING, ASCENDING]
      && forall i, j :: 0 <= i < j < 4 ==> e[i].order < e[j].order
  {
  }

  /** The first searcher with the given title and type. */
  function FirstMatch(searchers: seq<ApiSearcher>, title: string, t: SearcherType): (r: Option<ApiSearcher>)
    ensures r.Some? ==> r.value in searchers && r.value.title == title && r.value.searcherType == t
    ensures r.None? <==> forall i :: 0 <= i < |searchers| ==>
      !(searchers[i].title == title && searchers[i].searcherType == t)
  {
    if searchers == [] then None
    else if searchers[0].title == title && searchers[0].searcherType == t then Some(searchers[0])
    else
      assert forall i :: 1 <= i < |searchers| ==> searchers[i] == searchers[1..][i - 1];
      FirstMatch(searchers[1..], title, t)
  }

  /** FirstMatch is the first: nothing before a match at k matches. */
  lemma {:induction false} FirstMatchIsFirst(searchers: seq<ApiSearcher>, title: string, t: SearcherType, k: nat)
    requires k < |searchers| && searchers[k].title == title && searchers[k].searcherType == t
    requires forall i :: 0 <= i < k ==> !(searchers[i].title == title && searchers[i].searcherType == t)
    ensures FirstMatch(searchers, title, t) == Some(searchers[k])
    decreases k
  {
    if k > 0 {
      FirstMatchIsFirst(searchers[1..], title, t, k - 1);
    }
  }

  /** What the panel asks the tree to select while restoring a saved
      selection. */
  datatype SelectionRequest =
    | SelectSearcher(searcher: ApiSearcher)
    | SelectTag(tag: string)
    | SelectModel(modelType: SearcherType, value: string)
    | SelectDefault

  /** The first attempt to restore the saved (value, type): the first
      searcher of that title and type for GENERAL and PERSONAL, the tag for
      TAG, the model for CONTEXT, FOLDER, GOAL and LOCATION. */
  function RestoreAttempt(value: string, t: SearcherType, searchers: seq<ApiSearcher>): seq<SelectionRequest> {
    if t == GENERAL || t == PERSONAL then
      match FirstMatch(searchers, value, t)
      case Some(s) => [SelectSearcher(s)]
      case None => []
    else if t == TAG then [SelectTag(value)]
    else if t == CONTEXT || t == FOLDER || t == GOAL || t == LOCATION then [SelectModel(t, value)]
    else []
  }

  /** initializeSelectedSearcher: the requests made of the tree, given
      which of them it accepts. Without a saved value and type, or when the
      attempt is refused or impossible, the default searcher is selected. */
  function RestoreRequests(value: Option<string>, t: Option<SearcherType>, searchers: seq<ApiSearcher>,
                           accepts: SelectionRequest -> bool): (r: seq<SelectionRequest>)
    ensures 1 <= |r| <= 2
    ensures accepts(r[|r| - 1]) || r[|r| - 1] == SelectDefault
    ensures |r| == 2 ==> r[1] == SelectDefault && r[0] != SelectDefault && !accepts(r[0])
    ensures value.None? || t.None? ==> r == [SelectDefault]
  {
    if value.None? || t.None? then [SelectDefault]
    else
      var attempt := RestoreAttempt(value.value, t.value, searchers);
      if attempt != [] && accepts(attempt[0]) then attempt else attempt + [SelectDefault]
  }

  /** A saved GENERAL or PERSONAL selection selects the first searcher with
      that title and type when there is one and the tree accepts it, and the
      default searcher otherwise. */
  lemma RestoreGeneralOrPersonal(value: string, t: SearcherType, searchers: seq<ApiSearcher>,
                                 accepts: SelectionRequest -> bool)
    requires t == GENERAL || t == PERSONAL
    ensures var r := RestoreRequests(Some(value), Some(t), searchers, accepts);
      match FirstMatch(searchers, value, t)
      case Some(s) => r == if accepts(SelectSearcher(s)) then [SelectSearcher(s)] else [SelectSearcher(s), SelectDefault]
      case None => r == [SelectDefault]
  {
  }

  /** A saved TAG selection asks the tree for that tag, and falls back on
      the default searcher only when the tree refuses it. */
  lemma RestoreTag(value: string, searchers: seq<ApiSearcher>, accepts: SelectionRequest -> bool)
    ensures var r := RestoreRequests(Some(value), Some(TAG), searchers, accepts);
      r == if accepts(SelectTag(value)) then [SelectTag(value)] else [SelectTag(value), SelectDefault]
  {
  }

  /** A saved CONTEXT, FOLDER, GOAL or LOCATION selection asks the tree for
      that model, and falls back on the default searcher only when the tree
      refuses it. */
  lemma RestoreModel(value: string, t: SearcherType, searchers: seq<ApiSearcher>, accepts: SelectionRequest -> bool)
    requires t == CONTEXT || t == FOLDER || t == GOAL || t == LOCATION
    ensures var r := RestoreRequests(Some(value), Some(t), searchers, accepts);
      r == if accepts(SelectModel(t, value)) then [SelectModel(t, value)] else [SelectModel(t, value), SelectDefault]
  {
  }

  /** Any other saved type selects the default searcher at once. */
  lemma RestoreOtherType(value: string, t: SearcherType, searchers: seq<ApiSearcher>, accepts: SelectionRequest -> bool)
    requires t.OtherType?
    ensures RestoreRequests(Some(value), Some(t), searchers, accepts) == [SelectDefault]
  {
  }

  /** An old/new change of the title filter. */
  datatype TitleFilterChange = TitleFilterChange(oldValue: Option<string>, newValue: Option<string>)

  /** The search loop of initializeSelectedSearcher: the first searcher of
      the list with that title and type, leaving the loop at the first hit. */
  method FindSavedSearcher(searchers: seq<ApiSearcher>, title: string, t: SearcherType) returns (r: Option<ApiSearcher>)
    ensures r == FirstMatch(searchers, title, t)
  {
    r := None;
    var i := 0;
    while i < |searchers|
      invariant 0 <= i <= |searchers|
      invariant forall j :: 0 <= j < i ==> !(searchers[j].title == title && searchers[j].searcherType == t)
    {
      if searchers[i].title == title && searchers[i].searcherType == t {
        FirstMatchIsFirst(searchers, title, t, i);
        r := Some(searchers[i]);
        break;
      }
      i := i + 1;
    }
  }

  class TaskSearcherPanel {
    /** The settings store (Main.SETTINGS). */
    const settings: SettingsStore
    /** The types whose searchers can be deleted / edited. */
    const deletable: set<SearcherType>
    const editable: set<SearcherType>
    var titleFilter: Option<string>
    /** The searcher selected in the tree. */
    var selected: Option<ApiSearcher>
    /** The ids the searcher factory holds. */
    var registeredIds: set<string>
    var addEnabled: bool
    var removeEnabled: bool
    var editEnabled: bool
    var titleEvents: seq<TitleFilterChange>
    /** The searchers passed on to the panel's own selection listeners. */
    var selectionEvents: seq<Option<ApiSearcher>>

    /** A new panel: no title filter; add enabled, remove and edit disabled. */
    constructor (settings: SettingsStore, deletable: set<SearcherType>, editable: set<SearcherType>,
                 selected: Option<ApiSearcher>, registeredIds: set<string>)
      ensures this.settings == settings && this.deletable == deletable && this.editable == editable
      ensures this.selected == selected && this.registeredIds == registeredIds
      ensures titleFilter.None? && addEnabled && !removeEnabled && !editEnabled
      ensures titleEvents == [] && selectionEvents == []
    {
      this.settings, this.deletable, this.editable := settings, deletable, editable;
      this.selected, this.registeredIds := selected, registeredIds;
      titleFilter := None;
      addEnabled, removeEnabled, editEnabled := true, false, false;
      titleEvents, selectionEvents := [], [];
    }

    /** setTitleFilter: nothing when equal (null equals null); otherwise
        stores the value and fires old/new. */
    method SetTitleFilter(f: Option<string>)
      modifies this
      ensures selected == old(selected) && registeredIds == old(registeredIds) && selectionEvents == old(selectionEvents)
      ensures addEnabled == old(addEnabled) && removeEnabled == old(removeEnabled) && editEnabled == old(editEnabled)
      ensures old(titleFilter) == f ==> titleFilter == f && titleEvents == old(titleEvents)
      ensures old(titleFilter) != f ==>
        titleFilter == f && titleEvents == old(titleEvents) + [TitleFilterChange(old(titleFilter), f)]
    {
      if titleFilter == f {
        return;
      }
      var oldFilter := titleFilter;
      titleFilter := f;
      titleEvents := titleEvents + [TitleFilterChange(oldFilter, f)];
    }

    /** getSelectedTaskSearcher: null when nothing is selected; otherwise a
        copy narrowed by the title filter, with the completed-last sort key
        appended when the setting is true. An absent setting unboxes null
        and throws. The selected searcher itself is left as it was. */
    method GetSelectedTaskSearcher() returns (r: Result<Option<ApiSearcher>>)
      ensures selected.None? ==> r == Success(None)
      ensures selected.Some? && GetBoolOrNull(settings.props, ShowCompletedLastKey).None? ==>
        r == Failure(NullArgument)
      ensures selected.Some? && GetBoolOrNull(settings.props, ShowCompletedLastKey).Some? ==>
        r == Success(Some(ComposeSearcher(selected.value, titleFilter,
                                          GetBoolOrNull(settings.props, ShowCompletedLastKey).value)))
    {
      if selected.None? {
        return Success(None);
      }
      var searcher := selected.value;
      searcher := searcher.(filter := NarrowedFilter(searcher.filter, titleFilter));
      var completedLast := GetBoolOrNull(settings.props, ShowCompletedLastKey);
      if completedLast.None? {
        return Failure(NullArgument);
      }
      if completedLast.value {
        searcher := searcher.(sorter := TaskSorter(searcher.sorter.elements + [CompletedLast]));
      } else {
        assert searcher.sorter.elements + [] == searcher.sorter.elements;
      }
      r := Success(Some(searcher));
    }

    /** taskSearcherSelectionChange: ignores a null searcher; otherwise
        clears the title filter, enables remove / edit exactly when the
        searcher is in the factory and its type allows it, and passes on the
        selected searcher. */
    method TaskSearcherSelectionChange(searcher: Option<ApiSearcher>) returns (outcome: Outcome)
      modifies this
      ensures selected == old(selected) && registeredIds == old(registeredIds) && addEnabled == old(addEnabled)
      ensures searcher.None? ==> outcome == Ok && unchanged(this)
      ensures searcher.Some? ==>
        && titleFilter.None?
        && titleEvents == old(titleEvents) + (if old(titleFilter).Some? then [TitleFilterChange(old(titleFilter), None)] else [])
        && removeEnabled == (searcher.value.id in registeredIds && searcher.value.searcherType in deletable)
        && editEnabled == (searcher.value.id in registeredIds && searcher.value.searcherType in editable)
      ensures searcher.Some? && selected.Some? && GetBoolOrNull(settings.props, ShowCompletedLastKey).None? ==>
        outcome == Thrown(NullArgument) && selectionEvents == old(selectionEvents)
      ensures searcher.Some? && selected.None? ==> outcome == Ok && selectionEvents == old(selectionEvents) + [None]
      ensures searcher.Some? && selected.Some? && GetBoolOrNull(settings.props, ShowCompletedLastKey).Some? ==>
        && outcome == Ok
        && selectionEvents == old(selectionEvents) +
             [Some(ComposeSearcher(selected.value, None, GetBoolOrNull(settings.props, ShowCompletedLastKey).value))]
    {
      if searcher.None? {
        return Ok;
      }
      var s := searcher.value;
      var foundInFactory := s.id in registeredIds;
      SetTitleFilter(None);
      removeEnabled := foundInFactory && s.searcherType in deletable;
      editEnabled := foundInFactory && s.searcherType in editable;
      var current := GetSelectedTaskSearcher();
      if current.Failure? {
        return Thrown(current.error);
      }
      selectionEvents := selectionEvents + [current.value];
      outcome := Ok;
    }
  }
}
