/** The shopping ledger's `app` object (app.js): its stored collections, the
    collection and category on screen, and the handlers that navigate and
    edit them. The collection's `data` is shared with the collection's
    `content.data`, so an edit of `data` is an edit of the stored
    collection; the model keeps that sharing as an invariant. */
module LedgerApp {
  import opened Wrappers
  import opened Text
  import opened LedgerData
  import opened LedgerQueries
  import opened LedgerEdits

  // ---------------------------------------------------------------------
  // Navigation
  // ---------------------------------------------------------------------

  /** Where the app is: the search box's trimmed text, the open collection,
      the open category and the item being edited (`null` is `None`). */
  datatype Nav = Nav(query: string, collection: Option<nat>, category: Option<nat>, editing: Option<nat>)

  /** `goBack()`: clear a search (back to the collection's home page when a
      collection is open), else leave the item form, else leave the category
      list, else leave the collection; at the top level nothing happens. */
  function Back(n: Nav): Nav {
    if n.query != "" then
      if n.collection.Some? then n.(query := "", category := None, editing := None) else n.(query := "")
    else if n.editing.Some? then
      if n.category.Some? then n.(editing := None) else n.(category := None, editing := None)
    else if n.category.Some? then n.(category := None, editing := None)
    else if n.collection.Some? then n.(collection := None)
    else n
  }

  /** How many levels there are to leave: a search, an item form, a category
      list and a collection count one each. */
  function Depth(n: Nav): nat {
    (if n.query != "" then 1 else 0) + (if n.editing.Some? then 1 else 0)
    + (if n.category.Some? then 1 else 0) + (if n.collection.Some? then 1 else 0)
  }

  /** Every back step leaves at least one level, and at the top level (no
      search, nothing open) back does nothing. */
  lemma BackDescends(n: Nav)
    ensures Depth(n) == 0 ==> Back(n) == n
    ensures Depth(n) > 0 ==> Depth(Back(n)) < Depth(n)
  {
  }

  /** The back button pressed `k` times. */
  function BackTimes(n: Nav, k: nat): Nav
    decreases k
  {
    if k == 0 then n else BackTimes(Back(n), k - 1)
  }

  /** From anywhere, at most four presses reach the top level, and further
      presses stay there. */
  lemma {:induction false} BackReachesTop(n: Nav, k: nat)
    requires k >= Depth(n)
    decreases k
    ensures Depth(BackTimes(n, k)) == 0
    ensures Depth(n) <= 4
  {
    BackDescends(n);
    if k == 0 {
      assert BackTimes(n, k) == n;
    } else {
      assert BackTimes(n, k) == BackTimes(Back(n), k - 1);
      BackReachesTop(Back(n), k - 1);
    }
  }

  /** The form for a new item is open with no item index, so back from it
      skips the category list and returns to the collection's home page,
      while back from an edited item returns to its category list. */
  lemma BackFromItemForm(c: nat, k: nat, i: nat)
    ensures Back(Nav("", Some(c), Some(k), None)) == Nav("", Some(c), None, None)
    ensures Back(Nav("", Some(c), Some(k), Some(i))) == Nav("", Some(c), Some(k), None)
  {
  }

  // ---------------------------------------------------------------------
  // Sort field of a category list
  // ---------------------------------------------------------------------

  /** The sort field `renderCategoryList` settles on: the current one if it
      is non-empty and one of the fields, otherwise the date field when it
      is non-empty, otherwise the first field (`None` when there is none). */
  function SortFieldFor(current: Option<string>, fields: seq<string>): Option<string> {
    if current.Some? && current.value != "" && current.value in fields then current
    else
      var date := IdentifyFields(fields).date;
      if date.Some? && date.value != "" then date
      else if fields != [] then Some(fields[0])
      else None
  }

  /** The sort field is always one of the fields (there is one exactly when
      there are fields), a chosen field is kept, and settling it again
      changes nothing. */
  lemma SortFieldForSpec(current: Option<string>, fields: seq<string>)
    ensures SortFieldFor(current, fields).Some? <==> fields != []
    ensures SortFieldFor(current, fields).Some? ==> SortFieldFor(current, fields).value in fields
    ensures current.Some? && current.value != "" && current.value in fields ==> SortFieldFor(current, fields) == current
    ensures SortFieldFor(SortFieldFor(current, fields), fields) == SortFieldFor(current, fields)
  {
    IdentifyFieldsSpec(fields);
    var date := IdentifyFields(fields).date;
    if date.Some? {
      assert AnyWith(fields, DateKeywords);
      var i :| 0 <= i < |fields| && date == Some(fields[i]);
    }
  }

  // ---------------------------------------------------------------------
  // The app
  // ---------------------------------------------------------------------

  /** The app object's fields, as one value. */
  datatype AppState = AppState(
    collections: seq<Collection>,
    currentCollection: Option<nat>,
    data: seq<Category>,
    currentCategoryIndex: Option<nat>,
    editingItemIndex: Option<nat>,
    sortField: Option<string>,
    sortDirection: int,
    lastUpdated: Option<int>,
    collectionName: string,
    collectionColor: string,
    searchText: string)

  /** Everything but the sharing of `data`: the open collection exists and
      its name, colour and save time are mirrored; the open category exists
      in an open collection; the edited item exists in the open category;
      the sort direction is up or down. */
  predicate Placed(s: AppState) {
    && (s.currentCollection.Some? ==>
          && s.currentCollection.value < |s.collections|
          && s.collectionName == s.collections[s.currentCollection.value].name
          && s.collectionColor == s.collections[s.currentCollection.value].color
          && s.lastUpdated == Some(s.collections[s.currentCollection.value].content.timestamp))
    && (s.currentCategoryIndex.Some? ==>
          s.currentCollection.Some? && s.currentCategoryIndex.value < |s.data|)
    && (s.editingItemIndex.Some? ==>
          s.currentCategoryIndex.Some? && s.editingItemIndex.value < |s.data[s.currentCategoryIndex.value].items|)
    && (s.sortDirection == 1 || s.sortDirection == -1)
  }

  /** `data` is the open collection's `content.data`. */
  predicate Shared(s: AppState) {
    s.currentCollection.Some? && s.currentCollection.value < |s.collections| ==>
      s.collections[s.currentCollection.value].content.data == s.data
  }

  predicate Consistent(s: AppState) {
    Placed(s) && Shared(s)
  }

  /** What `save(updateTimestamp)` leaves: the open collection holds `data`
      and, when asked, the save time `now`, which `lastUpdated` mirrors;
      with no collection open nothing changes. */
  function Saved(s: AppState, updateTimestamp: bool, now: int): AppState
    requires Placed(s)
  {
    if s.currentCollection.None? then s
    else
      var c := s.collections[s.currentCollection.value];
      var ts := if updateTimestamp then now else c.content.timestamp;
      s.(collections := s.collections[s.currentCollection.value := c.(content := Content(ts, s.data))],
         lastUpdated := if updateTimestamp then Some(now) else s.lastUpdated)
  }

  /** Saving restores the sharing, keeps everything else in place, and
      stores exactly `data` in the open collection. */
  lemma SavedConsistent(s: AppState, updateTimestamp: bool, now: int)
    requires Placed(s)
    ensures Consistent(Saved(s, updateTimestamp, now))
    ensures s.currentCollection.Some? ==>
      Saved(s, updateTimestamp, now).collections[s.currentCollection.value].content.data == s.data
    ensures s.currentCollection.Some? && updateTimestamp ==> Saved(s, updateTimestamp, now).lastUpdated == Some(now)
    ensures forall i :: 0 <= i < |s.collections| && Some(i) != s.currentCollection ==>
      Saved(s, updateTimestamp, now).collections[i] == s.collections[i]
  {
  }

  /** The state the app starts in: the stored collections, or one default
      collection when nothing is stored. */
  function Initial(stored: Option<seq<Collection>>, id: string, now: int): AppState {
    AppState(
      if stored.Some? then stored.value
      else [Collection(id, DefaultCollectionName, DefaultColor, Content(now, []))],
      None, [], None, None, None, -1, None, "", DefaultColor, "")
  }

  lemma InitialConsistent(stored: Option<seq<Collection>>, id: string, now: int)
    ensures Consistent(Initial(stored, id, now))
    ensures stored.None? ==> |Initial(stored, id, now).collections| == 1
    ensures stored.None? ==> Initial(stored, id, now).collections[0].content == Content(now, [])
  {
  }

  /** Where the app is in state `s`. */
  function NavAt(s: AppState): Nav {
    Nav(Trim(s.searchText), s.currentCollection, s.currentCategoryIndex, s.editingItemIndex)
  }

  /** What `renderHome()` leaves: no category, no item, no sort field. */
  function Home(s: AppState): AppState {
    s.(currentCategoryIndex := None, editingItemIndex := None, sortField := None)
  }

  /** The state `goBack()` leaves: a search is cleared (the box is emptied)
      and inside a collection its home page is shown; else an item form is
      left for its category's list, whose sort field is settled again; else
      a category list is left for the home page; else the collection is
      closed. */
  function BackState(s: AppState): AppState
    requires Placed(s)
  {
    if Trim(s.searchText) != "" then
      var t := s.(searchText := "");
      if t.currentCollection.Some? then Home(t) else t
    else if s.editingItemIndex.Some? then
      var t := s.(editingItemIndex := None);
      if t.currentCategoryIndex.Some? then
        t.(sortField := SortFieldFor(t.sortField, t.data[t.currentCategoryIndex.value].fields))
      else Home(t)
    else if s.currentCategoryIndex.Some? then Home(s)
    else if s.currentCollection.Some? then s.(currentCollection := None)
    else s
  }

  /** Going back in state terms is the navigation step `Back`, keeps the
      state consistent, and never touches the stored collections, the data
      or the sort direction. */
  lemma BackStateSpec(s: AppState)
    requires Consistent(s)
    ensures NavAt(BackState(s)) == Back(NavAt(s))
    ensures Consistent(BackState(s))
    ensures var t := BackState(s);
      && t.collections == s.collections && t.data == s.data && t.sortDirection == s.sortDirection
      && t.lastUpdated == s.lastUpdated && t.collectionName == s.collectionName
      && t.collectionColor == s.collectionColor
  {
    assert Trim("") == "";
  }

  /** After the search event inside a collection the box still holds its
      query, so the next back step only clears the box: the collection stays
      open on its home page. */
  lemma BackAfterSearchSubmit(s: AppState)
    requires Consistent(s) && s.currentCollection.Some? && Trim(s.searchText) != ""
    ensures BackState(Home(s)) == Home(s).(searchText := "")
    ensures BackState(Home(s)).currentCollection == s.currentCollection
  {
  }

  class App {
    var collections: seq<Collection>
    var currentCollection: Option<nat>
    var data: seq<Category>
    var currentCategoryIndex: Option<nat>
    var editingItemIndex: Option<nat>
    var sortField: Option<string>
    var sortDirection: int
    var lastUpdated: Option<int>
    var collectionName: string
    var collectionColor: string
    /** The value of the global search box. */
    var searchText: string

    function State(): AppState
      reads this
    {
      AppState(collections, currentCollection, data, currentCategoryIndex, editingItemIndex,
               sortField, sortDirection, lastUpdated, collectionName, collectionColor, searchText)
    }

    predicate Valid()
      reads this
    {
      Consistent(State())
    }

    function NavOf(): Nav
      reads this
    {
      NavAt(State())
    }

    /** `init()` with the parsed `collections` entry of storage (`None` when
        there is none) and the clock reading `now` as the default
        collection's id and time. */
    constructor(stored: Option<seq<Collection>>, id: string, now: int)
      ensures State() == Initial(stored, id, now)
      ensures Valid()
    {
      collections := if stored.Some? then stored.value
                     else [Collection(id, DefaultCollectionName, DefaultColor, Content(now, []))];
      currentCollection := None;
      data := [];
      currentCategoryIndex := None;
      editingItemIndex := None;
      sortField := None;
      sortDirection := -1;
      lastUpdated := None;
      collectionName := "";
      collectionColor := DefaultColor;
      searchText := "";
      InitialConsistent(stored, id, now);
    }

    /** `save(updateTimestamp)`, called after `data` was edited in place. */
    method Save(updateTimestamp: bool, now: int)
      requires Placed(State())
      modifies this
      ensures State() == Saved(old(State()), updateTimestamp, now)
      ensures Valid()
    {
      SavedConsistent(State(), updateTimestamp, now);
      if currentCollection.None? {
        return;
      }
      var cur := currentCollection.value;
      var c := collections[cur];
      var ts := c.content.timestamp;
      if updateTimestamp {
        ts := now;
        lastUpdated := Some(now);
      }
      collections := collections[cur := c.(content := Content(ts, data))];
    }

    /** `enterCollection(idx)`: open the collection, share its data, mirror
        its name, colour and save time, and show its home page. */
    method EnterCollection(idx: nat)
      requires Valid() && idx < |collections|
      modifies this
      ensures State() == old(State()).(currentCollection := Some(idx),
                                       data := old(collections)[idx].content.data,
                                       lastUpdated := Some(old(collections)[idx].content.timestamp),
                                       collectionName := old(collections)[idx].name,
                                       collectionColor := old(collections)[idx].color,
                                       currentCategoryIndex := None, editingItemIndex := None, sortField := None)
      ensures Valid()
    {
      currentCollection := Some(idx);
      var col := collections[idx];
      data := col.content.data;
      lastUpdated := Some(col.content.timestamp);
      collectionName := col.name;
      collectionColor := col.color;
      currentCategoryIndex := None;
      editingItemIndex := None;
      sortField := None;
      assert Placed(State());
      RenderHome();
    }

    /** `renderHome()`: no category, no item, no sort field. */
    method RenderHome()
      requires Valid()
      modifies this
      ensures State() == Home(old(State()))
      ensures Valid()
    {
      currentCategoryIndex := None;
      editingItemIndex := None;
      sortField := None;
    }

    /** `renderCategoryList(index)`: open the category, settle the sort
        field, and show the category's items grouped by title; `None` when
        grouping throws, which leaves the state changes made before it. */
    method RenderCategoryList(index: nat, atMost: (string, string) -> bool) returns (groups: Option<seq<Group>>)
      requires Valid() && currentCollection.Some? && index < |data|
      modifies this
      ensures State() == old(State()).(currentCategoryIndex := Some(index), editingItemIndex := None,
                                       sortField := SortFieldFor(old(sortField), old(data)[index].fields))
      ensures groups == CategoryView(old(data)[index], atMost)
      ensures Valid()
    {
      currentCategoryIndex := Some(index);
      editingItemIndex := None;
      var category := data[index];
      sortField := SortFieldFor(sortField, category.fields);
      groups := CategoryView(category, atMost);
    }

    /** `changeSortField(field)`, then the list is shown again. */
    method ChangeSortField(field: string, atMost: (string, string) -> bool) returns (groups: Option<seq<Group>>)
      requires Valid() && currentCategoryIndex.Some?
      modifies this
      ensures var c := old(currentCategoryIndex).value;
        State() == old(State()).(editingItemIndex := None, sortField := SortFieldFor(Some(field), old(data)[c].fields))
      ensures groups == CategoryView(data[old(currentCategoryIndex).value], atMost)
      ensures field != "" && field in old(data)[old(currentCategoryIndex).value].fields ==> sortField == Some(field)
      ensures Valid()
    {
      SortFieldForSpec(Some(field), data[currentCategoryIndex.value].fields);
      sortField := Some(field);
      groups := RenderCategoryList(currentCategoryIndex.value, atMost);
    }

    /** `toggleSortDirection()`: `sortDirection *= -1`. */
    method ToggleSortDirection(atMost: (string, string) -> bool) returns (groups: Option<seq<Group>>)
      requires Valid() && currentCategoryIndex.Some?
      modifies this
      ensures var c := old(currentCategoryIndex).value;
        State() == old(State()).(sortDirection := -old(sortDirection), editingItemIndex := None,
                                 sortField := SortFieldFor(old(sortField), old(data)[c].fields))
      ensures groups == CategoryView(data[old(currentCategoryIndex).value], atMost)
      ensures Valid()
    {
      sortDirection := sortDirection * -1;
      groups := RenderCategoryList(currentCategoryIndex.value, atMost);
    }

    /** `renderEditForm(itemIndex)`: the form for item `itemIndex` of the
        open category, or for a new, empty item. */
    method RenderEditForm(itemIndex: Option<nat>) returns (item: Item)
      requires Valid() && currentCategoryIndex.Some?
      requires itemIndex.Some? ==> itemIndex.value < |data[currentCategoryIndex.value].items|
      modifies this
      ensures State() == old(State()).(editingItemIndex := itemIndex)
      ensures item == if itemIndex.Some? then old(data)[old(currentCategoryIndex).value].items[itemIndex.value] else map[]
      ensures Valid()
    {
      editingItemIndex := itemIndex;
      item := if itemIndex.Some? then data[currentCategoryIndex.value].items[itemIndex.value] else map[];
    }

    /** A search result's click handler: open its category and its item. */
    method OpenSearchResult(h: Hit) returns (item: Item)
      requires Valid() && currentCollection.Some?
      requires h.catIndex < |data| && h.itemIndex < |data[h.catIndex].items|
      modifies this
      ensures State() == old(State()).(currentCategoryIndex := Some(h.catIndex), editingItemIndex := Some(h.itemIndex))
      ensures item == old(data)[h.catIndex].items[h.itemIndex]
      ensures Valid()
    {
      currentCategoryIndex := Some(h.catIndex);
      editingItemIndex := Some(h.itemIndex);
      item := RenderEditForm(Some(h.itemIndex));
    }

    /** `performSearch(keyword)` over the open collection. */
    method PerformSearch(keyword: string, atMost: (string, string) -> bool) returns (view: SearchView)
      requires Valid() && currentCollection.Some?
      modifies this
      ensures view == Search(old(data), keyword, atMost)
      ensures State() == if view.BackHome? then Home(old(State())) else old(State())
      ensures Valid()
    {
      view := Search(data, keyword, atMost);
      if view.BackHome? {
        RenderHome();
      }
    }

    /** The search box's `input` event: the box holds `text`, and inside a
        collection the trimmed text is searched for; a blank one returns to
        the collection's home page. */
    method SearchInput(text: string, atMost: (string, string) -> bool) returns (view: Option<SearchView>)
      requires Valid()
      modifies this
      ensures old(currentCollection).None? ==> view == None && State() == old(State()).(searchText := text)
      ensures old(currentCollection).Some? ==> view == Some(Search(old(data), Trim(text), atMost))
      ensures old(currentCollection).Some? ==>
        State() == if Trim(text) == "" then Home(old(State()).(searchText := text)) else old(State()).(searchText := text)
      ensures Valid()
    {
      searchText := text;
      if currentCollection.None? {
        return None;
      }
      TrimIdempotent(text);
      var v := PerformSearch(Trim(text), atMost);
      view := Some(v);
    }

    /** The search box's `search` event (Enter, or the box's clear button):
        inside a collection `performSearch('')` returns to the home page,
        whatever the box still holds. */
    method SearchSubmit(atMost: (string, string) -> bool) returns (view: Option<SearchView>)
      requires Valid()
      modifies this
      ensures old(currentCollection).None? ==> view == None && State() == old(State())
      ensures old(currentCollection).Some? ==> view == Some(BackHome) && State() == Home(old(State()))
      ensures Valid()
    {
      if currentCollection.None? {
        return None;
      }
      var v := PerformSearch("", atMost);
      view := Some(v);
    }

    /** `goBack()`. When an item form is left, the category list is shown
        again and `shown` holds what it shows; otherwise `shown` is `None`. */
    method GoBack(atMost: (string, string) -> bool) returns (shown: Option<Option<seq<Group>>>)
      requires Valid()
      modifies this
      ensures State() == BackState(old(State()))
      ensures NavOf() == Back(old(NavOf()))
      ensures shown.Some? <==> old(Trim(searchText) == "" && editingItemIndex.Some?)
      ensures shown.Some? ==> shown.value == CategoryView(data[old(currentCategoryIndex).value], atMost)
      ensures Valid()
    {
      BackStateSpec(State());
      shown := None;
      var query := Trim(searchText);
      if query != "" {
        searchText := "";
        if currentCollection.Some? {
          RenderHome();
        }
        return;
      }
      if editingItemIndex.Some? {
        // An item is only edited inside its open category, so the list
        // shown again is that category's.
        editingItemIndex := None;
        var groups := RenderCategoryList(currentCategoryIndex.value, atMost);
        shown := Some(groups);
        return;
      }
      if currentCategoryIndex.Some? {
        RenderHome();
        return;
      }
      if currentCollection.Some? {
        currentCollection := None;
        return;
      }
    }

    // -------------------------------------------------------------------
    // Fields and items of the open category
    // -------------------------------------------------------------------

    /** `swapFields(fromIndex, toIndex)`: move a field by drag and drop and
        save; dropping a field on itself does nothing. */
    method SwapFields(from: nat, to: nat, now: int)
      requires Valid() && currentCategoryIndex.Some?
      requires from < |data[currentCategoryIndex.value].fields| && to < |data[currentCategoryIndex.value].fields|
      modifies this
      ensures from == to ==> State() == old(State())
      ensures from != to ==>
        var c := old(currentCategoryIndex).value;
        State() == Saved(old(State()).(data := old(data)[c := old(data)[c].(fields := Move(old(data)[c].fields, from, to))]), true, now)
      ensures Valid()
    {
      if from == to {
        return;
      }
      var c := currentCategoryIndex.value;
      var category := data[c];
      data := data[c := category.(fields := Move(category.fields, from, to))];
      Save(true, now);
    }

    /** `addFieldFromEditor()` with the typed name `input`. */
    method AddFieldFromEditor(input: string, now: int) returns (outcome: FieldAdd)
      requires Valid() && currentCategoryIndex.Some?
      modifies this
      ensures outcome == AddField(old(data)[old(currentCategoryIndex).value].fields, input)
      ensures !outcome.Added? ==> State() == old(State())
      ensures outcome.Added? ==>
        var c := old(currentCategoryIndex).value;
        State() == Saved(old(State()).(data := old(data)[c := old(data)[c].(fields := outcome.fields)]), true, now)
      ensures Valid()
    {
      var c := currentCategoryIndex.value;
      var category := data[c];
      outcome := AddField(category.fields, input);
      if outcome.Added? {
        data := data[c := category.(fields := outcome.fields)];
        Save(true, now);
      }
    }

    /** `deleteFieldFromEditor(index)`; `confirmed` is the answer to the
        confirmation dialog. */
    method DeleteFieldFromEditor(index: nat, confirmed: bool, now: int)
      requires Valid() && currentCategoryIndex.Some?
      requires index < |data[currentCategoryIndex.value].fields|
      modifies this
      ensures !confirmed ==> State() == old(State())
      ensures confirmed ==>
        var c := old(currentCategoryIndex).value;
        State() == Saved(old(State()).(data := old(data)[c := DropField(old(data)[c], index)]), true, now)
      ensures Valid()
    {
      if !confirmed {
        return;
      }
      var c := currentCategoryIndex.value;
      data := data[c := DropField(data[c], index)];
      Save(true, now);
    }

    /** `saveItem()` with the form's values `form`: merge into the edited
        item or append a new one, save, and show the list again. */
    method SaveItem(form: Item, now: int, atMost: (string, string) -> bool) returns (groups: Option<seq<Group>>)
      requires Valid() && currentCategoryIndex.Some?
      modifies this
      ensures var c := old(currentCategoryIndex).value;
        var s := Saved(old(State()).(data := old(data)[c := old(data)[c].(items :=
                   SavedItems(old(data)[c].items, old(editingItemIndex), form))], editingItemIndex := None), true, now);
        State() == s.(sortField := SortFieldFor(s.sortField, s.data[c].fields))
      ensures groups == CategoryView(data[old(currentCategoryIndex).value], atMost)
      ensures Valid()
    {
      var c := currentCategoryIndex.value;
      var category := data[c];
      data := data[c := category.(items := SavedItems(category.items, editingItemIndex, form))];
      editingItemIndex := None;
      Save(true, now);
      groups := RenderCategoryList(c, atMost);
    }

    /** `saveAsNew()`: append the form's values as a new item, whatever is
        being edited. */
    method SaveAsNew(form: Item, now: int, atMost: (string, string) -> bool) returns (groups: Option<seq<Group>>)
      requires Valid() && currentCategoryIndex.Some?
      modifies this
      ensures var c := old(currentCategoryIndex).value;
        var s := Saved(old(State()).(data := old(data)[c := old(data)[c].(items := old(data)[c].items + [form])], editingItemIndex := None), true, now);
        State() == s.(sortField := SortFieldFor(s.sortField, s.data[c].fields))
      ensures groups == CategoryView(data[old(currentCategoryIndex).value], atMost)
      ensures Valid()
    {
      var c := currentCategoryIndex.value;
      var category := data[c];
      data := data[c := category.(items := category.items + [form])];
      editingItemIndex := None;
      Save(true, now);
      groups := RenderCategoryList(c, atMost);
    }

    /** `deleteItem(index)`; `confirmed` is the answer to the dialog. */
    method DeleteItem(index: nat, confirmed: bool, now: int, atMost: (string, string) -> bool) returns (groups: Option<seq<Group>>)
      requires Valid() && currentCategoryIndex.Some?
      modifies this
      ensures !confirmed ==> State() == old(State()) && groups == None
      ensures confirmed ==>
        var c := old(currentCategoryIndex).value;
        var s := Saved(old(State()).(data := old(data)[c := old(data)[c].(items := RemoveAt(old(data)[c].items, index))], editingItemIndex := None), true, now);
        State() == s.(sortField := SortFieldFor(s.sortField, s.data[c].fields))
      ensures confirmed ==> groups == CategoryView(data[old(currentCategoryIndex).value], atMost)
      ensures Valid()
    {
      if !confirmed {
        return None;
      }
      var c := currentCategoryIndex.value;
      var category := data[c];
      data := data[c := category.(items := RemoveAt(category.items, index))];
      editingItemIndex := None;
      Save(true, now);
      groups := RenderCategoryList(c, atMost);
    }

    // -------------------------------------------------------------------
    // Collections
    // -------------------------------------------------------------------

    /** `updateCurrentCollectionName(newName)`: a blank name is refused. */
    method UpdateCurrentCollectionName(input: string)
      requires Valid() && currentCollection.Some?
      modifies this
      ensures CheckedName(input).None? ==> State() == old(State())
      ensures CheckedName(input).Some? ==>
        var cur := old(currentCollection).value;
        State() == old(State()).(collections := old(collections)[cur := old(collections)[cur].(name := CheckedName(input).value)],
                                 collectionName := CheckedName(input).value,
                                 currentCategoryIndex := None, editingItemIndex := None, sortField := None)
      ensures Valid()
    {
      var name := CheckedName(input);
      if name.None? {
        return;
      }
      var cur := currentCollection.value;
      collections := collections[cur := collections[cur].(name := name.value)];
      collectionName := name.value;
      RenderHome();
    }

    /** `updateCurrentCollectionColor(newColor)`. */
    method UpdateCurrentCollectionColor(color: string)
      requires Valid() && currentCollection.Some?
      modifies this
      ensures var cur := old(currentCollection).value;
        State() == old(State()).(collections := old(collections)[cur := old(collections)[cur].(color := color)],
                                 collectionColor := color,
                                 currentCategoryIndex := None, editingItemIndex := None, sortField := None)
      ensures Valid()
    {
      var cur := currentCollection.value;
      collections := collections[cur := collections[cur].(color := color)];
      collectionColor := color;
      RenderHome();
    }

    /** `updateCollectionName(index, newName)` from the top-level settings. */
    method UpdateCollectionName(index: nat, input: string)
      requires Valid() && currentCollection.None? && index < |collections|
      modifies this
      ensures CheckedName(input).None? ==> State() == old(State())
      ensures CheckedName(input).Some? ==>
        State() == old(State()).(collections := old(collections)[index := old(collections)[index].(name := CheckedName(input).value)])
      ensures Valid()
    {
      var name := CheckedName(input);
      if name.Some? {
        collections := collections[index := collections[index].(name := name.value)];
      }
    }

    /** `updateCollectionColor(index, newColor)` from the top-level settings. */
    method UpdateCollectionColor(index: nat, color: string)
      requires Valid() && currentCollection.None? && index < |collections|
      modifies this
      ensures State() == old(State()).(collections := old(collections)[index := old(collections)[index].(color := color)])
      ensures Valid()
    {
      collections := collections[index := collections[index].(color := color)];
    }

    /** `deleteCollection(index)` from the top level; `confirmed` is the
        answer to the dialog. */
    method DeleteCollection(index: nat, confirmed: bool)
      requires Valid() && currentCollection.None? && index < |collections|
      modifies this
      ensures State() == if confirmed then old(State()).(collections := RemoveAt(old(collections), index)) else old(State())
      ensures Valid()
    {
      if confirmed {
        collections := RemoveAt(collections, index);
      }
    }

    /** `confirmAddCollection()` with the typed name, the picked colour and
        the clock reading `now` (also the new id). */
    method ConfirmAddCollection(input: string, color: string, id: string, now: int) returns (added: bool)
      requires Valid()
      modifies this
      ensures added <==> CheckedName(input).Some?
      ensures !added ==> State() == old(State())
      ensures added ==>
        State() == old(State()).(collections := old(collections) + [Collection(id, CheckedName(input).value, color, Content(now, []))])
      ensures Valid()
    {
      var name := CheckedName(input);
      if name.None? {
        return false;
      }
      collections := collections + [Collection(id, name.value, color, Content(now, []))];
      added := true;
    }

    /** `exportCurrentCollection()`: the snapshot written to the file. */
    method ExportCurrentCollection(now: int) returns (snap: Snapshot)
      requires Valid()
      ensures snap == Exported(lastUpdated, data, now)
    {
      snap := WithData(data, Some(if lastUpdated.Some? && lastUpdated.value != 0 then lastUpdated.value else now));
    }

    /** `importCurrentCollection(input)`: `snap` is the parsed file (`None`
        when no file was chosen, it is not JSON, or it is JSON `null`, whose
        `.data` throws inside the `try`), `confirmed` the answer to
        the dialog. The imported content replaces the open collection's and
        the home page is shown. */
    method ImportCurrentCollection(snap: Option<Snapshot>, confirmed: bool, now: int)
      requires Valid() && currentCollection.Some?
      modifies this
      ensures snap.None? || !confirmed ==> State() == old(State())
      ensures snap.Some? && confirmed ==>
        var cur := old(currentCollection).value;
        var c := Imported(snap.value, now);
        State() == old(State()).(collections := old(collections)[cur := old(collections)[cur].(content := c)],
                                 data := c.data, lastUpdated := Some(c.timestamp),
                                 currentCategoryIndex := None, editingItemIndex := None, sortField := None)
      ensures Valid()
    {
      if snap.None? || !confirmed {
        return;
      }
      var c := Imported(snap.value, now);
      var cur := currentCollection.value;
      currentCategoryIndex := None;
      editingItemIndex := None;
      data := c.data;
      lastUpdated := Some(c.timestamp);
      collections := collections[cur := collections[cur].(content := c)];
      Save(false, now);
      RenderHome();
    }

    // -------------------------------------------------------------------
    // Categories of the open collection
    // -------------------------------------------------------------------

    /** `confirmAddCategory()` with the typed name, the picked colour and
        the clock reading `now` (also the new id). */
    method ConfirmAddCategory(input: string, color: string, id: string, now: int) returns (added: bool)
      requires Valid() && currentCollection.Some?
      modifies this
      ensures added <==> CheckedName(input).Some?
      ensures !added ==> State() == old(State())
      ensures added ==>
        State() == Saved(old(State()).(data := old(data) + [NewCategory(id, CheckedName(input).value, color)],
                                   currentCategoryIndex := None, editingItemIndex := None, sortField := None), true, now)
      ensures Valid()
    {
      var name := CheckedName(input);
      if name.None? {
        return false;
      }
      currentCategoryIndex := None;
      editingItemIndex := None;
      data := data + [NewCategory(id, name.value, color)];
      Save(true, now);
      RenderHome();
      added := true;
    }

    /** `quickAddCategory()`: the same, from the settings panel, with a
        random colour `color`. */
    method QuickAddCategory(input: string, color: string, id: string, now: int) returns (added: bool)
      requires Valid() && currentCollection.Some?
      modifies this
      ensures added <==> CheckedName(input).Some?
      ensures !added ==> State() == old(State())
      ensures added ==>
        State() == Saved(old(State()).(data := old(data) + [NewCategory(id, CheckedName(input).value, color)],
                                   currentCategoryIndex := None, editingItemIndex := None, sortField := None), true, now)
      ensures Valid()
    {
      added := ConfirmAddCategory(input, color, id, now);
    }

    /** `updateCategoryName(index, newName)`: a blank name is refused. */
    method UpdateCategoryName(index: nat, input: string, now: int)
      requires Valid() && currentCollection.Some? && index < |data|
      modifies this
      ensures CheckedName(input).None? ==> State() == old(State())
      ensures CheckedName(input).Some? ==>
        State() == Saved(old(State()).(data := old(data)[index := old(data)[index].(name := CheckedName(input).value)],
                                   currentCategoryIndex := None, editingItemIndex := None, sortField := None), true, now)
      ensures Valid()
    {
      var name := CheckedName(input);
      if name.None? {
        return;
      }
      currentCategoryIndex := None;
      editingItemIndex := None;
      data := data[index := data[index].(name := name.value)];
      Save(true, now);
      RenderHome();
    }

    /** `updateCategoryColor(index, newColor)`. */
    method UpdateCategoryColor(index: nat, color: string, now: int)
      requires Valid() && currentCollection.Some? && index < |data|
      modifies this
      ensures State() == Saved(old(State()).(data := old(data)[index := old(data)[index].(color := color)],
                                   currentCategoryIndex := None, editingItemIndex := None, sortField := None), true, now)
      ensures Valid()
    {
      currentCategoryIndex := None;
      editingItemIndex := None;
      data := data[index := data[index].(color := color)];
      Save(true, now);
      RenderHome();
    }

    /** `deleteCategory(index)`; `confirmed` is the answer to the dialog. */
    method DeleteCategory(index: nat, confirmed: bool, now: int)
      requires Valid() && currentCollection.Some? && index < |data|
      modifies this
      ensures !confirmed ==> State() == old(State())
      ensures confirmed ==>
        State() == Saved(old(State()).(data := RemoveAt(old(data), index),
                                   currentCategoryIndex := None, editingItemIndex := None, sortField := None), true, now)
      ensures Valid()
    {
      if !confirmed {
        return;
      }
      currentCategoryIndex := None;
      editingItemIndex := None;
      data := RemoveAt(data, index);
      Save(true, now);
      RenderHome();
    }
  }
}
