/** The `Posts` page component: its state fields and event handlers. Each
    handler is a method whose contract gives the new value of every field it
    sets; the displayed list is the function `View` of the current fields. */
module Page {
  import opened Domain
  import opened Reconciler
  import opened Selection
  import opened Router
  import opened Store

  /** The editor hand-off: the list is shown, or the editor with an optional post. */
  datatype Mode = Listing | Editing(post: Option<EditorInput>)

  /** How a row action ended: normally, or with a thrown error. */
  datatype Outcome = Completed | Threw(error: string)

  /** The message of the ReferenceError a call to an undeclared function throws. */
  const NotDefined: string := " is not defined"

  /** A call to an undeclared function throws; every other route completes. */
  function OutcomeOf(r: Route): (o: Outcome)
    ensures o.Threw? <==> r.CallUndeclared?
    ensures r.CallUndeclared? ==> o.error == r.name + NotDefined
  {
    if r.CallUndeclared? then Threw(r.name + NotDefined) else Completed
  }

  /** `duplicate` of a listed post calls `duplicatePost`, which the page never declares. */
  lemma DuplicateThrows(id: int, posts: seq<Post>)
    requires Find(posts, id).Some?
    ensures OutcomeOf(RouteAction("duplicate", id, posts)) == Threw("duplicatePost is not defined")
  {
    assert "duplicatePost" + NotDefined == "duplicatePost is not defined";
  }

  /** `schedule` of a listed post calls `schedulePost`, which the page never declares. */
  lemma ScheduleThrows(id: int, posts: seq<Post>)
    requires Find(posts, id).Some?
    ensures OutcomeOf(RouteAction("schedule", id, posts)) == Threw("schedulePost is not defined")
  {
    assert "schedulePost" + NotDefined == "schedulePost is not defined";
  }

  /** `archive` of a listed post calls `archivePost`, which the page never declares. */
  lemma ArchiveThrows(id: int, posts: seq<Post>)
    requires Find(posts, id).Some?
    ensures OutcomeOf(RouteAction("archive", id, posts)) == Threw("archivePost is not defined")
  {
    assert "archivePost" + NotDefined == "archivePost is not defined";
  }

  /** Every other row action, and any action on an unlisted id, completes. */
  lemma OtherActionsComplete(action: string, id: int, posts: seq<Post>)
    requires Find(posts, id).None? || action !in {"duplicate", "schedule", "archive"}
    ensures OutcomeOf(RouteAction(action, id, posts)) == Completed
  {
    RouteKinds(action, id, posts);
  }

  /** The publish request a save emits: the payload, with the created id for a new post. */
  function SaveEffects(d: PostData, createdId: int): (es: seq<Effect>)
    ensures |es| <= 1
    ensures es != [] <==> d.status == Published
    ensures es != [] ==> es[0].PublishRequested? && es[0].payload.status == Published
    ensures es != [] && HasId(d) ==> es[0] == PublishRequested(d)
    ensures es != [] && !HasId(d) ==> es[0] == PublishRequested(d.(id := Some(createdId)))
  {
    if d.status != Published then []
    else if HasId(d) then [PublishRequested(d)]
    else [PublishRequested(d.(id := Some(createdId)))]
  }

  /** A draft and a published post, filtered to "published": only the published
      one is shown, and select-all selects only its id. */
  lemma SelectAllSelectsOnlyVisible(dateDiff: (Post, Post) -> int)
    ensures var a := Post(1, "A", "a", "", "draft", "", [], None, 10, 0);
      var b := Post(2, "B", "b", "", Published, "", [], None, 50, 0);
      var view := Reconcile([a, b], "", Published, All, "newest", dateDiff);
      view == [b] && SelectAll([], view) == [2]
  {
    var a := Post(1, "A", "a", "", "draft", "", [], None, 10, 0);
    var b := Post(2, "B", "b", "", Published, "", [], None, 50, 0);
    KeepEverything(b);
    assert [a, b][1..] == [b];
    assert FilterPosts([b], "", Published, All) == [b];
    assert FilterPosts([a, b], "", Published, All) == [b];
  }

  class PostsPage {
    const store: PostStore
    /** The date comparison behind the `newest` / `oldest` keys (left abstract). */
    const dateDiff: (Post, Post) -> int

    var posts: seq<Post>
    var searchTerm: string
    var statusFilter: string
    var categoryFilter: string
    var sortBy: string
    var selectedPosts: seq<int>
    var showEditor: bool
    var editingPost: Option<EditorInput>
    /** Effects emitted so far (publish requests, preview storage, opened tabs). */
    var effects: seq<Effect>

    /** The store is well formed, and the editor's post is cleared whenever the list is shown. */
    ghost predicate Valid()
      reads this, store
    {
      store.Valid() && (!showEditor ==> editingPost == None)
    }

    function Mode(): Mode
      reads this
    {
      if showEditor then Editing(editingPost) else Listing
    }

    /** `sortedPosts`. */
    function View(): (r: seq<Post>)
      reads this
      ensures forall p :: p in r <==> p in posts && Keep(p, searchTerm, statusFilter, categoryFilter)
      ensures multiset(r) == multiset(FilterPosts(posts, searchTerm, statusFilter, categoryFilter))
    {
      Reconcile(posts, searchTerm, statusFilter, categoryFilter, sortBy, dateDiff)
    }

    /** The initial state: the store's list, no search, both filters "all",
        newest first, nothing selected, list shown. */
    constructor (store: PostStore, dateDiff: (Post, Post) -> int)
      requires store.Valid()
      ensures Valid() && this.store == store && this.dateDiff == dateDiff
      ensures posts == store.records
      ensures searchTerm == "" && statusFilter == All && categoryFilter == All && sortBy == "newest"
      ensures selectedPosts == [] && Mode() == Listing && effects == []
    {
      this.store := store;
      this.dateDiff := dateDiff;
      var initial := store.List();
      posts := initial;
      searchTerm, statusFilter, categoryFilter, sortBy := "", All, All, "newest";
      selectedPosts := [];
      showEditor, editingPost := false, None;
      effects := [];
    }

    /** The search box. The selection is left as it is. */
    method SetSearchTerm(term: string)
      modifies this`searchTerm
      ensures searchTerm == term && selectedPosts == old(selectedPosts)
    {
      searchTerm := term;
    }

    /** The status select. The selection is left as it is. */
    method SetStatusFilter(filter: string)
      modifies this`statusFilter
      ensures statusFilter == filter && selectedPosts == old(selectedPosts)
    {
      statusFilter := filter;
    }

    /** The category select. The selection is left as it is. */
    method SetCategoryFilter(filter: string)
      modifies this`categoryFilter
      ensures categoryFilter == filter && selectedPosts == old(selectedPosts)
    {
      categoryFilter := filter;
    }

    /** The sort select. */
    method SetSortBy(key: string)
      modifies this`sortBy
      ensures sortBy == key && selectedPosts == old(selectedPosts)
    {
      sortBy := key;
    }

    /** `handleSelectPost`: flips whether `id` is selected; other ids keep their order. */
    method HandleSelectPost(id: int)
      modifies this`selectedPosts
      ensures selectedPosts == Toggle(old(selectedPosts), id)
      ensures id in selectedPosts <==> id !in old(selectedPosts)
      ensures Without(selectedPosts, id) == Without(old(selectedPosts), id)
    {
      ToggleKeepsOthers(selectedPosts, id);
      selectedPosts := Toggle(selectedPosts, id);
    }

    /** `handleSelectAll`: clears on equal lengths, otherwise selects the visible ids. */
    method HandleSelectAll()
      modifies this`selectedPosts
      ensures selectedPosts == SelectAll(old(selectedPosts), View())
      ensures forall y :: y in selectedPosts ==> exists p :: p in View() && p.id == y
    {
      selectedPosts := SelectAll(selectedPosts, View());
    }

    /** `handleBulkAction`: whatever the action, reloads from the store and clears
        the selection; the store itself is not written. */
    method HandleBulkAction(action: string)
      modifies this`posts, this`selectedPosts
      ensures posts == store.records && selectedPosts == []
    {
      posts := store.List();
      selectedPosts := [];
    }

    /** `handlePostAction`: applies the route chosen for the action on the
        current list. Only `delete` writes the store; the selection is never pruned. */
    method HandlePostAction(action: string, id: int) returns (outcome: Outcome)
      requires Valid()
      modifies this`posts, this`showEditor, this`editingPost, this`effects, store
      ensures Valid()
      ensures var r := RouteAction(action, id, old(posts));
        && outcome == OutcomeOf(r)
        && store.records == (if r.DeleteAndReload? then RemoveRecords(old(store.records), id) else old(store.records))
        && posts == (if r.DeleteAndReload? then store.records else old(posts))
        && effects == old(effects) + RouteEffects(r)
        && Mode() == (if r.OpenEditor? then Editing(Some(r.input)) else old(Mode()))
      ensures selectedPosts == old(selectedPosts) && store.nextId == old(store.nextId)
    {
      var route := RouteAction(action, id, posts);
      outcome := ApplyRoute(route);
    }

    /** Carries out one route: opens the editor, emits the preview or tab
        effects, reports a thrown error, or deletes and reloads. */
    method ApplyRoute(r: Route) returns (outcome: Outcome)
      requires Valid()
      modifies this`posts, this`showEditor, this`editingPost, this`effects, store
      ensures Valid()
      ensures outcome == OutcomeOf(r)
      ensures store.records == (if r.DeleteAndReload? then RemoveRecords(old(store.records), r.id) else old(store.records))
      ensures posts == (if r.DeleteAndReload? then store.records else old(posts))
      ensures effects == old(effects) + RouteEffects(r)
      ensures Mode() == (if r.OpenEditor? then Editing(Some(r.input)) else old(Mode()))
      ensures selectedPosts == old(selectedPosts) && store.nextId == old(store.nextId)
    {
      outcome := OutcomeOf(r);
      match r
      case OpenEditor(input) =>
        editingPost := Some(input);
        showEditor := true;
      case ShowPreview(_) =>
        effects := effects + RouteEffects(r);
      case OpenPublished(_) =>
        effects := effects + RouteEffects(r);
      case CallUndeclared(_) =>
      case DeleteAndReload(target) =>
        store.Delete(target);
        posts := store.List();
      case Ignore =>
    }

    /** `handleCreatePost`: opens an empty editor. */
    method HandleCreatePost()
      requires Valid()
      modifies this`showEditor, this`editingPost
      ensures Valid() && Mode() == Editing(None)
    {
      editingPost := None;
      showEditor := true;
    }

    /** `handleSavePost`: updates the record when the data carries an id and
        creates one otherwise, requests a publish for a published post, then
        reloads and returns to the list, whatever the publish outcome. */
    method HandleSavePost(d: PostData)
      requires Valid()
      modifies this`posts, this`showEditor, this`editingPost, this`effects, store
      ensures Valid()
      ensures HasId(d) ==> store.records == UpdateRecords(old(store.records), d.id.value, d)
      ensures !HasId(d) ==> store.records == old(store.records) + [NewRecord(old(store.nextId), d)]
      ensures store.nextId == old(store.nextId) + (if HasId(d) then 0 else 1)
      ensures effects == old(effects) + SaveEffects(d, old(store.nextId))
      ensures posts == store.records && Mode() == Listing
      ensures selectedPosts == old(selectedPosts)
    {
      if HasId(d) {
        store.Update(d.id.value, d);
        effects := effects + SaveEffects(d, store.nextId);
      } else {
        var created := store.Create(d);
        effects := effects + SaveEffects(d, created.id);
      }
      posts := store.List();
      showEditor := false;
      editingPost := None;
    }

    /** `handleCancelEdit`: back to the list. */
    method HandleCancelEdit()
      requires Valid()
      modifies this`showEditor, this`editingPost
      ensures Valid() && Mode() == Listing && editingPost == None
    {
      showEditor := false;
      editingPost := None;
    }
  }
}
