# Post list model of the blog dashboard's Posts page

This project models the post-management core of the `Posts` page of the
blogcraft admin dashboard (`src/pages/Posts.tsx`):

- the **list reconciler**, which derives the displayed rows from the post
  collection, the search term, the status and category filters and the sort
  key (filter, then a stable sort of a copy);
- the **selection coordinator**: toggling one row, select-all and bulk actions;
- the **action router**: what `edit`, `preview`, `view`, `duplicate`,
  `schedule`, `archive` and `delete` do with a row, and the editor input and
  preview document built from a post (including the category token
  `category.toLowerCase().replace(/\s+/g, '-')`);
- the **editor hand-off**: `handleCreatePost`, `handleSavePost` and
  `handleCancelEdit` over the `showEditor` / `editingPost` fields.

Modules, one per component:

| file | module | contents |
|---|---|---|
| text.dfy | `Text` | `toLowerCase`, `includes`, whitespace-run collapsing, the category token, the title order |
| domain.dfy | `Domain` | post records, editor input and output, preview document, recorded effects, `find` |
| reconciler.dfy | `Reconciler` | the filter predicate, the comparator, the stable sort, the displayed sequence |
| selection.dfy | `Selection` | toggle and select-all on the list of selected ids |
| router.dfy | `Router` | editor input and preview mapping, the routing decision of a row action |
| store.dfy | `Store` | the post store as a class holding a sequence of records and the next id |
| page.dfy | `Page` | the page component as a class whose fields are the React state and whose methods are the handlers |

The pure parts of the page (`filteredPosts`, `sortedPosts`, the record
mappings, the routing decisions) are functions with lemmas; the handlers,
which update state fields through setters, are methods of
`Page.PostsPage` whose contracts give the new value of every field they set.
React's setters are applied at once: `handleSelectAll` reads the current
selection and view, as the closure of the current render does. The post store
is a class, `Store.PostStore`, holding the records and the next id to assign;
the remote publisher, `sessionStorage` and `window.open` are recorded as
entries of the page's `effects` list rather than performed.

Behaviour of the page that the model keeps as written:

- A bulk action (`publish`, `draft`, `delete`) writes nothing to the store:
  the handler only logs, reloads the list and clears the selection.
- Select-all compares only lengths. A selection holding ids that are no longer
  visible can therefore be cleared although visible rows are unselected, and
  pressing select-all twice restores the selection only when it was empty or
  was exactly the visible ids (`Selection.SelectAllTwice`). When the selection
  holds only distinct visible ids and the visible rows carry distinct ids, the
  length test does mean "every visible row is selected"
  (`Selection.LengthTestMeansAllSelected`); with two visible rows sharing an
  id it does not.
- Nothing prunes the selection: filter changes and a single-row `delete` leave
  it as it is.
- An undated post sorted by date does not sort as the earliest: its
  comparison yields NaN, which the sort treats as "equal".
- `duplicatePost`, `schedulePost` and `archivePost` are neither imported nor
  declared in the page, so these actions on an existing row end in a thrown
  `ReferenceError` before the list is reloaded; the model returns
  `Threw("<name> is not defined")` and changes no state.
- `postData.id` is tested for truthiness, so an id of 0 creates a new post. The
  store model assigns positive ids only, so a post that came from the store is
  always updated.
- The editor's `scheduledAt` joins the publish date and `"T10:00"` with `+`
  and does not test the date, so a scheduled post without one gets a value
  that depends on how the store represents the missing date: `"undefinedT10:00"`
  for `undefined`, which is what the model assumes (`Router.Interpolate`);
  `null` would give `"nullT10:00"` and `""` would give `"T10:00"`.

## Model

| member | source | states |
|---|---|---|
| Text.ToLower | blogcraft-dash-main/src/pages/Posts.tsx:71-73 | lower-casing keeps the length, maps each capital A-Z to the letter 32 code points higher, leaves every other character as it is, and so keeps the whitespace positions and leaves no capital |
| Text.ToLowerAppend | blogcraft-dash-main/src/pages/Posts.tsx:71-73 | lower-casing distributes over concatenation |
| Text.ToLowerIdempotent | blogcraft-dash-main/src/pages/Posts.tsx:71-73 | lower-casing twice equals lower-casing once |
| Text.Includes | blogcraft-dash-main/src/pages/Posts.tsx:71-73 | a text can only include a term no longer than itself; `Text.IncludesIff` characterises it |
| Text.IncludesIff | blogcraft-dash-main/src/pages/Posts.tsx:71-73 | `includes` holds exactly when the term occurs at some position of the text |
| Text.IncludesEmpty | blogcraft-dash-main/src/pages/Posts.tsx:71-73 | the empty search term is included in every text |
| Text.CollapseWhitespace | blogcraft-dash-main/src/pages/Posts.tsx:131 | replacing whitespace runs never lengthens the text |
| Text.CollapseRemovesWhitespace | blogcraft-dash-main/src/pages/Posts.tsx:131 | the result of replacing whitespace runs holds no whitespace |
| Text.CollapseWhitespaceFree | blogcraft-dash-main/src/pages/Posts.tsx:131 | a string without whitespace is returned unchanged |
| Text.CollapseIdempotent | blogcraft-dash-main/src/pages/Posts.tsx:131 | replacing whitespace runs a second time changes nothing |
| Text.CollapseAppend | blogcraft-dash-main/src/pages/Posts.tsx:131 | collapsing splits over a concatenation whose left part ends in a non-whitespace character |
| Text.CollapseLeadingRun | blogcraft-dash-main/src/pages/Posts.tsx:131 | a leading whitespace run becomes a single '-' in front of the collapsed rest |
| Text.CollapseLower | blogcraft-dash-main/src/pages/Posts.tsx:131 | replacing whitespace runs in a lower-case text introduces no upper-case letter |
| Text.CollapseRun | blogcraft-dash-main/src/pages/Posts.tsx:131 | a maximal whitespace run between two texts becomes exactly one '-' with each side collapsed on its own |
| Text.CategoryToken | blogcraft-dash-main/src/pages/Posts.tsx:131 | the category token has no whitespace, no upper-case letter, and is no longer than the category |
| Text.CategoryTokenWithoutWhitespace | blogcraft-dash-main/src/pages/Posts.tsx:131 | a category without whitespace is only lower-cased |
| Text.CategoryTokenRun | blogcraft-dash-main/src/pages/Posts.tsx:131 | each maximal whitespace run of the category becomes one '-' between the tokens of the text on either side |
| Text.CategoryTokenIdempotent | blogcraft-dash-main/src/pages/Posts.tsx:131 | normalising a token again leaves it unchanged |
| Text.LexCompare | blogcraft-dash-main/src/pages/Posts.tsx:88 | the title comparison yields -1, 0 or 1 |
| Text.LexCompareFlip | blogcraft-dash-main/src/pages/Posts.tsx:88 | swapping the titles negates the comparison |
| Text.LexCompareZero | blogcraft-dash-main/src/pages/Posts.tsx:88 | the comparison is 0 exactly for equal titles |
| Text.LexCompareOrder | blogcraft-dash-main/src/pages/Posts.tsx:88 | a non-positive comparison is exactly the lexicographic order (prefix, or smaller character at the first difference) |
| Domain.Find | blogcraft-dash-main/src/pages/Posts.tsx:122 | `find` returns a listed post with the id, and nothing exactly when no post has it |
| Domain.FindFirst | blogcraft-dash-main/src/pages/Posts.tsx:122 | `find` returns the first post carrying the id |
| Domain.FindDistinct | blogcraft-dash-main/src/pages/Posts.tsx:122 | with distinct ids, `find` returns the post carrying the id |
| Reconciler.KeepIff | blogcraft-dash-main/src/pages/Posts.tsx:70-79 | a post passes iff the lower-cased term occurs in its lower-cased title, author or category, and the status filter is "all" or its status, and the category filter is "all" or its category |
| Reconciler.Keep | blogcraft-dash-main/src/pages/Posts.tsx:70-79 | the filter callback: the search, status and category tests together, characterised by `Reconciler.KeepIff` |
| Reconciler.MatchesSearch | blogcraft-dash-main/src/pages/Posts.tsx:71-73 | the lower-cased term is included in the lower-cased title, author or category, characterised by `Reconciler.KeepIff` |
| Reconciler.KeepEverything | blogcraft-dash-main/src/pages/Posts.tsx:70-79 | an empty term with both filters "all" passes every post |
| Reconciler.FilterPosts | blogcraft-dash-main/src/pages/Posts.tsx:70-79 | a post is in the filtered list iff it is in the collection and passes, and the filtered list is a sub-multiset of the collection |
| Reconciler.FilterSingle | blogcraft-dash-main/src/pages/Posts.tsx:70-79 | a single post is kept exactly when it passes |
| Reconciler.FilterAppend | blogcraft-dash-main/src/pages/Posts.tsx:70-79 | filtering distributes over concatenation, so the kept posts stay in collection order and each occurrence is decided on its own |
| Reconciler.FilterKeepsAll | blogcraft-dash-main/src/pages/Posts.tsx:70-79 | when every post passes, the filtered list is the collection itself |
| Reconciler.Compare | blogcraft-dash-main/src/pages/Posts.tsx:81-94 | the comparator per key; `Reconciler.CompareFlip` and `Reconciler.SortPostsSorted` state its order for title and views |
| Reconciler.CompareFlip | blogcraft-dash-main/src/pages/Posts.tsx:87-90 | for the title and views keys, a positive comparison is negative the other way round |
| Reconciler.Insert | blogcraft-dash-main/src/pages/Posts.tsx:81 | inserting adds exactly that post to the multiset and puts either it or the old head first |
| Reconciler.SortPosts | blogcraft-dash-main/src/pages/Posts.tsx:81-94 | the sorted copy is a permutation of the filtered list |
| Reconciler.InsertSorted | blogcraft-dash-main/src/pages/Posts.tsx:87-90 | insertion into a sorted list keeps it sorted for the title and views keys |
| Reconciler.SortPostsSorted | blogcraft-dash-main/src/pages/Posts.tsx:87-90 | sorting by title or views puts every adjacent pair in comparator order |
| Reconciler.SortPostsUnrecognised | blogcraft-dash-main/src/pages/Posts.tsx:91-92 | an unrecognised key keeps the filtered order |
| Reconciler.Reconcile | blogcraft-dash-main/src/pages/Posts.tsx:70-94 | a post is displayed iff it is in the collection and passes the filter, and the display is a permutation of the filtered list |
| Reconciler.ReconcileByViews | blogcraft-dash-main/src/pages/Posts.tsx:89-90 | sorted by views, view counts never increase between adjacent rows or any two rows |
| Reconciler.ByViewsAllPairs | blogcraft-dash-main/src/pages/Posts.tsx:89-90 | non-increasing adjacent view counts give non-increasing counts between any two rows |
| Reconciler.ReconcileByTitle | blogcraft-dash-main/src/pages/Posts.tsx:87-88 | sorted by title, adjacent titles ascend in lexicographic order |
| Reconciler.ReconcileUnrecognised | blogcraft-dash-main/src/pages/Posts.tsx:91-92 | with an unrecognised key the display is the filtered list in collection order |
| Reconciler.ReconcileShowsAll | blogcraft-dash-main/src/pages/Posts.tsx:70-94 | an empty term with both filters "all" displays a permutation of the whole collection, for any key |
| Selection.Without | blogcraft-dash-main/src/pages/Posts.tsx:99 | removing an id drops every occurrence of it and keeps every other id |
| Selection.WithoutAppend | blogcraft-dash-main/src/pages/Posts.tsx:99 | removal distributes over concatenation |
| Selection.Toggle | blogcraft-dash-main/src/pages/Posts.tsx:96-102 | the id is selected afterwards iff it was not before; every other id keeps its membership |
| Selection.ToggleKeepsOthers | blogcraft-dash-main/src/pages/Posts.tsx:96-102 | other ids keep their relative order, an unselected id is appended at the end, a selected one shortens the list |
| Selection.ToggleTwiceAbsent | blogcraft-dash-main/src/pages/Posts.tsx:96-102 | toggling an unselected id twice restores the selection |
| Selection.Ids | blogcraft-dash-main/src/pages/Posts.tsx:108 | the id list has one entry per row, the row's id, in row order |
| Selection.SelectAll | blogcraft-dash-main/src/pages/Posts.tsx:104-110 | select-all yields nothing or exactly the visible ids in view order, never an id that is not visible |
| Selection.SelectAllClears | blogcraft-dash-main/src/pages/Posts.tsx:104-110 | select-all yields nothing iff the selection is as long as the view or the view is empty |
| Selection.SelectAllTwice | blogcraft-dash-main/src/pages/Posts.tsx:104-110 | pressing select-all twice restores the selection iff it was empty or exactly the visible ids |
| Selection.LengthTestMeansAllSelected | blogcraft-dash-main/src/pages/Posts.tsx:106 | for a selection of distinct visible ids, and visible rows with distinct ids, equal lengths mean every visible row is selected, and conversely |
| Router.EditorInputOf | blogcraft-dash-main/src/pages/Posts.tsx:124-138 | the editor input built for a post, characterised by `Router.EditorInputFacts` |
| Router.PreviewOf | blogcraft-dash-main/src/pages/Posts.tsx:145-178 | the preview document built for a post, characterised by `Router.PreviewScheduledAt` |
| Router.RouteAction | blogcraft-dash-main/src/pages/Posts.tsx:119-220 | only `delete` reaches the store, with the id it was given; every other action on an unlisted id is ignored |
| Router.EditorInputFacts | blogcraft-dash-main/src/pages/Posts.tsx:124-138 | the editor input keeps id, title, slug, status and tags, copies title to metaTitle and tags to metaKeywords, carries the category token of the post's category (whitespace-free, lower-case, stable), and a non-empty scheduledAt iff the post is scheduled, then the date followed by T10:00 |
| Router.PreviewScheduledAt | blogcraft-dash-main/src/pages/Posts.tsx:171-174 | the preview carries a date exactly when the post has a non-empty one, and then the date followed by T10:00; its category token is the editor's |
| Router.RouteEffects | blogcraft-dash-main/src/pages/Posts.tsx:181-182 | a preview stores the route's document under "previewPost" and then opens the preview route in a new tab; a published view opens one tab; other routes emit nothing |
| Router.ViewPublished | blogcraft-dash-main/src/pages/Posts.tsx:208-213 | `view` on a published post opens `/blog/post/<slug>` in a new tab |
| Router.ViewUnpublishedIsPreview | blogcraft-dash-main/src/pages/Posts.tsx:214-217 | `view` on any other post is the same route as `preview` and emits the same effects |
| Router.MissingIdIgnored | blogcraft-dash-main/src/pages/Posts.tsx:119-219 | an id not in the list makes every action a no-op except `delete` |
| Router.RouteKinds | blogcraft-dash-main/src/pages/Posts.tsx:119-220 | only `edit` of a listed post opens the editor (with that post's id), only duplicate/schedule/archive of a listed post call an undeclared function |
| Store.UpdateRecords | blogcraft-dash-main/src/pages/Posts.tsx:234 | an update keeps the number of records and every id, merges the records with the id and leaves the others |
| Store.RemoveRecords | blogcraft-dash-main/src/pages/Posts.tsx:206 | after a delete, a record remains iff it was there and does not carry the id |
| Store.RemoveKeepsDistinct | blogcraft-dash-main/src/pages/Posts.tsx:206 | deleting keeps ids distinct |
| Store.RemoveAbsent | blogcraft-dash-main/src/pages/Posts.tsx:206 | deleting an absent id changes nothing |
| Store.PostStore.constructor | blogcraft-dash-main/src/pages/Posts.tsx:61 | the store starts well formed with the given records |
| Store.PostStore.List | blogcraft-dash-main/src/pages/Posts.tsx:115 | listing returns the current records |
| Store.PostStore.Create | blogcraft-dash-main/src/pages/Posts.tsx:243 | creating appends exactly one record under an id no other record has, advances the next id by one, and keeps the store well formed |
| Store.PostStore.Update | blogcraft-dash-main/src/pages/Posts.tsx:234 | updating rewrites the records with the id in place and adds none |
| Store.PostStore.Delete | blogcraft-dash-main/src/pages/Posts.tsx:206 | deleting removes the records with the id and keeps the store well formed |
| Page.SaveEffects | blogcraft-dash-main/src/pages/Posts.tsx:230-250 | a save requests one publish iff the status is published; the payload is the data itself, or the data with the created id for a new post |
| Domain.HasId | blogcraft-dash-main/src/pages/Posts.tsx:232 | the truthiness of `postData.id`: present and not 0, which decides between update and create in `Page.PostsPage.HandleSavePost` |
| Page.DuplicateThrows | blogcraft-dash-main/src/pages/Posts.tsx:184-190 | `duplicate` of a listed post throws "duplicatePost is not defined" |
| Page.ScheduleThrows | blogcraft-dash-main/src/pages/Posts.tsx:191-197 | `schedule` of a listed post throws "schedulePost is not defined" |
| Page.ArchiveThrows | blogcraft-dash-main/src/pages/Posts.tsx:198-204 | `archive` of a listed post throws "archivePost is not defined" |
| Page.OtherActionsComplete | blogcraft-dash-main/src/pages/Posts.tsx:119-220 | every other action, and any action on an unlisted id, completes without throwing |
| Page.SelectAllSelectsOnlyVisible | blogcraft-dash-main/src/pages/Posts.tsx:70-110 | a draft and a published post filtered to "published" show only the published one, and select-all selects only its id |
| Page.PostsPage.constructor | blogcraft-dash-main/src/pages/Posts.tsx:61-68 | the page starts with the store's list, an empty search, both filters "all", newest first, nothing selected and the list shown |
| Page.PostsPage.View | blogcraft-dash-main/src/pages/Posts.tsx:81-94 | the displayed rows are exactly the listed posts that pass the filter, as a permutation of the filtered list |
| Page.PostsPage.SetSearchTerm | blogcraft-dash-main/src/pages/Posts.tsx:62 | the search term changes and the selection does not |
| Page.PostsPage.SetStatusFilter | blogcraft-dash-main/src/pages/Posts.tsx:63 | the status filter changes and the selection does not |
| Page.PostsPage.SetCategoryFilter | blogcraft-dash-main/src/pages/Posts.tsx:64 | the category filter changes and the selection does not |
| Page.PostsPage.SetSortBy | blogcraft-dash-main/src/pages/Posts.tsx:65 | the sort key changes and the selection does not |
| Page.PostsPage.HandleSelectPost | blogcraft-dash-main/src/pages/Posts.tsx:96-102 | the selection becomes the toggled list: the id flips, other ids keep order |
| Page.PostsPage.HandleSelectAll | blogcraft-dash-main/src/pages/Posts.tsx:104-110 | the selection becomes select-all of the current view, holding only visible ids |
| Page.PostsPage.HandleBulkAction | blogcraft-dash-main/src/pages/Posts.tsx:112-117 | for any action, the list equals the store's records and the selection is empty; the store is not written |
| Page.PostsPage.HandlePostAction | blogcraft-dash-main/src/pages/Posts.tsx:119-220 | applies the routed decision: editor opened with the input, effects appended, store and list changed only by delete, a thrown error for the undeclared calls, selection and next id untouched |
| Page.PostsPage.ApplyRoute | blogcraft-dash-main/src/pages/Posts.tsx:119-220 | each routed decision changes exactly its own fields: the editor fields, the effects, or the store and the list; the selection and the next id are untouched |
| Page.PostsPage.HandleCreatePost | blogcraft-dash-main/src/pages/Posts.tsx:222-225 | the editor opens with no post |
| Page.PostsPage.HandleSavePost | blogcraft-dash-main/src/pages/Posts.tsx:227-257 | with an id the store's record is updated and none is created, without one exactly one record is appended and the next id advances; a publish is requested iff the status is published; then the list is reloaded and the editor closed |
| Page.PostsPage.HandleCancelEdit | blogcraft-dash-main/src/pages/Posts.tsx:259-262 | the editor closes and its post is cleared |

## Left out

- JSX rendering (lines 264-580): markup, badges, icons and the pagination
  buttons; the delete confirmation dialog is only the condition under which
  `handleBulkAction("delete")` runs.
- Reconciler.Compare: the `newest` and `oldest` keys compare through the
  parameter `dateDiff`, which stands for the difference of the two
  `Date` timestamps with NaN read as 0; date parsing is not modelled and no
  order is claimed for these keys. The model sorts by stable insertion; for a
  comparator that is not a consistent order (NaN results) the browser's sort
  may order rows differently.
- Text.LexCompare: `localeCompare` is locale-dependent; the model uses plain
  lexicographic order on Unicode code points.
- Text.ToLower: lower-cases the ASCII letters only; `toLowerCase` also maps
  non-ASCII letters.
- `publishToSupabase` is asynchronous and foreign; the model records that a
  publish was requested with a payload and leaves out its result and the
  `console.warn` that reports a failure.
- `console.log` calls (lines 113, 120, 228) are not modelled; `sessionStorage`
  and `window.open` are recorded as effects.
- The preview document's HTML body (lines 150-169) is a fixed template and is
  left out of `PreviewData`.
- The store's source (`mockData`) is not part of this model: how it builds a
  new record (`Store.NewRecord`) and merges editor data into a record
  (`Store.Merge`) is this model's own choice, and so is the editor's output
  shape (`Domain.PostData`).
- React's render cycle and state batching: each setter takes effect at once.
- Integer widths: ids are unbounded integers and view counts natural numbers.
