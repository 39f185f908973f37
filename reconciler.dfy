/** The list reconciler: the displayed sequence is the posts that pass the
    search, status and category tests, sorted on a copy by the selected key. */
module Reconciler {
  import opened Domain
  import opened Text

  /** The lower-cased search term occurs in the lower-cased title, author or category. */
  predicate MatchesSearch(p: Post, term: string) {
    var t := ToLower(term);
    Includes(ToLower(p.title), t) || Includes(ToLower(p.author), t) || Includes(ToLower(p.category), t)
  }

  predicate MatchesStatus(p: Post, statusFilter: string) {
    statusFilter == All || p.status == statusFilter
  }

  predicate MatchesCategory(p: Post, categoryFilter: string) {
    categoryFilter == All || p.category == categoryFilter
  }

  /** The filter callback: all three tests together. */
  predicate Keep(p: Post, term: string, statusFilter: string, categoryFilter: string) {
    MatchesSearch(p, term) && MatchesStatus(p, statusFilter) && MatchesCategory(p, categoryFilter)
  }

  /** The filter stated with substring positions instead of `includes`. */
  lemma KeepIff(p: Post, term: string, statusFilter: string, categoryFilter: string)
    ensures Keep(p, term, statusFilter, categoryFilter) <==>
      && (|| (exists i :: OccursAt(ToLower(p.title), ToLower(term), i))
          || (exists i :: OccursAt(ToLower(p.author), ToLower(term), i))
          || (exists i :: OccursAt(ToLower(p.category), ToLower(term), i)))
      && (statusFilter == All || p.status == statusFilter)
      && (categoryFilter == All || p.category == categoryFilter)
  {
    IncludesIff(ToLower(p.title), ToLower(term));
    IncludesIff(ToLower(p.author), ToLower(term));
    IncludesIff(ToLower(p.category), ToLower(term));
  }

  /** With an empty search term and both filters at "all", every post passes. */
  lemma KeepEverything(p: Post)
    ensures Keep(p, "", All, All)
  {
    assert ToLower("") == "";
    IncludesEmpty(ToLower(p.title));
  }

  /** `posts.filter(...)`: keeps the passing posts in their original order. */
  function FilterPosts(posts: seq<Post>, term: string, statusFilter: string, categoryFilter: string): (r: seq<Post>)
    ensures forall p :: p in r <==> p in posts && Keep(p, term, statusFilter, categoryFilter)
    ensures multiset(r) <= multiset(posts)
  {
    if posts == [] then []
    else
      var rest := FilterPosts(posts[1..], term, statusFilter, categoryFilter);
      assert posts == [posts[0]] + posts[1..];
      if Keep(posts[0], term, statusFilter, categoryFilter) then [posts[0]] + rest else rest
  }

  /** A single post is kept exactly when it passes. */
  lemma FilterSingle(p: Post, term: string, statusFilter: string, categoryFilter: string)
    ensures FilterPosts([p], term, statusFilter, categoryFilter)
         == if Keep(p, term, statusFilter, categoryFilter) then [p] else []
  {
    assert [p][1..] == [];
  }

  /** Filtering distributes over concatenation: each post is kept or dropped
      on its own, and the kept ones stay in collection order. */
  lemma {:induction false} FilterAppend(a: seq<Post>, b: seq<Post>, term: string, statusFilter: string, categoryFilter: string)
    ensures FilterPosts(a + b, term, statusFilter, categoryFilter)
         == FilterPosts(a, term, statusFilter, categoryFilter) + FilterPosts(b, term, statusFilter, categoryFilter)
  {
    if a == [] {
      assert a + b == b;
    } else {
      assert (a + b)[0] == a[0] && (a + b)[1..] == a[1..] + b;
      FilterAppend(a[1..], b, term, statusFilter, categoryFilter);
    }
  }

  /** When every post passes, the filter returns the collection unchanged. */
  lemma {:induction false} FilterKeepsAll(posts: seq<Post>, term: string, statusFilter: string, categoryFilter: string)
    requires forall k :: 0 <= k < |posts| ==> Keep(posts[k], term, statusFilter, categoryFilter)
    ensures FilterPosts(posts, term, statusFilter, categoryFilter) == posts
  {
    if posts != [] {
      FilterKeepsAll(posts[1..], term, statusFilter, categoryFilter);
    }
  }

  /** The comparator passed to `sort`. `dateDiff(x, y)` stands for
      `new Date(x.publishDate || "").getTime() - new Date(y.publishDate || "").getTime()`
      with a NaN difference read as 0; the model leaves it unspecified. */
  function Compare(sortBy: string, dateDiff: (Post, Post) -> int, a: Post, b: Post): int {
    if sortBy == "newest" then dateDiff(b, a)
    else if sortBy == "oldest" then dateDiff(a, b)
    else if sortBy == "title" then LexCompare(a.title, b.title)
    else if sortBy == "views" then b.views - a.views
    else 0
  }

  /** For the title and view-count keys the comparator is antisymmetric in sign. */
  lemma CompareFlip(sortBy: string, dateDiff: (Post, Post) -> int, a: Post, b: Post)
    requires sortBy == "title" || sortBy == "views"
    ensures Compare(sortBy, dateDiff, a, b) > 0 ==> Compare(sortBy, dateDiff, b, a) < 0
  {
    LexCompareFlip(a.title, b.title);
  }

  /** Inserts `x` before the first element it does not sort after. */
  function Insert(sortBy: string, dateDiff: (Post, Post) -> int, x: Post, s: seq<Post>): (r: seq<Post>)
    ensures multiset(r) == multiset{x} + multiset(s)
    ensures r[0] == x || (s != [] && r[0] == s[0])
  {
    if s == [] then [x]
    else if Compare(sortBy, dateDiff, x, s[0]) <= 0 then [x] + s
    else
      var r := [s[0]] + Insert(sortBy, dateDiff, x, s[1..]);
      assert s == [s[0]] + s[1..];
      r
  }

  /** The stable sort of the filtered copy (insertion sort; any stable sort
      gives the same order for a consistent comparator). */
  function SortPosts(sortBy: string, dateDiff: (Post, Post) -> int, s: seq<Post>): (r: seq<Post>)
    ensures multiset(r) == multiset(s)
  {
    if s == [] then []
    else
      assert s == [s[0]] + s[1..];
      Insert(sortBy, dateDiff, s[0], SortPosts(sortBy, dateDiff, s[1..]))
  }

  /** Every adjacent pair is in comparator order. */
  ghost predicate Sorted(sortBy: string, dateDiff: (Post, Post) -> int, s: seq<Post>) {
    forall i :: 0 <= i < |s| - 1 ==> Compare(sortBy, dateDiff, s[i], s[i + 1]) <= 0
  }

  lemma {:induction false} InsertSorted(sortBy: string, dateDiff: (Post, Post) -> int, x: Post, s: seq<Post>)
    requires sortBy == "title" || sortBy == "views"
    requires Sorted(sortBy, dateDiff, s)
    ensures Sorted(sortBy, dateDiff, Insert(sortBy, dateDiff, x, s))
  {
    if s != [] && Compare(sortBy, dateDiff, x, s[0]) > 0 {
      var t := Insert(sortBy, dateDiff, x, s[1..]);
      InsertSorted(sortBy, dateDiff, x, s[1..]);
      CompareFlip(sortBy, dateDiff, x, s[0]);
      var r := [s[0]] + t;
      forall i | 0 <= i < |r| - 1
        ensures Compare(sortBy, dateDiff, r[i], r[i + 1]) <= 0
      {
        if i > 0 {
          assert r[i] == t[i - 1] && r[i + 1] == t[i];
        }
      }
    }
  }

  /** Sorting by title or by views yields a sequence in comparator order. */
  lemma {:induction false} SortPostsSorted(sortBy: string, dateDiff: (Post, Post) -> int, s: seq<Post>)
    requires sortBy == "title" || sortBy == "views"
    ensures Sorted(sortBy, dateDiff, SortPosts(sortBy, dateDiff, s))
  {
    if s != [] {
      SortPostsSorted(sortBy, dateDiff, s[1..]);
      InsertSorted(sortBy, dateDiff, s[0], SortPosts(sortBy, dateDiff, s[1..]));
    }
  }

  /** An unrecognised key compares everything as equal, so the order is kept. */
  lemma {:induction false} SortPostsUnrecognised(sortBy: string, dateDiff: (Post, Post) -> int, s: seq<Post>)
    requires sortBy !in {"newest", "oldest", "title", "views"}
    ensures SortPosts(sortBy, dateDiff, s) == s
  {
    if s != [] {
      SortPostsUnrecognised(sortBy, dateDiff, s[1..]);
      assert s == [s[0]] + s[1..];
    }
  }

  /** The displayed sequence (`sortedPosts`). */
  function Reconcile(posts: seq<Post>, term: string, statusFilter: string, categoryFilter: string,
                     sortBy: string, dateDiff: (Post, Post) -> int): (r: seq<Post>)
    ensures forall p :: p in r <==> p in posts && Keep(p, term, statusFilter, categoryFilter)
    ensures multiset(r) == multiset(FilterPosts(posts, term, statusFilter, categoryFilter))
  {
    var filtered := FilterPosts(posts, term, statusFilter, categoryFilter);
    var r := SortPosts(sortBy, dateDiff, filtered);
    assert forall p :: p in r <==> p in multiset(r);
    r
  }

  /** Sorted by views, view counts never increase from one row to the next,
      nor between any two rows. */
  lemma ReconcileByViews(posts: seq<Post>, term: string, statusFilter: string, categoryFilter: string,
                         dateDiff: (Post, Post) -> int)
    ensures var r := Reconcile(posts, term, statusFilter, categoryFilter, "views", dateDiff);
      && (forall i :: 0 <= i < |r| - 1 ==> r[i].views >= r[i + 1].views)
      && (forall i, j :: 0 <= i < j < |r| ==> r[i].views >= r[j].views)
  {
    SortPostsSorted("views", dateDiff, FilterPosts(posts, term, statusFilter, categoryFilter));
    ByViewsAllPairs(Reconcile(posts, term, statusFilter, categoryFilter, "views", dateDiff));
  }

  /** Sorted by views, the order holds between any two rows, not only adjacent ones. */
  lemma {:induction false} ByViewsAllPairs(s: seq<Post>)
    requires forall i :: 0 <= i < |s| - 1 ==> s[i].views >= s[i + 1].views
    ensures forall i, j :: 0 <= i < j < |s| ==> s[i].views >= s[j].views
  {
    if |s| > 1 {
      ByViewsAllPairs(s[1..]);
      forall i, j | 0 <= i < j < |s|
        ensures s[i].views >= s[j].views
      {
        if i == 0 && j > 1 {
          assert s[1..][0].views >= s[1..][j - 1].views;
        } else if i > 0 {
          assert s[1..][i - 1].views >= s[1..][j - 1].views;
        }
      }
    }
  }

  /** Sorted by title, titles ascend in lexicographic order from row to row. */
  lemma ReconcileByTitle(posts: seq<Post>, term: string, statusFilter: string, categoryFilter: string,
                         dateDiff: (Post, Post) -> int)
    ensures var r := Reconcile(posts, term, statusFilter, categoryFilter, "title", dateDiff);
      forall i :: 0 <= i < |r| - 1 ==> LexLessEq(r[i].title, r[i + 1].title)
  {
    var r := Reconcile(posts, term, statusFilter, categoryFilter, "title", dateDiff);
    SortPostsSorted("title", dateDiff, FilterPosts(posts, term, statusFilter, categoryFilter));
    forall i | 0 <= i < |r| - 1
      ensures LexLessEq(r[i].title, r[i + 1].title)
    {
      LexCompareOrder(r[i].title, r[i + 1].title);
    }
  }

  /** With an unrecognised sort key the filtered order is shown as it is. */
  lemma ReconcileUnrecognised(posts: seq<Post>, term: string, statusFilter: string, categoryFilter: string,
                              sortBy: string, dateDiff: (Post, Post) -> int)
    requires sortBy !in {"newest", "oldest", "title", "views"}
    ensures Reconcile(posts, term, statusFilter, categoryFilter, sortBy, dateDiff)
         == FilterPosts(posts, term, statusFilter, categoryFilter)
  {
    SortPostsUnrecognised(sortBy, dateDiff, FilterPosts(posts, term, statusFilter, categoryFilter));
  }

  /** With no search term and both filters at "all", every post is shown: the
      view is a permutation of the collection, whatever the sort key. */
  lemma ReconcileShowsAll(posts: seq<Post>, sortBy: string, dateDiff: (Post, Post) -> int)
    ensures multiset(Reconcile(posts, "", All, All, sortBy, dateDiff)) == multiset(posts)
    ensures |Reconcile(posts, "", All, All, sortBy, dateDiff)| == |posts|
  {
    forall k | 0 <= k < |posts|
      ensures Keep(posts[k], "", All, All)
    {
      KeepEverything(posts[k]);
    }
    FilterKeepsAll(posts, "", All, All);
    var r := Reconcile(posts, "", All, All, sortBy, dateDiff);
    assert |multiset(r)| == |multiset(posts)|;
  }
}
