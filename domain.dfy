/** The records the post list works with: the store's post records, the editor's
    input and output shapes, the preview document, and the browser-side effects
    the page emits. */
module Domain {

  datatype Option<T> = None | Some(value: T)

  /** Status values are strings, compared with `===` as in the page. */
  const Published: string := "published"
  const Scheduled: string := "scheduled"

  /** The wildcard value of the status and category filters. */
  const All: string := "all"

  /** A post record as the store lists it. `publishDate` is absent for
      undated posts. */
  datatype Post = Post(
    id: int,
    title: string,
    slug: string,
    author: string,
    status: string,
    category: string,
    tags: seq<string>,
    publishDate: Option<string>,
    views: nat,
    comments: nat)

  /** What the page hands to the editor (`editingPost`). */
  datatype EditorInput = EditorInput(
    id: int,
    title: string,
    slug: string,
    excerpt: string,
    content: string,
    status: string,
    category: string,
    tags: seq<string>,
    featuredImage: string,
    scheduledAt: string,
    metaTitle: string,
    metaDescription: string,
    metaKeywords: seq<string>)

  /** What the editor hands back on save. `id` is absent for a new post. */
  datatype PostData = PostData(
    id: Option<int>,
    title: string,
    slug: string,
    status: string,
    category: string,
    tags: seq<string>,
    scheduledAt: string)

  /** The preview document stored for the preview tab (its HTML body is not modelled). */
  datatype PreviewData = PreviewData(
    id: int,
    title: string,
    slug: string,
    excerpt: string,
    status: string,
    category: string,
    tags: seq<string>,
    featuredImage: string,
    scheduledAt: string,
    metaTitle: string,
    metaDescription: string,
    metaKeywords: seq<string>)

  /** Effects outside the component, recorded instead of performed. */
  datatype Effect =
    | PublishRequested(payload: PostData)            // publishToSupabase(payload)
    | PreviewStored(key: string, data: PreviewData)   // sessionStorage.setItem(key, JSON(data))
    | WindowOpened(url: string, target: string)       // window.open(url, target)

  /** JavaScript truthiness of `postData.id`: present and not 0. */
  predicate HasId(d: PostData) {
    d.id.Some? && d.id.value != 0
  }

  /** `posts.find(p => p.id === id)`. */
  function Find(posts: seq<Post>, id: int): (r: Option<Post>)
    ensures r.Some? ==> r.value in posts && r.value.id == id
    ensures r.None? <==> forall k :: 0 <= k < |posts| ==> posts[k].id != id
  {
    if posts == [] then None
    else if posts[0].id == id then Some(posts[0])
    else Find(posts[1..], id)
  }

  /** `find` returns the first record carrying the id. */
  lemma {:induction false} FindFirst(posts: seq<Post>, id: int, k: int)
    requires 0 <= k < |posts| && posts[k].id == id
    requires forall j :: 0 <= j < k ==> posts[j].id != id
    ensures Find(posts, id) == Some(posts[k])
  {
    if k > 0 {
      FindFirst(posts[1..], id, k - 1);
    }
  }

  /** No two records share an id. */
  ghost predicate DistinctIds(posts: seq<Post>) {
    forall i, j :: 0 <= i < j < |posts| ==> posts[i].id != posts[j].id
  }

  /** With distinct ids, `find` returns the record carrying the id. */
  lemma FindDistinct(posts: seq<Post>, k: int)
    requires DistinctIds(posts)
    requires 0 <= k < |posts|
    ensures Find(posts, posts[k].id) == Some(posts[k])
  {
    FindFirst(posts, posts[k].id, k);
  }
}
