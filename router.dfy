/** The action router: what a row action does with the post it names, and the
    editor and preview records built from a post. */
module Router {
  import opened Domain
  import opened Text

  /** A possibly absent date joined to a string with `+`: a date the store
      leaves `undefined` is written as "undefined". */
  function Interpolate(d: Option<string>): string {
    match d
    case Some(v) => v
    case None => "undefined"
  }

  /** The time suffix appended to a publish date. */
  const TimeSuffix: string := "T10:00"

  /** The fixed text around the title in the editor's placeholder fields. */
  const ExcerptLead: string := "Brief excerpt for "
  const ContentLead: string := "<h2>Welcome to "
  const ContentTail: string := "</h2><p>This is the main content of the post...</p>"
  const MetaLead: string := "Learn about "

  /** The editor input built for `edit` (lines 124-138). */
  function EditorInputOf(p: Post): EditorInput {
    EditorInput(
      id := p.id,
      title := p.title,
      slug := p.slug,
      excerpt := ExcerptLead + p.title,
      content := ContentLead + p.title + ContentTail,
      status := p.status,
      category := CategoryToken(p.category),
      tags := p.tags,
      featuredImage := "",
      scheduledAt := if p.status == Scheduled then Interpolate(p.publishDate) + TimeSuffix else "",
      metaTitle := p.title,
      metaDescription := MetaLead + p.title,
      metaKeywords := p.tags)
  }

  /** What the editor input promises about the post it came from. */
  lemma EditorInputFacts(p: Post)
    ensures var e := EditorInputOf(p);
      && e.id == p.id && e.title == p.title && e.slug == p.slug && e.status == p.status
      && e.metaTitle == p.title && e.tags == p.tags && e.metaKeywords == p.tags
      && e.category == CategoryToken(p.category)
      && WhitespaceFree(e.category)
      && (forall i :: 0 <= i < |e.category| ==> !IsUpper(e.category[i]))
      && CategoryToken(e.category) == e.category
      && (e.scheduledAt != "" <==> p.status == Scheduled)
      && (p.status == Scheduled && p.publishDate.Some? ==> e.scheduledAt == p.publishDate.value + TimeSuffix)
  {
    CategoryTokenIdempotent(p.category);
  }

  /** The fixed text and image of the preview document. */
  const PreviewExcerptLead: string := "This is a preview of \""
  const PreviewExcerptTail: string := "\". The full content would be available when the post is published."
  const PreviewImage: string := "https://images.pexels.com/photos/274506/pexels-photo-274506.jpeg"
  const PreviewMetaLead: string := "Preview: "

  /** The preview document built for `preview` (lines 145-178), without its HTML body. */
  function PreviewOf(p: Post): PreviewData {
    PreviewData(
      id := p.id,
      title := p.title,
      slug := p.slug,
      excerpt := PreviewExcerptLead + p.title + PreviewExcerptTail,
      status := p.status,
      category := CategoryToken(p.category),
      tags := p.tags,
      featuredImage := PreviewImage,
      scheduledAt := if p.publishDate.Some? && p.publishDate.value != "" then p.publishDate.value + TimeSuffix else "",
      metaTitle := p.title,
      metaDescription := PreviewMetaLead + p.title,
      metaKeywords := p.tags)
  }

  /** Unlike the editor input, the preview carries a date whenever the post has one. */
  lemma PreviewScheduledAt(p: Post)
    ensures PreviewOf(p).scheduledAt != "" <==> p.publishDate.Some? && p.publishDate.value != ""
    ensures p.publishDate.Some? && p.publishDate.value != "" ==>
      PreviewOf(p).scheduledAt == p.publishDate.value + TimeSuffix
    ensures PreviewOf(p).category == EditorInputOf(p).category
  {
  }

  /** The key and route of the preview hand-off. */
  const PreviewKey: string := "previewPost"
  const PreviewUrl: string := "/blog/post/preview"
  const NewTab: string := "_blank"

  /** The decision `handlePostAction` takes. */
  datatype Route =
    | OpenEditor(input: EditorInput)   // setEditingPost(input); setShowEditor(true)
    | ShowPreview(data: PreviewData)   // sessionStorage + window.open of the preview route
    | OpenPublished(url: string)       // window.open of the post's public route
    | CallUndeclared(name: string)     // a call to a function the page neither imports nor declares
    | DeleteAndReload(id: int)         // deletePost(id); setPosts(getAdminPosts())
    | Ignore                           // nothing happens

  /** Routes one row action on the post with id `id`, looked up in `posts`. */
  function RouteAction(action: string, id: int, posts: seq<Post>): (r: Route)
    ensures r.DeleteAndReload? <==> action == "delete"
    ensures r.DeleteAndReload? ==> r.id == id
    ensures action != "delete" && Find(posts, id).None? ==> r == Ignore
    decreases if action == "view" then 1 else 0
  {
    if action == "delete" then DeleteAndReload(id)
    else match Find(posts, id)
      case None => Ignore
      case Some(p) =>
        if action == "edit" then OpenEditor(EditorInputOf(p))
        else if action == "preview" then ShowPreview(PreviewOf(p))
        else if action == "duplicate" then CallUndeclared("duplicatePost")
        else if action == "schedule" then CallUndeclared("schedulePost")
        else if action == "archive" then CallUndeclared("archivePost")
        else if action == "view" then
          if p.status == Published then OpenPublished("/blog/post/" + p.slug)
          else RouteAction("preview", id, posts)
        else Ignore
  }

  /** The effects a route emits outside the component. */
  function RouteEffects(r: Route): (es: seq<Effect>)
    ensures r.ShowPreview? ==> es == [PreviewStored(PreviewKey, r.data), WindowOpened(PreviewUrl, NewTab)]
    ensures r.OpenPublished? ==> es == [WindowOpened(r.url, NewTab)]
    ensures !r.ShowPreview? && !r.OpenPublished? ==> es == []
  {
    match r
    case ShowPreview(data) => [PreviewStored(PreviewKey, data), WindowOpened(PreviewUrl, NewTab)]
    case OpenPublished(url) => [WindowOpened(url, NewTab)]
    case _ => []
  }

  /** `view` on a published post opens its public route. */
  lemma ViewPublished(id: int, posts: seq<Post>, p: Post)
    requires Find(posts, id) == Some(p) && p.status == Published
    ensures RouteAction("view", id, posts) == OpenPublished("/blog/post/" + p.slug)
    ensures RouteEffects(RouteAction("view", id, posts)) == [WindowOpened("/blog/post/" + p.slug, NewTab)]
  {
  }

  /** `view` on any other post does exactly what `preview` does. */
  lemma ViewUnpublishedIsPreview(id: int, posts: seq<Post>, p: Post)
    requires Find(posts, id) == Some(p) && p.status != Published
    ensures RouteAction("view", id, posts) == RouteAction("preview", id, posts) == ShowPreview(PreviewOf(p))
    ensures RouteEffects(RouteAction("view", id, posts))
         == [PreviewStored(PreviewKey, PreviewOf(p)), WindowOpened(PreviewUrl, NewTab)]
  {
  }

  /** An id the list does not hold makes every action but `delete` a no-op. */
  lemma MissingIdIgnored(action: string, id: int, posts: seq<Post>)
    requires forall k :: 0 <= k < |posts| ==> posts[k].id != id
    ensures action != "delete" ==> RouteAction(action, id, posts) == Ignore
    ensures action == "delete" ==> RouteAction(action, id, posts) == DeleteAndReload(id)
  {
  }

  /** Only `edit` of a listed post opens the editor, and the editor carries
      that post's id; only the undeclared calls throw. */
  lemma RouteKinds(action: string, id: int, posts: seq<Post>)
    ensures RouteAction(action, id, posts).OpenEditor? <==> action == "edit" && Find(posts, id).Some?
    ensures RouteAction(action, id, posts).OpenEditor? ==> RouteAction(action, id, posts).input.id == id
    ensures RouteAction(action, id, posts).CallUndeclared? <==>
      action in {"duplicate", "schedule", "archive"} && Find(posts, id).Some?
  {
  }
}
