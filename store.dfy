/** The post store (`getAdminPosts`, `createPost`, `updatePost`, `deletePost`)
    as an owned sequence of records with a counter for new ids. How the store
    builds a record from editor data is this model's own choice: the store's
    source is not part of the model. */
module Store {
  import opened Domain

  /** The editor's fields overwrite the record's; id, author, date and counters stay. */
  function Merge(r: Post, d: PostData): Post {
    r.(title := d.title, slug := d.slug, status := d.status, category := d.category, tags := d.tags)
  }

  /** A fresh record for editor data under a newly assigned id. */
  function NewRecord(id: int, d: PostData): Post {
    Post(id, d.title, d.slug, "", d.status, d.category, d.tags, None, 0, 0)
  }

  /** `updatePost(id, d)`: every record carrying `id` is merged with `d`. */
  function UpdateRecords(rs: seq<Post>, id: int, d: PostData): (r: seq<Post>)
    ensures |r| == |rs|
    ensures forall k :: 0 <= k < |rs| ==> r[k].id == rs[k].id
    ensures forall k :: 0 <= k < |rs| && rs[k].id == id ==> r[k] == Merge(rs[k], d)
    ensures forall k :: 0 <= k < |rs| && rs[k].id != id ==> r[k] == rs[k]
  {
    if rs == [] then []
    else [if rs[0].id == id then Merge(rs[0], d) else rs[0]] + UpdateRecords(rs[1..], id, d)
  }

  /** `deletePost(id)`: the records not carrying `id`, in their order. */
  function RemoveRecords(rs: seq<Post>, id: int): (r: seq<Post>)
    ensures forall p :: p in r <==> p in rs && p.id != id
    ensures |r| <= |rs|
  {
    if rs == [] then []
    else if rs[0].id == id then RemoveRecords(rs[1..], id)
    else [rs[0]] + RemoveRecords(rs[1..], id)
  }

  lemma {:induction false} RemoveKeepsDistinct(rs: seq<Post>, id: int)
    requires DistinctIds(rs)
    ensures DistinctIds(RemoveRecords(rs, id))
  {
    if rs != [] {
      RemoveKeepsDistinct(rs[1..], id);
      var t := RemoveRecords(rs[1..], id);
      forall k | 0 <= k < |t|
        ensures t[k].id != rs[0].id
      {
        assert t[k] in rs[1..];
      }
    }
  }

  /** Deleting leaves the other records untouched and in order: deleting an
      absent id changes nothing. */
  lemma {:induction false} RemoveAbsent(rs: seq<Post>, id: int)
    requires forall k :: 0 <= k < |rs| ==> rs[k].id != id
    ensures RemoveRecords(rs, id) == rs
  {
    if rs != [] {
      RemoveAbsent(rs[1..], id);
      assert rs == [rs[0]] + rs[1..];
    }
  }

  /** The largest id, or 0 for an empty list. */
  function MaxId(rs: seq<Post>): (m: int)
    ensures 0 <= m
    ensures forall k :: 0 <= k < |rs| ==> rs[k].id <= m
  {
    if rs == [] then 0
    else
      var rest := MaxId(rs[1..]);
      if rs[0].id > rest then rs[0].id else rest
  }

  /** Ids are positive (so always truthy), distinct, and below the next id to assign. */
  ghost predicate WellFormed(rs: seq<Post>, nextId: int) {
    && 0 < nextId
    && DistinctIds(rs)
    && forall k :: 0 <= k < |rs| ==> 0 < rs[k].id < nextId
  }

  class PostStore {
    var records: seq<Post>
    var nextId: int

    ghost predicate Valid()
      reads this
    {
      WellFormed(records, nextId)
    }

    constructor (initial: seq<Post>)
      requires DistinctIds(initial)
      requires forall k :: 0 <= k < |initial| ==> 0 < initial[k].id
      ensures Valid() && records == initial
    {
      records := initial;
      nextId := MaxId(initial) + 1;
    }

    /** `getAdminPosts()`. */
    method List() returns (r: seq<Post>)
      ensures r == records
    {
      r := records;
    }

    /** `createPost(d)`: appends one record under a new id and returns it. */
    method Create(d: PostData) returns (created: Post)
      requires Valid()
      modifies this
      ensures Valid()
      ensures created == NewRecord(old(nextId), d)
      ensures records == old(records) + [created]
      ensures nextId == old(nextId) + 1
      ensures forall k :: 0 <= k < |old(records)| ==> old(records)[k].id != created.id
    {
      created := NewRecord(nextId, d);
      records := records + [created];
      nextId := nextId + 1;
    }

    /** `updatePost(id, d)`: no record is added or removed. */
    method Update(id: int, d: PostData)
      requires Valid()
      modifies this
      ensures Valid()
      ensures records == UpdateRecords(old(records), id, d) && nextId == old(nextId)
    {
      records := UpdateRecords(records, id, d);
    }

    /** `deletePost(id)`. */
    method Delete(id: int)
      requires Valid()
      modifies this
      ensures Valid()
      ensures records == RemoveRecords(old(records), id) && nextId == old(nextId)
    {
      RemoveKeepsDistinct(records, id);
      records := RemoveRecords(records, id);
    }
  }
}
