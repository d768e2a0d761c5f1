/**
 * models/Bookmark.js: a bookmark has a title, a url and an owning user, all required, and
 * the `createdAt` / `updatedAt` timestamps Mongoose maintains.
 */
module BookmarkModel {
  import opened Wrappers
  import opened JsText
  import opened Faults
  import UserModel

  type BookmarkId = nat

  datatype Bookmark = Bookmark(
    id: BookmarkId,
    title: string,
    url: string,
    owner: UserModel.UserId,
    createdAt: int,
    updatedAt: int)

  /** The fields handed to `Bookmark.create`. */
  datatype BookmarkInput = BookmarkInput(title: Option<string>, url: Option<string>, owner: Option<UserModel.UserId>)

  /** A stored bookmark passes the schema: required strings are not empty (no URL format is checked). */
  predicate SchemaValid(b: Bookmark) {
    b.title != [] && b.url != []
  }

  /** `Bookmark.create(input)` at time `now`: the `required` validators, then both timestamps set. */
  function NewBookmark(id: BookmarkId, input: BookmarkInput, now: int): (r: Result<Bookmark, Fault>)
    ensures r.Ok? <==> Truthy(input.title) && Truthy(input.url) && input.owner.Some?
    ensures r.Err? ==> r.error == ValidationFailed
    ensures r.Ok? ==> && SchemaValid(r.value)
                      && r.value == Bookmark(id, input.title.value, input.url.value, input.owner.value, now, now)
  {
    if Truthy(input.title) && Truthy(input.url) && input.owner.Some? then
      Ok(Bookmark(id, input.title.value, input.url.value, input.owner.value, now, now))
    else
      Err(ValidationFailed)
  }

  /** Any non-empty url is accepted with any non-empty title: the schema has no format check. */
  lemma NoUrlFormatCheck(id: BookmarkId, title: string, url: string, owner: UserModel.UserId, now: int)
    requires title != []
    ensures NewBookmark(id, BookmarkInput(Some(title), Some(url), Some(owner)), now).Ok? <==> url != []
    ensures NewBookmark(id, BookmarkInput(Some(title), Some(url), None), now).Err?
  {
  }

  /** The `$set` of a conditional update: only the truthy given fields change, `updatedAt`
      becomes `now`, and id, owner and `createdAt` stay. */
  function Revised(b: Bookmark, title: Option<string>, url: Option<string>, now: int): (r: Bookmark)
    ensures r.id == b.id && r.owner == b.owner && r.createdAt == b.createdAt && r.updatedAt == now
    ensures r.title == (if Truthy(title) then title.value else b.title)
    ensures r.url == (if Truthy(url) then url.value else b.url)
    ensures SchemaValid(b) ==> SchemaValid(r)
  {
    b.(title := if Truthy(title) then title.value else b.title,
       url := if Truthy(url) then url.value else b.url,
       updatedAt := now)
  }

  /** The bookmark collection. */
  datatype Bookmarks = Bookmarks(records: map<BookmarkId, Bookmark>, next: BookmarkId)

  ghost predicate BookmarksValid(t: Bookmarks) {
    forall id :: id in t.records ==> id < t.next && t.records[id].id == id && SchemaValid(t.records[id])
  }

  /** The filter `{ _id: id, user: owner }` matches. */
  predicate Owns(t: Bookmarks, owner: UserModel.UserId, id: BookmarkId) {
    id in t.records && t.records[id].owner == owner
  }
}
