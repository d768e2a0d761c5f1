/**
 * routes/bookmarkRoutes.js: create, list, read, update and delete bookmarks, every one of
 * them scoped to the caller `req.user.id` that the authentication middleware established.
 */
module BookmarkRoutes {
  import opened Wrappers
  import opened JsText
  import opened BookmarkModel
  import UserModel

  type UserId = UserModel.UserId

  datatype BookmarkBody = BookmarkBody(title: Option<string>, url: Option<string>)

  datatype Reply =
    | Failed(error: string)              // { error }
    | One(bookmark: Bookmark)            // the bookmark document
    | Many(bookmarks: seq<Bookmark>)     // an array of bookmark documents
    | Done(message: string)              // { message }

  datatype Response = Response(status: int, body: Reply)

  const TitleAndUrlRequired := "title and url required"
  const NotFound := "Not found"
  const NothingToUpdate := "Nothing to update"
  const DeletedSuccessfully := "Deleted successfully"

  // ---------------------------------------------------------------- create

  /** `POST /`: both fields must be truthy; the new bookmark belongs to the caller. */
  method CreateBookmark(t: Bookmarks, caller: UserId, body: BookmarkBody, now: int)
      returns (response: Response, t': Bookmarks)
    requires BookmarksValid(t)
    ensures BookmarksValid(t')
    ensures !(Truthy(body.title) && Truthy(body.url)) ==>
      response == Response(400, Failed(TitleAndUrlRequired)) && t' == t
    ensures Truthy(body.title) && Truthy(body.url) ==>
      var b := Bookmark(t.next, body.title.value, body.url.value, caller, now, now);
      && t' == Bookmarks(t.records[t.next := b], t.next + 1)
      && response == Response(201, One(b))
    ensures response.status == 201 ==> t.next !in t.records && Owns(t', caller, t.next)
  {
    if !Truthy(body.title) || !Truthy(body.url) {
      return Response(400, Failed(TitleAndUrlRequired)), t;
    }
    var created := NewBookmark(t.next, BookmarkInput(body.title, body.url, Some(caller)), now);
    var b := created.value;
    t' := Bookmarks(t.records[t.next := b], t.next + 1);
    response := Response(201, One(b));
  }

  // ---------------------------------------------------------------- list

  /** The bookmarks among ids `0 .. n-1` whose owner is `owner`, in id order: the result of the
      filter `{ user: owner }` before sorting. */
  function OwnedBelow(records: map<BookmarkId, Bookmark>, owner: UserId, n: nat): (s: seq<Bookmark>)
    ensures |s| <= n
  {
    if n == 0 then []
    else
      var rest := OwnedBelow(records, owner, n - 1);
      if n - 1 in records && records[n - 1].owner == owner then rest + [records[n - 1]] else rest
  }

  function OwnedBy(t: Bookmarks, owner: UserId): seq<Bookmark> {
    OwnedBelow(t.records, owner, t.next)
  }

  /** Ordered as `sort({ createdAt: -1 })` leaves them: newest first. */
  predicate NewestFirst(s: seq<Bookmark>) {
    forall i, j :: 0 <= i < j < |s| ==> s[i].createdAt >= s[j].createdAt
  }

  /** Puts `b` into a newest-first sequence, ahead of the first element that is older. */
  function Insert(b: Bookmark, s: seq<Bookmark>): (r: seq<Bookmark>)
    ensures |r| == |s| + 1
    ensures multiset(r) == multiset(s) + multiset{b}
    ensures r[0] == b || (s != [] && r[0] == s[0])
  {
    if s == [] then [b]
    else if b.createdAt >= s[0].createdAt then [b] + s
    else
      assert s == [s[0]] + s[1..];
      [s[0]] + Insert(b, s[1..])
  }

  /** Insertion keeps a sequence newest first. */
  lemma {:induction false} InsertKeepsNewestFirst(b: Bookmark, s: seq<Bookmark>)
    requires NewestFirst(s)
    ensures NewestFirst(Insert(b, s))
  {
    if s != [] && b.createdAt < s[0].createdAt {
      var tail := Insert(b, s[1..]);
      InsertKeepsNewestFirst(b, s[1..]);
      assert s[0].createdAt >= tail[0].createdAt by {
        if tail[0] != b {
          assert s[0].createdAt >= s[1].createdAt;
        }
      }
      var r := [s[0]] + tail;
      assert Insert(b, s) == r;
      forall i, j | 0 <= i < j < |r| ensures r[i].createdAt >= r[j].createdAt {
        if i == 0 && j > 1 {
          assert tail[0].createdAt >= tail[j - 1].createdAt;
        } else if i > 0 {
          assert r[i] == tail[i - 1] && r[j] == tail[j - 1];
        }
      }
    }
  }

  function SortNewestFirst(s: seq<Bookmark>): (r: seq<Bookmark>)
    ensures multiset(r) == multiset(s)
    ensures NewestFirst(r)
  {
    if s == [] then []
    else
      assert s == [s[0]] + s[1..];
      var sorted := SortNewestFirst(s[1..]);
      InsertKeepsNewestFirst(s[0], sorted);
      Insert(s[0], sorted)
  }

  /** `GET /`: the caller's bookmarks, newest first. */
  function ListBookmarks(t: Bookmarks, caller: UserId): (r: Response)
    ensures r.status == 200 && r.body.Many?
    ensures NewestFirst(r.body.bookmarks)
    ensures multiset(r.body.bookmarks) == multiset(OwnedBy(t, caller))
  {
    Response(200, Many(SortNewestFirst(OwnedBy(t, caller))))
  }

  /** The scan holds exactly the owner's stored bookmarks below `n`, each once, in id order. */
  lemma {:induction false} OwnedBelowExactly(t: Bookmarks, owner: UserId, n: nat)
    requires BookmarksValid(t)
    ensures forall b :: b in OwnedBelow(t.records, owner, n) <==> b.id < n && Owns(t, owner, b.id) && t.records[b.id] == b
    ensures forall i, j :: 0 <= i < j < |OwnedBelow(t.records, owner, n)| ==>
      OwnedBelow(t.records, owner, n)[i].id < OwnedBelow(t.records, owner, n)[j].id
    ensures forall i :: 0 <= i < |OwnedBelow(t.records, owner, n)| ==> OwnedBelow(t.records, owner, n)[i].id < n
  {
    if n > 0 {
      OwnedBelowExactly(t, owner, n - 1);
    }
  }

  /** `GET /` lists every stored bookmark of the caller and nothing else, each exactly once. */
  lemma ListIsExactlyCallersBookmarks(t: Bookmarks, caller: UserId)
    requires BookmarksValid(t)
    ensures forall b :: b in ListBookmarks(t, caller).body.bookmarks <==> Owns(t, caller, b.id) && t.records[b.id] == b
    ensures forall b :: b in ListBookmarks(t, caller).body.bookmarks ==>
      multiset(ListBookmarks(t, caller).body.bookmarks)[b] == 1
    ensures |ListBookmarks(t, caller).body.bookmarks| == |set id | id in t.records && t.records[id].owner == caller|
  {
    var scan := OwnedBy(t, caller);
    var listed := ListBookmarks(t, caller).body.bookmarks;
    OwnedBelowExactly(t, caller, t.next);
    DistinctIdsOccurOnce(scan);
    forall b | b in listed ensures multiset(listed)[b] == 1 {
      assert b in multiset(listed);
    }
    IdsOfScan(t, caller, scan);
    assert |listed| == |multiset(listed)| == |multiset(scan)| == |scan|;
  }

  /** In a sequence with strictly increasing ids every element occurs once. */
  lemma {:induction false} DistinctIdsOccurOnce(s: seq<Bookmark>)
    requires forall i, j :: 0 <= i < j < |s| ==> s[i].id < s[j].id
    ensures forall b :: b in s ==> multiset(s)[b] == 1
  {
    if s != [] {
      var last := s[|s| - 1];
      var init := s[..|s| - 1];
      assert s == init + [last];
      DistinctIdsOccurOnce(init);
      assert last !in init by {
        forall i | 0 <= i < |init| ensures init[i] != last {
          assert s[i].id < s[|s| - 1].id;
        }
      }
      forall b | b in s ensures multiset(s)[b] == 1 {
        assert multiset(s) == multiset(init) + multiset{last};
      }
    }
  }

  /** The scan has as many entries as the caller owns ids. */
  lemma IdsOfScan(t: Bookmarks, caller: UserId, scan: seq<Bookmark>)
    requires BookmarksValid(t) && scan == OwnedBy(t, caller)
    requires forall b :: b in scan <==> b.id < t.next && Owns(t, caller, b.id) && t.records[b.id] == b
    requires forall i, j :: 0 <= i < j < |scan| ==> scan[i].id < scan[j].id
    ensures |scan| == |set id | id in t.records && t.records[id].owner == caller|
  {
    var ids := set id | id in t.records && t.records[id].owner == caller;
    var scanIds := set i | 0 <= i < |scan| :: scan[i].id;
    assert scanIds == ids by {
      forall id | id in ids ensures id in scanIds {
        var b := t.records[id];
        assert b in scan;
        var i :| 0 <= i < |scan| && scan[i] == b;
      }
    }
    IncreasingIdsCount(scan);
  }

  lemma {:induction false} IncreasingIdsCount(s: seq<Bookmark>)
    requires forall i, j :: 0 <= i < j < |s| ==> s[i].id < s[j].id
    ensures |set i | 0 <= i < |s| :: s[i].id| == |s|
  {
    if s != [] {
      var init := s[..|s| - 1];
      IncreasingIdsCount(init);
      var a := set i | 0 <= i < |init| :: init[i].id;
      var b := set i | 0 <= i < |s| :: s[i].id;
      assert b == a + {s[|s| - 1].id};
      assert s[|s| - 1].id !in a by {
        forall i | 0 <= i < |init| ensures init[i].id != s[|s| - 1].id {
          assert s[i].id < s[|s| - 1].id;
        }
      }
    }
  }

  /** The scan only looks at the owner's records: stores that agree on them scan alike. */
  lemma {:induction false} OwnedBelowDependsOnlyOnOwner(r1: map<BookmarkId, Bookmark>, r2: map<BookmarkId, Bookmark>, owner: UserId, n: nat)
    requires forall id :: id < n ==> ((id in r1 && r1[id].owner == owner) <==> (id in r2 && r2[id].owner == owner))
    requires forall id :: id < n && id in r1 && id in r2 && r1[id].owner == owner ==> r1[id] == r2[id]
    ensures OwnedBelow(r1, owner, n) == OwnedBelow(r2, owner, n)
  {
    if n > 0 {
      OwnedBelowDependsOnlyOnOwner(r1, r2, owner, n - 1);
    }
  }

  /** A bookmark created by someone else leaves a user's listing exactly as it was. */
  lemma OthersCreateLeavesListUnchanged(t: Bookmarks, b: Bookmark, owner: UserId)
    requires BookmarksValid(t)
    requires b.owner != owner
    ensures ListBookmarks(Bookmarks(t.records[t.next := b], t.next + 1), owner) == ListBookmarks(t, owner)
  {
    var r := t.records[t.next := b];
    OwnedBelowDependsOnlyOnOwner(t.records, r, owner, t.next);
    assert OwnedBelow(r, owner, t.next + 1) == OwnedBelow(r, owner, t.next);
  }

  /** A change to or removal of someone else's bookmark leaves a user's listing as it was. */
  lemma OthersChangeLeavesListUnchanged(t: Bookmarks, t': Bookmarks, id: BookmarkId, owner: UserId)
    requires t'.next == t.next
    requires id in t.records && t.records[id].owner != owner
    requires t'.records == t.records - {id} || (id in t'.records && t'.records[id].owner != owner && t'.records == t.records[id := t'.records[id]])
    ensures ListBookmarks(t', owner) == ListBookmarks(t, owner)
  {
    OwnedBelowDependsOnlyOnOwner(t.records, t'.records, owner, t.next);
  }

  /** A bookmark just created shows up in its owner's listing. */
  lemma CreatedBookmarkIsListed(t: Bookmarks, b: Bookmark)
    requires BookmarksValid(t)
    requires b.id == t.next && SchemaValid(b)
    ensures b in ListBookmarks(Bookmarks(t.records[t.next := b], t.next + 1), b.owner).body.bookmarks
  {
    ListIsExactlyCallersBookmarks(Bookmarks(t.records[t.next := b], t.next + 1), b.owner);
  }

  /** One user creates a bookmark, then another lists theirs: the listing is the one from
      before, and the creator's listing now holds what the create returned. */
  method CreateThenList(t: Bookmarks, creator: UserId, other: UserId, body: BookmarkBody, now: int)
      returns (created: Response, mine: Response, theirs: Response)
    requires BookmarksValid(t)
    requires creator != other
    ensures theirs == ListBookmarks(t, other)
    ensures mine.body.Many? && (created.status == 201 ==> created.body.One? && created.body.bookmark in mine.body.bookmarks)
    ensures created.status != 201 ==> mine == ListBookmarks(t, creator)
  {
    var t';
    created, t' := CreateBookmark(t, creator, body, now);
    if created.status == 201 {
      OthersCreateLeavesListUnchanged(t, created.body.bookmark, other);
      CreatedBookmarkIsListed(t, created.body.bookmark);
    }
    mine := ListBookmarks(t', creator);
    theirs := ListBookmarks(t', other);
  }

  // ---------------------------------------------------------------- read

  /** `GET /:id`: the bookmark when the caller owns it, otherwise 404. */
  function GetBookmark(t: Bookmarks, caller: UserId, id: BookmarkId): (r: Response)
    ensures r.status == 200 <==> Owns(t, caller, id)
    ensures r.status == 200 ==> r.body == One(t.records[id])
    ensures r.status != 200 ==> r == Response(404, Failed(NotFound))
  {
    if Owns(t, caller, id) then Response(200, One(t.records[id])) else Response(404, Failed(NotFound))
  }

  /** Somebody else's bookmark answers exactly as an id that does not exist. */
  lemma ForeignLooksMissing(t: Bookmarks, caller: UserId, id: BookmarkId)
    requires id in t.records && t.records[id].owner != caller
    ensures GetBookmark(t, caller, id) == GetBookmark(Bookmarks(t.records - {id}, t.next), caller, id)
  {
  }

  // ---------------------------------------------------------------- update

  /** `PUT /:id`: at least one truthy field; only the caller's bookmark, and only its given
      fields and `updatedAt`, change. */
  method UpdateBookmark(t: Bookmarks, caller: UserId, id: BookmarkId, body: BookmarkBody, now: int)
      returns (response: Response, t': Bookmarks)
    requires BookmarksValid(t)
    ensures BookmarksValid(t')
    ensures !Truthy(body.title) && !Truthy(body.url) ==>
      response == Response(400, Failed(NothingToUpdate)) && t' == t
    ensures (Truthy(body.title) || Truthy(body.url)) && !Owns(t, caller, id) ==>
      response == Response(404, Failed(NotFound)) && t' == t
    ensures (Truthy(body.title) || Truthy(body.url)) && Owns(t, caller, id) ==>
      var b := Revised(t.records[id], body.title, body.url, now);
      && t' == Bookmarks(t.records[id := b], t.next)
      && response == Response(200, One(b))
    ensures t'.next == t.next && t'.records.Keys == t.records.Keys
    ensures forall k :: k in t.records && k != id ==> t'.records[k] == t.records[k]
    ensures forall k :: k in t.records ==> t'.records[k].owner == t.records[k].owner
  {
    if !Truthy(body.title) && !Truthy(body.url) {
      return Response(400, Failed(NothingToUpdate)), t;
    }
    if !Owns(t, caller, id) {
      return Response(404, Failed(NotFound)), t;
    }
    var b := Revised(t.records[id], body.title, body.url, now);
    t' := Bookmarks(t.records[id := b], t.next);
    response := Response(200, One(b));
  }

  // ---------------------------------------------------------------- delete

  /** `DELETE /:id`: removes the caller's bookmark and nothing else, otherwise 404. */
  method DeleteBookmark(t: Bookmarks, caller: UserId, id: BookmarkId)
      returns (response: Response, t': Bookmarks)
    requires BookmarksValid(t)
    ensures BookmarksValid(t')
    ensures Owns(t, caller, id) ==>
      t' == Bookmarks(t.records - {id}, t.next) && response == Response(200, Done(DeletedSuccessfully))
    ensures !Owns(t, caller, id) ==> response == Response(404, Failed(NotFound)) && t' == t
    ensures forall k :: k in t.records && k != id ==> k in t'.records && t'.records[k] == t.records[k]
  {
    if !Owns(t, caller, id) {
      return Response(404, Failed(NotFound)), t;
    }
    t' := Bookmarks(t.records - {id}, t.next);
    response := Response(200, Done(DeletedSuccessfully));
  }
}
