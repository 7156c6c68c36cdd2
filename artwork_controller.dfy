/**
 * The artwork handlers over the artwork collection: create (with an
 * uploaded image), list the requester's own artworks, delete and update
 * an artwork the requester sells, and list every artwork.
 *
 * The requester is `req.user`, which the authentication middleware may
 * have set to null; reading its `_id` then throws, and the handler answers
 * 500 with the error's message. Such messages come from the runtime or the
 * database library; the model labels them with the error's class name.
 */
module ArtworkController {
  import opened Common
  import opened ArtworkModel

  const ImageRequired: string := "Image file is required"
  const NotFoundMessage: string := "Artwork not found or not authorized"
  const DeletedMessage: string := "Artwork deleted"
  const TypeErrorMessage: string := "TypeError"
  const ValidationErrorMessage: string := "ValidationError"

  /** The fields `createArtwork` reads from the body. */
  datatype ArtworkBody = ArtworkBody(
    title: Option<string>,
    description: Option<string>,
    price: Option<int>,
    category: Option<string>,  // the body's `label`
    status: Option<string>)

  /** The fields an update body sets; an absent field keeps its stored value. */
  datatype ArtworkPatch = ArtworkPatch(
    title: Option<string>,
    description: Option<string>,
    price: Option<int>,
    category: Option<string>,  // the body's `label`
    status: Option<string>,
    imageUrl: Option<string>,
    seller: Option<UserId>)

  function UploadUrl(filename: string): string {
    "/uploads/" + filename
  }

  /** The document `createArtwork` builds: body fields, the upload's URL and the requester. */
  function NewArtworkInput(body: ArtworkBody, filename: string, seller: UserId): ArtworkInput {
    ArtworkInput(body.title, body.description, body.price, body.category, body.status, Some(UploadUrl(filename)), Some(seller))
  }

  /**
   * The answer of `createArtwork` when the collection would assign `id`:
   * 400 without a file, 500 without a requester or when validation fails,
   * and otherwise 201 with the saved artwork.
   */
  function CreateReply(body: ArtworkBody, file: Option<string>, requester: Option<UserId>, id: ArtworkId, now: Instant): (r: Reply<Artwork>)
    ensures file.None? ==> r == Fail(Failure(400, ImageRequired))
    ensures r.Ok? <==> file.Some? && requester.Some? && PresentText(body.title) && body.price.Some?
                       && body.status.Some? && StatusAllowed(body.status.value)
    ensures r.Ok? ==>
      && r.status == 201
      && r.value == Artwork(id, body.title.value, body.description, body.price.value, body.category,
                            body.status.value, UploadUrl(file.value), requester.value, now, now)
  {
    if file.None? then Fail(Failure(400, ImageRequired))
    else if requester.None? then Fail(Failure(500, TypeErrorMessage))
    else
      match CreateDocument(NewArtworkInput(body, file.value, requester.value), id, now)
      case None =>
        Fail(Failure(500, ValidationErrorMessage))
      case Some(a) =>
        Ok(201, a)
  }

  /** A body without a status gets the schema's invalid default, so creating from it always fails. */
  lemma CreateWithoutStatusFails(body: ArtworkBody, file: Option<string>, requester: Option<UserId>, id: ArtworkId, now: Instant)
    requires body.status.None?
    ensures CreateReply(body, file, requester, id, now).Fail?
    ensures file.Some? && requester.Some? ==> CreateReply(body, file, requester, id, now) == Fail(Failure(500, ValidationErrorMessage))
  {
    if file.Some? && requester.Some? {
      CreateDocumentStatus(NewArtworkInput(body, file.value, requester.value), id, now);
    }
  }

  /** An artwork the given seller sells is stored under `id`. */
  predicate Owned(rows: map<ArtworkId, Artwork>, id: ArtworkId, seller: UserId) {
    id in rows && rows[id].seller == seller
  }

  /** The table after `findOneAndDelete({ _id: id, seller })`. */
  function AfterDelete(rows: map<ArtworkId, Artwork>, id: ArtworkId, seller: UserId): (r: map<ArtworkId, Artwork>)
    ensures Owned(rows, id, seller) ==> id !in r
    ensures !Owned(rows, id, seller) ==> r == rows
    ensures forall k :: k in r ==> k in rows && r[k] == rows[k]
    ensures forall k :: k in rows && k != id ==> k in r
  {
    if Owned(rows, id, seller) then rows - {id} else rows
  }

  /** The fields of the update body written over a stored artwork, `updatedAt` stamped. */
  function Patched(a: Artwork, patch: ArtworkPatch, now: Instant): (b: Artwork)
    ensures b.id == a.id && b.createdAt == a.createdAt && b.updatedAt == now
    ensures b.title == patch.title.GetOr(a.title) && b.status == patch.status.GetOr(a.status)
    ensures b.seller == patch.seller.GetOr(a.seller) && b.price == patch.price.GetOr(a.price)
    ensures b.imageUrl == patch.imageUrl.GetOr(a.imageUrl)
    ensures b.description == (if patch.description.Some? then patch.description else a.description)
    ensures b.category == (if patch.category.Some? then patch.category else a.category)
  {
    a.(title := patch.title.GetOr(a.title),
       description := if patch.description.Some? then patch.description else a.description,
       price := patch.price.GetOr(a.price),
       category := if patch.category.Some? then patch.category else a.category,
       status := patch.status.GetOr(a.status),
       imageUrl := patch.imageUrl.GetOr(a.imageUrl),
       seller := patch.seller.GetOr(a.seller),
       updatedAt := now)
  }

  /** The table after `findOneAndUpdate({ _id: id, seller }, patch)`. */
  function AfterUpdate(rows: map<ArtworkId, Artwork>, id: ArtworkId, seller: UserId, patch: ArtworkPatch, now: Instant): (r: map<ArtworkId, Artwork>)
    ensures r.Keys == rows.Keys
    ensures Owned(rows, id, seller) ==> r[id] == Patched(rows[id], patch, now)
    ensures !Owned(rows, id, seller) ==> r == rows
    ensures forall k :: k in rows && k != id ==> r[k] == rows[k]
  {
    if Owned(rows, id, seller) then rows[id := Patched(rows[id], patch, now)] else rows
  }

  /** Every stored artwork sits under its own id. */
  predicate Keyed(rows: map<ArtworkId, Artwork>) {
    forall id :: id in rows ==> rows[id].id == id
  }

  /** Strictly increasing ids: no artwork is listed twice. */
  predicate IdsAscending(s: seq<Artwork>) {
    forall i, j :: 0 <= i < j < |s| ==> s[i].id < s[j].id
  }

  /** The stored artworks with id below `n`, in id order (the collection's natural order). */
  function Listing(rows: map<ArtworkId, Artwork>, n: nat): (r: seq<Artwork>)
    ensures forall a :: a in r ==> a in rows.Values
    ensures forall id :: id in rows && id < n ==> rows[id] in r
    ensures Keyed(rows) ==> IdsAscending(r) && forall a :: a in r ==> a.id < n
  {
    if n == 0 then []
    else Listing(rows, n - 1) + (if n - 1 in rows then [rows[n - 1]] else [])
  }

  /** `{ seller }` as a filter, keeping the order. */
  function OfSeller(s: seq<Artwork>, seller: UserId): (r: seq<Artwork>)
    ensures forall a :: a in r <==> a in s && a.seller == seller
    ensures IdsAscending(s) ==> IdsAscending(r)
  {
    if |s| == 0 then []
    else
      var rest := OfSeller(s[1..], seller);
      AscendingCons(s, rest);
      (if s[0].seller == seller then [s[0]] else []) + rest
  }

  /** Dropping the head keeps the ids increasing, and so does putting it back before any of its followers. */
  lemma AscendingCons(s: seq<Artwork>, rest: seq<Artwork>)
    requires |s| > 0
    requires forall a :: a in rest ==> a in s[1..]
    ensures IdsAscending(s) ==> IdsAscending(s[1..])
    ensures IdsAscending(s) && IdsAscending(rest) ==> IdsAscending([s[0]] + rest)
  {
    if IdsAscending(s) && IdsAscending(rest) {
      var t := [s[0]] + rest;
      forall i, j | 0 <= i < j < |t| ensures t[i].id < t[j].id {
        if i == 0 {
          assert t[j] == rest[j - 1] && rest[j - 1] in rest;
          var k :| 0 <= k < |s[1..]| && s[1..][k] == t[j];
          assert s[k + 1] == t[j];
        }
      }
    }
  }

  /** The artwork collection, changed in place by the handlers. */
  class ArtworkCollection {
    var rows: map<ArtworkId, Artwork>
    var nextId: nat

    /** Every stored artwork sits under its own id, and ids are handed out in increasing order. */
    ghost predicate Valid()
      reads this
    {
      forall id :: id in rows ==> id < nextId && rows[id].id == id
    }

    constructor ()
      ensures Valid() && rows == map[] && nextId == 0
    {
      rows := map[];
      nextId := 0;
    }

    /** `createArtwork`. */
    method CreateArtwork(body: ArtworkBody, file: Option<string>, requester: Option<UserId>, now: Instant)
      returns (reply: Reply<Artwork>)
      requires Valid()
      modifies this
      ensures Valid()
      ensures reply == CreateReply(body, file, requester, old(nextId), now)
      ensures reply.Ok? ==> rows == old(rows)[old(nextId) := reply.value] && nextId == old(nextId) + 1
      ensures reply.Fail? ==> rows == old(rows) && nextId == old(nextId)
    {
      reply := CreateReply(body, file, requester, nextId, now);
      if reply.Ok? {
        rows := rows[nextId := reply.value];
        nextId := nextId + 1;
      }
    }

    /** `getMyArtworks`: exactly the requester's artworks. */
    method GetMyArtworks(requester: Option<UserId>) returns (reply: Reply<seq<Artwork>>)
      requires Valid()
      ensures requester.None? ==> reply == Fail(Failure(500, TypeErrorMessage))
      ensures requester.Some? ==> reply.Ok? && reply.status == 200
      ensures reply.Ok? ==> forall a :: a in reply.value <==> a in rows.Values && a.seller == requester.value
      ensures reply.Ok? ==> IdsAscending(reply.value)
    {
      if requester.None? {
        return Fail(Failure(500, TypeErrorMessage));
      }
      var all := Listing(rows, nextId);
      forall a | a in rows.Values ensures a in all {
        var id :| id in rows && rows[id] == a;
      }
      reply := Ok(200, OfSeller(all, requester.value));
    }

    /** `getAllArtworksPublic`: every artwork, whatever its status or seller. */
    method GetAllArtworksPublic() returns (reply: Reply<seq<Artwork>>)
      requires Valid()
      ensures reply.Ok? && reply.status == 200
      ensures forall a :: a in reply.value <==> a in rows.Values
      ensures IdsAscending(reply.value)
    {
      var all := Listing(rows, nextId);
      forall a | a in rows.Values ensures a in all {
        var id :| id in rows && rows[id] == a;
      }
      reply := Ok(200, all);
    }

    /** `deleteArtwork`: removes the artwork only when both its id and its seller match. */
    method DeleteArtwork(id: ArtworkId, requester: Option<UserId>) returns (reply: Reply<string>)
      requires Valid()
      modifies this
      ensures Valid() && nextId == old(nextId)
      ensures requester.None? ==> reply == Fail(Failure(500, TypeErrorMessage)) && rows == old(rows)
      ensures requester.Some? ==> rows == AfterDelete(old(rows), id, requester.value)
      ensures requester.Some? ==>
        reply == if Owned(old(rows), id, requester.value) then Ok(200, DeletedMessage) else Fail(Failure(404, NotFoundMessage))
    {
      if requester.None? {
        return Fail(Failure(500, TypeErrorMessage));
      }
      if Owned(rows, id, requester.value) {
        rows := AfterDelete(rows, id, requester.value);
        reply := Ok(200, DeletedMessage);
      } else {
        reply := Fail(Failure(404, NotFoundMessage));
      }
    }

    /**
     * `updateArtwork`: writes the body's fields over the artwork only when
     * both its id and its seller match, and answers the updated record. No
     * schema validator runs on the update.
     */
    method UpdateArtwork(id: ArtworkId, requester: Option<UserId>, patch: ArtworkPatch, now: Instant)
      returns (reply: Reply<Artwork>)
      requires Valid()
      modifies this
      ensures Valid() && nextId == old(nextId)
      ensures requester.None? ==> reply == Fail(Failure(500, TypeErrorMessage)) && rows == old(rows)
      ensures requester.Some? ==> rows == AfterUpdate(old(rows), id, requester.value, patch, now)
      ensures requester.Some? ==>
        reply == if Owned(old(rows), id, requester.value) then Ok(200, rows[id]) else Fail(Failure(404, NotFoundMessage))
    {
      if requester.None? {
        return Fail(Failure(500, TypeErrorMessage));
      }
      if Owned(rows, id, requester.value) {
        rows := AfterUpdate(rows, id, requester.value, patch, now);
        reply := Ok(200, rows[id]);
      } else {
        reply := Fail(Failure(404, NotFoundMessage));
      }
    }
  }

  // ---------------------------------------------------------------------
  // properties of the table operations

  /** Deleting an artwork right after creating it restores the table. */
  lemma CreateThenDelete(rows: map<ArtworkId, Artwork>, body: ArtworkBody, file: Option<string>, seller: UserId, id: ArtworkId, now: Instant)
    requires id !in rows
    requires CreateReply(body, file, Some(seller), id, now).Ok?
    ensures var a := CreateReply(body, file, Some(seller), id, now).value;
      Owned(rows[id := a], id, seller) && AfterDelete(rows[id := a], id, seller) == rows
  {
    var a := CreateReply(body, file, Some(seller), id, now).value;
    assert rows[id := a] - {id} == rows;
  }

  /** A second identical delete removes nothing more, and finds nothing to delete. */
  lemma DeleteIdempotent(rows: map<ArtworkId, Artwork>, id: ArtworkId, seller: UserId)
    ensures AfterDelete(AfterDelete(rows, id, seller), id, seller) == AfterDelete(rows, id, seller)
    ensures !Owned(AfterDelete(rows, id, seller), id, seller)
  {
  }

  /**
   * Repeating an update with the same body at the same instant changes
   * nothing more (a later repeat re-stamps `updatedAt`, see `UpdateRestamps`);
   * when the body hands the artwork to another seller, the repeat finds no
   * owned artwork and does nothing.
   */
  lemma UpdateIdempotent(rows: map<ArtworkId, Artwork>, id: ArtworkId, seller: UserId, patch: ArtworkPatch, now: Instant)
    ensures var once := AfterUpdate(rows, id, seller, patch, now);
      AfterUpdate(once, id, seller, patch, now) == once
  {
    var once := AfterUpdate(rows, id, seller, patch, now);
    if Owned(rows, id, seller) && Owned(once, id, seller) {
      assert Patched(once[id], patch, now) == once[id];
      assert once[id := Patched(once[id], patch, now)] == once;
    }
  }

  /**
   * Repeating an owned update later, with a body that keeps the seller,
   * only stamps the new time into `updatedAt`: the other fields stay as the
   * first update left them.
   */
  lemma UpdateRestamps(rows: map<ArtworkId, Artwork>, id: ArtworkId, seller: UserId, patch: ArtworkPatch, now: Instant, later: Instant)
    requires Owned(rows, id, seller) && patch.seller.GetOr(seller) == seller
    ensures var once := AfterUpdate(rows, id, seller, patch, now);
      AfterUpdate(once, id, seller, patch, later) == once[id := once[id].(updatedAt := later)]
  {
    var once := AfterUpdate(rows, id, seller, patch, now);
    assert once[id] == Patched(rows[id], patch, now);
    assert Owned(once, id, seller);
    assert Patched(once[id], patch, later) == once[id].(updatedAt := later);
  }

  /**
   * Because the update runs no validators, a seller can store a status
   * outside the enum, and can hand the artwork to another seller, after
   * which the original seller can neither update nor delete it.
   */
  lemma UpdateBypassesSchema(rows: map<ArtworkId, Artwork>, id: ArtworkId, seller: UserId, other: UserId, now: Instant)
    requires Owned(rows, id, seller) && other != seller
    ensures var r := AfterUpdate(rows, id, seller, ArtworkPatch(None, None, None, None, Some("pending"), None, None), now);
      !StatusAllowed(r[id].status)
    ensures var r := AfterUpdate(rows, id, seller, ArtworkPatch(None, None, None, None, None, None, Some(other)), now);
      Owned(r, id, other) && !Owned(r, id, seller) && AfterDelete(r, id, seller) == r
  {
  }
}
