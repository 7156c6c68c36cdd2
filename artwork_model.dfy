/**
 * The Artwork schema: required title, price, image URL and seller;
 * optional description and label; a status restricted to `Available` or
 * `Sold`; createdAt/updatedAt timestamps.
 *
 * The schema's declared default status is the lower-case `'available'`,
 * which is not one of the enum values. Mongoose validates defaulted paths
 * on `save()`, so a document created without a status never validates.
 */
module ArtworkModel {
  import opened Common

  datatype Artwork = Artwork(
    id: ArtworkId,
    title: string,
    description: Option<string>,
    price: int,
    category: Option<string>,  // the schema's `label` path
    status: string,
    imageUrl: string,
    seller: UserId,
    createdAt: Instant,
    updatedAt: Instant)

  /** The schema's `default: 'available'`. */
  const DefaultStatus: string := "available"

  /** The schema's `enum: ['Available', 'Sold']`. */
  predicate StatusAllowed(s: string) {
    s == "Available" || s == "Sold"
  }

  /** The fields a new artwork document is built from, each possibly absent. */
  datatype ArtworkInput = ArtworkInput(
    title: Option<string>,
    description: Option<string>,
    price: Option<int>,
    category: Option<string>,  // the schema's `label` path
    status: Option<string>,
    imageUrl: Option<string>,
    seller: Option<UserId>)

  /** The validators `save()` runs on a new document (defaults applied first). */
  predicate ArtworkInputValid(input: ArtworkInput)
    ensures ArtworkInputValid(input) ==> input.status.Some? && StatusAllowed(input.status.value)
  {
    && PresentText(input.title)
    && input.price.Some?
    && StatusAllowed(input.status.GetOr(DefaultStatus))
    && PresentText(input.imageUrl)
    && input.seller.Some?
  }

  /**
   * `new Artwork(input).save()` at time `now` under the fresh id `id`:
   * `None` is the validation error.
   */
  function CreateDocument(input: ArtworkInput, id: ArtworkId, now: Instant): (r: Option<Artwork>)
    ensures r.Some? <==> ArtworkInputValid(input)
    ensures r.Some? ==> r.value.id == id && r.value.createdAt == now && r.value.updatedAt == now
  {
    if !ArtworkInputValid(input) then None
    else
      Some(Artwork(
        id,
        input.title.value,
        input.description,
        input.price.value,
        input.category,
        input.status.value,
        input.imageUrl.value,
        input.seller.value,
        now,
        now))
  }

  /** The declared default is not one of the allowed statuses. */
  lemma DefaultStatusNotAllowed()
    ensures !StatusAllowed(DefaultStatus)
  {
  }

  /**
   * A document that leaves the status to the default is rejected, and a
   * stored document always carries one of the two allowed statuses.
   */
  lemma CreateDocumentStatus(input: ArtworkInput, id: ArtworkId, now: Instant)
    ensures input.status.None? ==> CreateDocument(input, id, now).None?
    ensures CreateDocument(input, id, now).Some? ==> StatusAllowed(CreateDocument(input, id, now).value.status)
  {
  }

  /** Description and label (category) are optional; title, price, image and seller are not. */
  lemma CreateDocumentRequired(input: ArtworkInput, id: ArtworkId, now: Instant)
    ensures (CreateDocument(input.(description := None, category := None), id, now).Some?
             <==> CreateDocument(input, id, now).Some?)
    ensures (!PresentText(input.title) || input.price.None? || !PresentText(input.imageUrl) || input.seller.None?)
            ==> CreateDocument(input, id, now).None?
  {
  }
}
