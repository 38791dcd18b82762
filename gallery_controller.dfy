/** The public gallery endpoints. A failing database query (the `catch`
    branch) is the flag `down`: every query of that request throws. */
module GalleryController {
  import opened Wrappers
  import opened Schema
  import opened Sequences
  import opened GalleryService
  import opened Http

  const GALLERY_NOT_FOUND: string := "Gallery not found"
  const PASSWORD_REQUIRED: string := "Password required to view this gallery"
  const LIST_FAILED: string := "Failed to fetch galleries"
  const GALLERY_FAILED: string := "Failed to fetch gallery"
  const PHOTOS_FAILED: string := "Failed to fetch photos"

  /** What `getGallery` answers: the whole row, or for a private gallery
      only `id`, `title` and `slug` (with `is_public: false` and
      `requires_password: true`). */
  datatype GalleryView = Full(gallery: Gallery) | Locked(id: string, title: string, slug: string)

  /** `listGalleries` */
  function ListGalleries(gs: seq<Gallery>, down: bool): Response<seq<Gallery>> {
    if down then Failure(500, LIST_FAILED) else Success(PublicGalleries(gs))
  }

  /** The list never shows a private gallery and leaves out no public one. */
  lemma ListGalleriesShowsPublicOnly(gs: seq<Gallery>, down: bool)
    ensures var r := ListGalleries(gs, down);
            && (r.Failure? <==> down)
            && (r.Failure? ==> r == Failure(500, LIST_FAILED))
            && (r.Success? ==>
                  && (forall i :: 0 <= i < |r.data| ==> r.data[i].isPublic && r.data[i] in gs)
                  && (forall i :: 0 <= i < |gs| && gs[i].isPublic ==> gs[i] in r.data)
                  && SortedBy(r.data, NewestFirst))
  {
    PublicGalleriesSpec(gs);
  }

  /** `getGallery` on the galleries table: the response and the table
      afterwards. */
  function GetGalleryStep(gs: seq<Gallery>, slug: string, down: bool): (Response<GalleryView>, seq<Gallery>) {
    if down then (Failure(500, GALLERY_FAILED), gs)
    else
      match GalleryBySlug(gs, slug)
      case None => (Failure(404, GALLERY_NOT_FOUND), gs)
      case Some(g) =>
        if !g.isPublic then (Success(Locked(g.id, g.title, g.slug)), gs)
        else (Success(Full(g)), BumpGalleryViews(gs, g.id))
  }

  /** Counting a view of the gallery in row `k` changes that gallery's
      count by one and nothing else that a lookup by id can see. */
  lemma BumpFoundGallery(gs: seq<Gallery>, k: int)
    requires UniqueGalleryIds(gs) && 0 <= k < |gs|
    ensures var g := gs[k];
            GalleryById(BumpGalleryViews(gs, g.id), g.id) == Some(Viewed(g))
    ensures forall other :: other != gs[k].id ==>
              GalleryById(BumpGalleryViews(gs, gs[k].id), other) == GalleryById(gs, other)
  {
    var g := gs[k];
    GalleryByIdFindsRow(gs, k);
    BumpGalleryViewsLookup(gs, g.id, g.id);
    forall other | other != g.id
      ensures GalleryById(BumpGalleryViews(gs, g.id), other) == GalleryById(gs, other)
    {
      BumpGalleryViewsLookup(gs, g.id, other);
    }
  }

  /** A private gallery is answered with its id, title and slug only, and
      its views are not counted; a public one is answered whole, as read
      before its view count went up by one. */
  lemma GetGalleryCountsPublicViews(gs: seq<Gallery>, slug: string)
    requires UniqueGalleryIds(gs)
    ensures GalleryBySlug(gs, slug).None? ==> GetGalleryStep(gs, slug, false) == (Failure(404, GALLERY_NOT_FOUND), gs)
    ensures GalleryBySlug(gs, slug).Some? && !GalleryBySlug(gs, slug).value.isPublic ==>
              var g := GalleryBySlug(gs, slug).value;
              GetGalleryStep(gs, slug, false) == (Success(Locked(g.id, g.title, g.slug)), gs)
    ensures GetGalleryStep(gs, slug, false).0.Success? && GetGalleryStep(gs, slug, false).0.data.Full? ==>
              var g := GetGalleryStep(gs, slug, false).0.data.gallery;
              var after := GetGalleryStep(gs, slug, false).1;
              && g.isPublic && g.slug == slug && g in gs
              && GalleryById(after, g.id) == Some(Viewed(g))
              && (forall other :: other != g.id ==> GalleryById(after, other) == GalleryById(gs, other))
  {
    match GalleryBySlug(gs, slug)
    case None =>
    case Some(g) =>
      var k :| 0 <= k < |gs| && gs[k] == g;
      if g.isPublic {
        BumpFoundGallery(gs, k);
      }
  }

  /** `getGallery` */
  method GetGallery(db: Db, slug: string, down: bool) returns (r: Response<GalleryView>)
    modifies db
    ensures (r, db.galleries) == GetGalleryStep(old(db.galleries), slug, down)
    ensures db.photos == old(db.photos)
  {
    if down {
      return Failure(500, GALLERY_FAILED);
    }
    var found := GalleryBySlug(db.galleries, slug);
    if found.None? {
      return Failure(404, GALLERY_NOT_FOUND);
    }
    var g := found.value;
    if !g.isPublic {
      return Success(Locked(g.id, g.title, g.slug));
    }
    IncrementGalleryViews(db, g.id);
    r := Success(Full(g));
  }

  /** `getGalleryPhotos` */
  function GetGalleryPhotos(gs: seq<Gallery>, ps: seq<Photo>, slug: string, down: bool): Response<seq<Photo>> {
    if down then Failure(500, PHOTOS_FAILED)
    else
      match GalleryBySlug(gs, slug)
      case None => Failure(404, GALLERY_NOT_FOUND)
      case Some(g) =>
        if !g.isPublic then Failure(401, PASSWORD_REQUIRED)
        else Success(GalleryPhotos(ps, g.id))
  }

  /** Photos are listed only for a public gallery found by its slug, and
      then they are exactly that gallery's photos in display order; with
      unique gallery ids, no photo of a private gallery is ever listed. */
  lemma GalleryPhotosWithheldWhenPrivate(gs: seq<Gallery>, ps: seq<Photo>, slug: string)
    requires UniqueGalleryIds(gs)
    ensures var r := GetGalleryPhotos(gs, ps, slug, false);
            && (r.Success? <==> GalleryBySlug(gs, slug).Some? && GalleryBySlug(gs, slug).value.isPublic)
            && (GalleryBySlug(gs, slug).Some? && !GalleryBySlug(gs, slug).value.isPublic ==> r == Failure(401, PASSWORD_REQUIRED))
            && (r.Success? ==>
                  && SortedBy(r.data, PhotoOrder)
                  && forall i :: 0 <= i < |r.data| ==>
                       r.data[i] in ps && GalleryById(gs, r.data[i].galleryId).Some?
                       && GalleryById(gs, r.data[i].galleryId).value.isPublic)
  {
    var r := GetGalleryPhotos(gs, ps, slug, false);
    if r.Success? {
      var g := GalleryBySlug(gs, slug).value;
      var k :| 0 <= k < |gs| && gs[k] == g;
      GalleryByIdFindsRow(gs, k);
      GalleryPhotosSpec(ps, g.id);
    }
  }
}
