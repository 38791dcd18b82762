/** The public photo endpoints. A failing database query is the flag
    `down`; `enrichPhotoWithUrls` (signing the S3 URLs) is the parameter
    `enrich`, whose `None` is a thrown error. */
module PhotoController {
  import opened Wrappers
  import opened Schema
  import opened Sequences
  import opened Http
  import opened GalleryService
  import opened PhotoService

  const PHOTO_NOT_FOUND: string := "Photo not found"
  const PHOTO_PRIVATE: string := "Password required to view this photo"
  const PHOTO_FAILED: string := "Failed to fetch photo"
  const FEATURED_FAILED: string := "Failed to fetch featured photos"
  const DOWNLOAD_FAILED: string := "Failed to download photo"

  /** `getPhoto` on the two tables: the response and the photos table
      afterwards. A photo whose gallery row is missing is served. */
  function GetPhotoStep<E>(gs: seq<Gallery>, ps: seq<Photo>, id: string, down: bool, enrich: Photo -> Option<E>)
    : (Response<E>, seq<Photo>)
  {
    if down then (Failure(500, PHOTO_FAILED), ps)
    else
      match PhotoById(ps, id)
      case None => (Failure(404, PHOTO_NOT_FOUND), ps)
      case Some(p) =>
        var gallery := GalleryById(gs, p.galleryId);
        if gallery.Some? && !gallery.value.isPublic then (Failure(403, PHOTO_PRIVATE), ps)
        else
          var after := BumpPhoto(ps, id, Views);
          match enrich(p)
          case None => (Failure(500, PHOTO_FAILED), after)
          case Some(e) => (Success(e), after)
  }

  /** A photo is served exactly when it exists and its gallery is not a
      private one, and then it is the enriched row as read before the view
      was counted. The view is counted even when signing its URLs then
      fails; a photo of a private gallery is refused and not counted. */
  lemma GetPhotoGuardsPrivateGalleries<E>(gs: seq<Gallery>, ps: seq<Photo>, id: string, enrich: Photo -> Option<E>)
    ensures var (r, after) := GetPhotoStep(gs, ps, id, false, enrich);
            && (PhotoById(ps, id).None? ==> r == Failure(404, PHOTO_NOT_FOUND) && after == ps)
            && (PhotoById(ps, id).Some? ==>
                  var p := PhotoById(ps, id).value;
                  var g := GalleryById(gs, p.galleryId);
                  && (g.Some? && !g.value.isPublic ==> r == Failure(403, PHOTO_PRIVATE) && after == ps)
                  && (!(g.Some? && !g.value.isPublic) ==>
                        && PhotoById(after, id) == Some(Incremented(p, Views))
                        && (r.Success? <==> enrich(p).Some?)
                        && (r.Success? ==> r.data == enrich(p).value)))
  {
    if PhotoById(ps, id).Some? {
      BumpPhotoLookup(ps, id, Views, id);
    }
  }

  /** `getPhoto` */
  method GetPhoto<E>(db: Db, id: string, down: bool, enrich: Photo -> Option<E>) returns (r: Response<E>)
    modifies db
    ensures (r, db.photos) == GetPhotoStep(old(db.galleries), old(db.photos), id, down, enrich)
    ensures db.galleries == old(db.galleries)
  {
    if down {
      return Failure(500, PHOTO_FAILED);
    }
    var found := PhotoById(db.photos, id);
    if found.None? {
      return Failure(404, PHOTO_NOT_FOUND);
    }
    var p := found.value;
    var gallery := GalleryById(db.galleries, p.galleryId);
    if gallery.Some? && !gallery.value.isPublic {
      return Failure(403, PHOTO_PRIVATE);
    }
    IncrementPhotoViews(db, id);
    var e := enrich(p);
    if e.None? {
      return Failure(500, PHOTO_FAILED);
    }
    r := Success(e.value);
  }

  /** `getFeatured`; `enrichAll` is `enrichPhotosWithUrls`. */
  function GetFeatured<E>(ps: seq<Photo>, gs: seq<Gallery>, down: bool, enrichAll: seq<FeaturedRow> -> Option<seq<E>>)
    : (r: Response<seq<E>>)
    ensures r.Success? <==> !down && enrichAll(FeaturedPhotos(ps, gs)).Some?
    ensures r.Failure? ==> r == Failure(500, FEATURED_FAILED)
    ensures r.Success? ==> r.data == enrichAll(FeaturedPhotos(ps, gs)).value
  {
    if down then Failure(500, FEATURED_FAILED)
    else
      match enrichAll(FeaturedPhotos(ps, gs))
      case None => Failure(500, FEATURED_FAILED)
      case Some(es) => Success(es)
  }

  /** The body of a successful download: the name the file was uploaded
      under and its signed URL. */
  datatype Download = Download(filename: string, downloadUrl: string)

  /** `downloadPhoto`; `url` is the `url` field of `enrichPhotoWithUrls`. */
  function DownloadStep(ps: seq<Photo>, id: string, down: bool, url: Photo -> Option<string>)
    : (Response<Download>, seq<Photo>)
  {
    if down then (Failure(500, DOWNLOAD_FAILED), ps)
    else
      match PhotoById(ps, id)
      case None => (Failure(404, PHOTO_NOT_FOUND), ps)
      case Some(p) =>
        var after := BumpPhoto(ps, id, Downloads);
        match url(p)
        case None => (Failure(500, DOWNLOAD_FAILED), after)
        case Some(u) => (Success(Download(p.originalFilename, u)), after)
  }

  /** Every existing photo can be downloaded, whatever its gallery: unlike
      `getPhoto`, the download endpoint does not look at the gallery. The
      download is counted before the URL is signed and the file is offered
      under its original name. */
  lemma DownloadIgnoresGalleryPrivacy(gs: seq<Gallery>, ps: seq<Photo>, id: string, url: Photo -> Option<string>)
    requires PhotoById(ps, id).Some? && url(PhotoById(ps, id).value).Some?
    ensures var p := PhotoById(ps, id).value;
            var (r, after) := DownloadStep(ps, id, false, url);
            && r == Success(Download(p.originalFilename, url(p).value))
            && PhotoById(after, id) == Some(Incremented(p, Downloads))
            && (GalleryById(gs, p.galleryId).Some? && !GalleryById(gs, p.galleryId).value.isPublic ==>
                  GetPhotoStep(gs, ps, id, false, url).0 == Failure(403, PHOTO_PRIVATE))
  {
    BumpPhotoLookup(ps, id, Downloads, id);
  }

  /** `downloadPhoto` */
  method DownloadPhoto(db: Db, id: string, down: bool, url: Photo -> Option<string>) returns (r: Response<Download>)
    modifies db
    ensures (r, db.photos) == DownloadStep(old(db.photos), id, down, url)
    ensures db.galleries == old(db.galleries)
  {
    if down {
      return Failure(500, DOWNLOAD_FAILED);
    }
    var found := PhotoById(db.photos, id);
    if found.None? {
      return Failure(404, PHOTO_NOT_FOUND);
    }
    var p := found.value;
    IncrementPhotoDownloads(db, id);
    var u := url(p);
    if u.None? {
      return Failure(500, DOWNLOAD_FAILED);
    }
    r := Success(Download(p.originalFilename, u.value));
  }
}
