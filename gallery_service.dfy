/** The gallery queries: the public list, lookup by slug and by id, a
    gallery's photos, and the view counter. `WHERE` is Filter and
    `ORDER BY` is Sort under the comparator written out below. */
module GalleryService {
  import opened Wrappers
  import opened Schema
  import opened Sequences

  /** `ORDER BY created_at DESC` */
  function NewestFirst(a: Gallery, b: Gallery): bool {
    a.createdAt >= b.createdAt
  }

  /** `ORDER BY sort_order ASC, uploaded_at ASC` */
  function PhotoOrder(a: Photo, b: Photo): bool {
    a.sortOrder < b.sortOrder || (a.sortOrder == b.sortOrder && a.uploadedAt <= b.uploadedAt)
  }

  lemma NewestFirstIsPreorder()
    ensures TotalPreorder(NewestFirst)
  {
  }

  lemma PhotoOrderIsPreorder()
    ensures TotalPreorder(PhotoOrder)
  {
  }

  function IsPublic(g: Gallery): bool {
    g.isPublic
  }

  /** `getPublicGalleries` */
  function PublicGalleries(gs: seq<Gallery>): seq<Gallery> {
    Sort(Filter(gs, IsPublic), NewestFirst)
  }

  /** The public list holds exactly the public galleries, each as often as
      in the table, newest first. */
  lemma PublicGalleriesSpec(gs: seq<Gallery>)
    ensures var r := PublicGalleries(gs);
            && multiset(r) == multiset(Filter(gs, IsPublic))
            && (forall i :: 0 <= i < |r| ==> r[i].isPublic && r[i] in gs)
            && (forall i :: 0 <= i < |gs| && gs[i].isPublic ==> gs[i] in r)
            && SortedBy(r, NewestFirst)
  {
    var f := Filter(gs, IsPublic);
    var r := PublicGalleries(gs);
    NewestFirstIsPreorder();
    SortSorted(f, NewestFirst);
    forall i | 0 <= i < |r| ensures r[i].isPublic && r[i] in gs {
      InMultiset(r[i], r, f);
    }
    forall i | 0 <= i < |gs| && gs[i].isPublic ensures gs[i] in r {
      InMultiset(gs[i], r, f);
    }
  }

  /** `getGalleryBySlug`: the first row whose slug is exactly `slug`. */
  function GalleryBySlug(gs: seq<Gallery>, slug: string): (r: Option<Gallery>)
    ensures r.Some? ==> r.value in gs && r.value.slug == slug
    ensures r.None? <==> forall i :: 0 <= i < |gs| ==> gs[i].slug != slug
  {
    if |gs| == 0 then None
    else if gs[0].slug == slug then Some(gs[0])
    else GalleryBySlug(gs[1..], slug)
  }

  /** `getGalleryById`, which the photo controller calls: the row with that
      id. */
  function GalleryById(gs: seq<Gallery>, id: string): (r: Option<Gallery>)
    ensures r.Some? ==> r.value in gs && r.value.id == id
    ensures r.None? <==> forall i :: 0 <= i < |gs| ==> gs[i].id != id
  {
    if |gs| == 0 then None
    else if gs[0].id == id then Some(gs[0])
    else GalleryById(gs[1..], id)
  }

  /** With unique ids the lookup finds the one row that has the id. */
  lemma GalleryByIdFindsRow(gs: seq<Gallery>, k: int)
    requires UniqueGalleryIds(gs) && 0 <= k < |gs|
    ensures GalleryById(gs, gs[k].id) == Some(gs[k])
  {
    if k > 0 && gs[0].id != gs[k].id {
      GalleryByIdFindsRow(gs[1..], k - 1);
    }
  }

  function InGallery(galleryId: string): Photo -> bool {
    (p: Photo) => p.galleryId == galleryId
  }

  /** `getGalleryPhotos` */
  function GalleryPhotos(ps: seq<Photo>, galleryId: string): seq<Photo> {
    Sort(Filter(ps, InGallery(galleryId)), PhotoOrder)
  }

  /** A gallery's photo list holds exactly its photos, ordered by
      `sort_order` and then by upload time. */
  lemma GalleryPhotosSpec(ps: seq<Photo>, galleryId: string)
    ensures var r := GalleryPhotos(ps, galleryId);
            && multiset(r) == multiset(Filter(ps, InGallery(galleryId)))
            && (forall i :: 0 <= i < |r| ==> r[i].galleryId == galleryId && r[i] in ps)
            && (forall i :: 0 <= i < |ps| && ps[i].galleryId == galleryId ==> ps[i] in r)
            && SortedBy(r, PhotoOrder)
  {
    var f := Filter(ps, InGallery(galleryId));
    var r := GalleryPhotos(ps, galleryId);
    PhotoOrderIsPreorder();
    SortSorted(f, PhotoOrder);
    forall i | 0 <= i < |r| ensures r[i].galleryId == galleryId && r[i] in ps {
      InMultiset(r[i], r, f);
    }
    forall i | 0 <= i < |ps| && ps[i].galleryId == galleryId ensures ps[i] in r {
      InMultiset(ps[i], r, f);
    }
  }

  /** A gallery row with one more view. */
  function Viewed(g: Gallery): (v: Gallery)
    ensures v.id == g.id
  {
    g.(viewCount := g.viewCount + 1)
  }

  /** The table after `UPDATE galleries SET view_count = view_count + 1
      WHERE id = $1`. */
  function BumpGalleryViews(gs: seq<Gallery>, id: string): (r: seq<Gallery>)
    ensures |r| == |gs|
    ensures forall i :: 0 <= i < |gs| ==> r[i].id == gs[i].id
  {
    seq(|gs|, i requires 0 <= i < |gs| => if gs[i].id == id then Viewed(gs[i]) else gs[i])
  }

  /** After the update, the gallery with that id has one more view and
      every other row reads as before; without such a gallery nothing
      changes. */
  lemma {:induction false} BumpGalleryViewsLookup(gs: seq<Gallery>, id: string, other: string)
    ensures other != id ==> GalleryById(BumpGalleryViews(gs, id), other) == GalleryById(gs, other)
    ensures other == id && GalleryById(gs, id).None? ==> GalleryById(BumpGalleryViews(gs, id), id).None?
    ensures other == id && GalleryById(gs, id).Some? ==>
              GalleryById(BumpGalleryViews(gs, id), id) == Some(Viewed(GalleryById(gs, id).value))
  {
    if |gs| > 0 {
      var b := BumpGalleryViews(gs, id);
      assert b[0] == if gs[0].id == id then Viewed(gs[0]) else gs[0];
      assert b[1..] == BumpGalleryViews(gs[1..], id);
      BumpGalleryViewsLookup(gs[1..], id, other);
    }
  }

  lemma BumpGalleryViewsKeepsKeys(gs: seq<Gallery>, id: string)
    requires UniqueGalleryIds(gs)
    ensures UniqueGalleryIds(BumpGalleryViews(gs, id))
  {
  }

  /** `incrementGalleryViews` */
  method IncrementGalleryViews(db: Db, id: string)
    modifies db
    ensures db.galleries == BumpGalleryViews(old(db.galleries), id)
    ensures db.photos == old(db.photos)
    ensures old(db.Valid()) ==> db.Valid()
  {
    db.galleries := BumpGalleryViews(db.galleries, id);
  }
}
