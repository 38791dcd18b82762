/** The photo queries: lookup by id, the featured list (a join with the
    galleries table) and the view and download counters. */
module PhotoService {
  import opened Wrappers
  import opened Schema
  import opened Sequences

  /** `getPhotoById`: the row with that id. */
  function PhotoById(ps: seq<Photo>, id: string): (r: Option<Photo>)
    ensures r.Some? ==> r.value in ps && r.value.id == id
    ensures r.None? <==> forall i :: 0 <= i < |ps| ==> ps[i].id != id
  {
    if |ps| == 0 then None
    else if ps[0].id == id then Some(ps[0])
    else PhotoById(ps[1..], id)
  }

  /** With unique ids the lookup finds the one row that has the id. */
  lemma PhotoByIdFindsRow(ps: seq<Photo>, k: int)
    requires UniquePhotoIds(ps) && 0 <= k < |ps|
    ensures PhotoById(ps, ps[k].id) == Some(ps[k])
  {
    if k > 0 && ps[0].id != ps[k].id {
      PhotoByIdFindsRow(ps[1..], k - 1);
    }
  }

  /** A row of the featured query: `p.*` with the gallery's title and slug. */
  datatype FeaturedRow = FeaturedRow(photo: Photo, galleryTitle: string, gallerySlug: string)

  /** `p.is_featured AND g.is_public` on a joined pair. */
  predicate JoinedFeatured(p: Photo, g: Gallery) {
    p.isFeatured && g.isPublic && p.galleryId == g.id
  }

  /** `x` is the joined row of photo `p` and gallery `g`, which the query
      keeps. */
  predicate RowFor(x: FeaturedRow, p: Photo, g: Gallery) {
    JoinedFeatured(p, g) && x == FeaturedRow(p, g.title, g.slug)
  }

  /** The joined rows contributed by one photo. */
  function MatchingRows(p: Photo, gs: seq<Gallery>): (r: seq<FeaturedRow>)
    ensures forall k :: 0 <= k < |r| ==> exists j :: 0 <= j < |gs| && RowFor(r[k], p, gs[j])
  {
    if |gs| == 0 then []
    else
      var rest := MatchingRows(p, gs[1..]);
      assert forall k :: 0 <= k < |rest| ==> exists j :: 0 <= j < |gs| && RowFor(rest[k], p, gs[j]) by {
        forall k | 0 <= k < |rest|
          ensures exists j :: 0 <= j < |gs| && RowFor(rest[k], p, gs[j])
        {
          var j :| 0 <= j < |gs[1..]| && RowFor(rest[k], p, gs[1..][j]);
          assert gs[1..][j] == gs[j + 1];
        }
      }
      var head := if JoinedFeatured(p, gs[0]) then [FeaturedRow(p, gs[0].title, gs[0].slug)] else [];
      var r := head + rest;
      assert forall k :: 0 <= k < |r| ==> exists j :: 0 <= j < |gs| && RowFor(r[k], p, gs[j]) by {
        forall k | 0 <= k < |r|
          ensures exists j :: 0 <= j < |gs| && RowFor(r[k], p, gs[j])
        {
          if k < |head| {
            assert RowFor(r[k], p, gs[0]);
          } else {
            assert r[k] == rest[k - |head|];
          }
        }
      }
      r
  }

  /** `photos p JOIN galleries g ON p.gallery_id = g.id WHERE ...`, in
      table order. */
  function FeaturedJoin(ps: seq<Photo>, gs: seq<Gallery>): seq<FeaturedRow> {
    if |ps| == 0 then []
    else MatchingRows(ps[0], gs) + FeaturedJoin(ps[1..], gs)
  }

  /** Every joined row pairs a featured photo with its public gallery. */
  lemma {:induction false} FeaturedJoinSound(ps: seq<Photo>, gs: seq<Gallery>, r: FeaturedRow)
    requires r in FeaturedJoin(ps, gs)
    ensures exists i, j :: 0 <= i < |ps| && 0 <= j < |gs| && JoinedFeatured(ps[i], gs[j])
                           && r == FeaturedRow(ps[i], gs[j].title, gs[j].slug)
  {
    var m := MatchingRows(ps[0], gs);
    if r in m {
      var k :| 0 <= k < |m| && m[k] == r;
      var j :| 0 <= j < |gs| && RowFor(m[k], ps[0], gs[j]);
    } else {
      FeaturedJoinSound(ps[1..], gs, r);
      var i, j :| 0 <= i < |ps[1..]| && 0 <= j < |gs| && JoinedFeatured(ps[1..][i], gs[j])
                  && r == FeaturedRow(ps[1..][i], gs[j].title, gs[j].slug);
      assert ps[1..][i] == ps[i + 1];
    }
  }

  lemma {:induction false} MatchingRowsComplete(p: Photo, gs: seq<Gallery>, j: int)
    requires 0 <= j < |gs| && JoinedFeatured(p, gs[j])
    ensures FeaturedRow(p, gs[j].title, gs[j].slug) in MatchingRows(p, gs)
  {
    if j > 0 {
      MatchingRowsComplete(p, gs[1..], j - 1);
    }
  }

  /** Every featured photo of a public gallery is in the join. */
  lemma {:induction false} FeaturedJoinComplete(ps: seq<Photo>, gs: seq<Gallery>, i: int, j: int)
    requires 0 <= i < |ps| && 0 <= j < |gs| && JoinedFeatured(ps[i], gs[j])
    ensures FeaturedRow(ps[i], gs[j].title, gs[j].slug) in FeaturedJoin(ps, gs)
  {
    if i == 0 {
      MatchingRowsComplete(ps[0], gs, j);
    } else {
      FeaturedJoinComplete(ps[1..], gs, i - 1, j);
    }
  }

  /** `ORDER BY p.uploaded_at DESC` */
  function NewestUploadFirst(a: FeaturedRow, b: FeaturedRow): bool {
    a.photo.uploadedAt >= b.photo.uploadedAt
  }

  /** `getFeaturedPhotos` */
  function FeaturedPhotos(ps: seq<Photo>, gs: seq<Gallery>): seq<FeaturedRow> {
    Sort(FeaturedJoin(ps, gs), NewestUploadFirst)
  }

  /** The featured list is newest first and holds exactly the featured
      photos of public galleries, each with its gallery's title and slug. */
  lemma FeaturedPhotosSpec(ps: seq<Photo>, gs: seq<Gallery>)
    ensures var r := FeaturedPhotos(ps, gs);
            && SortedBy(r, NewestUploadFirst)
            && (forall k :: 0 <= k < |r| ==>
                  exists i, j :: 0 <= i < |ps| && 0 <= j < |gs| && JoinedFeatured(ps[i], gs[j])
                                 && r[k] == FeaturedRow(ps[i], gs[j].title, gs[j].slug))
            && (forall i, j :: 0 <= i < |ps| && 0 <= j < |gs| && JoinedFeatured(ps[i], gs[j]) ==>
                  FeaturedRow(ps[i], gs[j].title, gs[j].slug) in r)
  {
    var f := FeaturedJoin(ps, gs);
    var r := FeaturedPhotos(ps, gs);
    assert TotalPreorder(NewestUploadFirst);
    SortSorted(f, NewestUploadFirst);
    forall k | 0 <= k < |r|
      ensures exists i, j :: 0 <= i < |ps| && 0 <= j < |gs| && JoinedFeatured(ps[i], gs[j])
                             && r[k] == FeaturedRow(ps[i], gs[j].title, gs[j].slug)
    {
      InMultiset(r[k], r, f);
      FeaturedJoinSound(ps, gs, r[k]);
      var i, j :| 0 <= i < |ps| && 0 <= j < |gs| && JoinedFeatured(ps[i], gs[j])
                  && r[k] == FeaturedRow(ps[i], gs[j].title, gs[j].slug);
    }
    forall i, j | 0 <= i < |ps| && 0 <= j < |gs| && JoinedFeatured(ps[i], gs[j])
      ensures FeaturedRow(ps[i], gs[j].title, gs[j].slug) in r
    {
      FeaturedJoinComplete(ps, gs, i, j);
      InMultiset(FeaturedRow(ps[i], gs[j].title, gs[j].slug), f, r);
    }
  }

  /** The two per-photo counters. */
  datatype Counter = Views | Downloads

  function Incremented(p: Photo, c: Counter): Photo {
    match c
    case Views => p.(viewCount := p.viewCount + 1)
    case Downloads => p.(downloadCount := p.downloadCount + 1)
  }

  /** The table after `UPDATE photos SET <counter> = <counter> + 1 WHERE
      id = $1`. */
  function BumpPhoto(ps: seq<Photo>, id: string, c: Counter): (r: seq<Photo>)
    ensures |r| == |ps|
    ensures forall i :: 0 <= i < |ps| ==> r[i].id == ps[i].id
  {
    seq(|ps|, i requires 0 <= i < |ps| => if ps[i].id == id then Incremented(ps[i], c) else ps[i])
  }

  /** After the update the photo with that id has its counter one higher
      and nothing else changed; every other row reads as before. */
  lemma {:induction false} BumpPhotoLookup(ps: seq<Photo>, id: string, c: Counter, other: string)
    ensures other != id ==> PhotoById(BumpPhoto(ps, id, c), other) == PhotoById(ps, other)
    ensures other == id && PhotoById(ps, id).None? ==> PhotoById(BumpPhoto(ps, id, c), id).None?
    ensures other == id && PhotoById(ps, id).Some? ==>
              PhotoById(BumpPhoto(ps, id, c), id) == Some(Incremented(PhotoById(ps, id).value, c))
  {
    if |ps| > 0 {
      assert BumpPhoto(ps, id, c)[1..] == BumpPhoto(ps[1..], id, c);
      BumpPhotoLookup(ps[1..], id, c, other);
    }
  }

  /** `incrementPhotoViews` */
  method IncrementPhotoViews(db: Db, id: string)
    modifies db
    ensures db.photos == BumpPhoto(old(db.photos), id, Views)
    ensures db.galleries == old(db.galleries)
    ensures old(db.Valid()) ==> db.Valid()
  {
    db.photos := BumpPhoto(db.photos, id, Views);
  }

  /** `incrementPhotoDownloads` */
  method IncrementPhotoDownloads(db: Db, id: string)
    modifies db
    ensures db.photos == BumpPhoto(old(db.photos), id, Downloads)
    ensures db.galleries == old(db.galleries)
    ensures old(db.Valid()) ==> db.Valid()
  {
    db.photos := BumpPhoto(db.photos, id, Downloads);
  }
}
