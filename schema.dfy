/** The rows of the `galleries` and `photos` tables and the database that
    holds them. Timestamps are integers (milliseconds or day numbers);
    EXIF data and dimensions are carried along as they are. */
module Schema {
  import opened Wrappers

  datatype Gallery = Gallery(
    id: string,
    title: string,
    slug: string,
    description: Option<string>,
    coverImageId: Option<string>,
    isPublic: bool,
    passwordHash: Option<string>,
    viewCount: int,
    createdAt: int,
    updatedAt: int)

  datatype Photo = Photo(
    id: string,
    galleryId: string,
    filename: string,
    originalFilename: string,
    s3Key: string,
    s3ThumbnailKey: string,
    s3WebKey: string,
    width: int,
    height: int,
    fileSize: int,
    sortOrder: int,
    isFeatured: bool,
    viewCount: int,
    downloadCount: int,
    uploadedAt: int)

  /** `id` is the primary key of `galleries`. */
  predicate UniqueGalleryIds(gs: seq<Gallery>) {
    forall i, j :: 0 <= i < j < |gs| ==> gs[i].id != gs[j].id
  }

  /** `id` is the primary key of `photos`. */
  predicate UniquePhotoIds(ps: seq<Photo>) {
    forall i, j :: 0 <= i < j < |ps| ==> ps[i].id != ps[j].id
  }

  /** The two tables. */
  class Db {
    var galleries: seq<Gallery>
    var photos: seq<Photo>

    ghost predicate Valid()
      reads this
    {
      UniqueGalleryIds(galleries) && UniquePhotoIds(photos)
    }

    constructor (galleries: seq<Gallery>, photos: seq<Photo>)
      requires UniqueGalleryIds(galleries) && UniquePhotoIds(photos)
      ensures this.galleries == galleries && this.photos == photos
      ensures Valid()
    {
      this.galleries := galleries;
      this.photos := photos;
    }
  }
}
