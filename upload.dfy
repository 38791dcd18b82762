/** The upload configuration: the MIME allow-list checked by `fileFilter`
    and the size limit handed to multer. */
module Upload {
  const ALLOWED_MIME_TYPES: seq<string> :=
    ["image/jpeg", "image/png", "image/webp", "image/tiff", "image/heif", "image/heic"]
  const UNSUPPORTED_TYPE: string := "Unsupported file type. Allowed: JPEG, PNG, WebP, TIFF, HEIF"
  const MAX_FILE_SIZE: nat := 50 * 1024 * 1024

  /** The one call the filter makes to `cb`: `cb(null, true)` or
      `cb(new Error(...))`. */
  datatype Callback = Accept | Reject(error: string)

  /** `fileFilter` */
  function FileFilter(mimetype: string): (cb: Callback)
    ensures cb.Accept? <==> mimetype in ALLOWED_MIME_TYPES
    ensures cb.Reject? ==> cb.error == UNSUPPORTED_TYPE
  {
    if mimetype in ALLOWED_MIME_TYPES then Accept else Reject(UNSUPPORTED_TYPE)
  }

  /** Six distinct types are accepted, by exact string comparison: a
      different spelling or case of an allowed type is refused. */
  lemma AllowListIsExact()
    ensures |ALLOWED_MIME_TYPES| == 6
    ensures forall i, j :: 0 <= i < j < |ALLOWED_MIME_TYPES| ==> ALLOWED_MIME_TYPES[i] != ALLOWED_MIME_TYPES[j]
    ensures FileFilter("image/heic") == Accept
    ensures FileFilter("image/jpg") == Reject(UNSUPPORTED_TYPE)
    ensures FileFilter("image/JPEG") == Reject(UNSUPPORTED_TYPE)
    ensures FileFilter("image/gif") == Reject(UNSUPPORTED_TYPE)
  {
    assert "image/jpg" != "image/jpeg" && "image/jpg" != "image/png" && "image/jpg" != "image/webp";
    assert "image/jpg" != "image/tiff" && "image/jpg" != "image/heif" && "image/jpg" != "image/heic";
    assert "image/JPEG"[6] != "image/jpeg"[6];
  }

  /** multer's `limits.fileSize`: a file larger than the limit is refused. */
  function SizeAccepted(size: nat): (ok: bool)
    ensures ok <==> size <= 52428800
  {
    size <= MAX_FILE_SIZE
  }
}
