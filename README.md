# Gallery core, modelled in Dafny

This project models the core of a photo-gallery web application. The
application has an Express/PostgreSQL back end that stores photos in S3,
and a React front end. The model covers the following parts:

- the public gallery and photo endpoints, with their view and download
  counters, and the private-gallery guard;
- the queries behind those endpoints;
- the admin analytics (gap-filled daily series and top lists);
- the site-settings table;
- the signed-URL cache and the S3 key layout;
- the in-memory rate limiter;
- the application middleware (CORS, Cache-Control, compression, 404 and
  error handling);
- the upload filter;
- the bearer-token middleware;
- the contact-form handler and its HTML escaping;
- the one-off WebP backfill script;
- in the browser: the API client's response cache and its invalidation,
  the gallery form's `slugify` and validation, the EXIF overlay, and the
  admin-subdomain helpers.

How each part becomes Dafny:

- Database tables become `seq<Gallery>` and `seq<Photo>` fields of the
  class `Schema.Db`. Each query becomes a function over those sequences.
- `ORDER BY` becomes a stable insertion sort by the query's comparator.
- Every `UPDATE` becomes a method that `modifies` the `Db`. It is proved
  against a function that gives the new table.
- Each module-level `Map` becomes a class with a `map` field: the URL
  cache, the rate-limit store, the browser response cache and the
  settings table. Methods update that field.
- A loop in the source is a loop in the model, with invariants tying it
  to a specification function. Examples are the cleanup timers, the
  gap-filling loops, the settings loop and the backfill loop.
- Clocks become `now`/`today` parameters.
- External services are parameters: the AWS presigner, `sharp`,
  `verifyToken`, `encodeURIComponent`, `fetch` and nodemailer's `sendMail`.
  The same goes for "did this call succeed" oracles, and for the
  `down: bool` flag that makes the request's database queries throw.

One Dafny module stands for each source file:

| module | file |
|---|---|
| `S3Service` | `backend/src/services/s3Service.ts` |
| `RateLimit` | `backend/src/middleware/rateLimit.ts` |
| `ApiClient` | `frontend/src/api/client.ts` |
| `GalleryForm` | `frontend/src/components/Admin/GalleryForm/GalleryForm.tsx` |
| `Contact` | `backend/src/controllers/contactController.ts` |
| `Auth` | `backend/src/middleware/auth.ts` |
| `ExifOverlay` | `frontend/src/components/PhotoGrid/ExifOverlay.tsx` |
| `Subdomain` | `frontend/src/utils/subdomain.ts` |
| `Analytics` | `backend/src/services/analyticsService.ts` |
| `Settings` | `backend/src/services/settingsService.ts` |
| `GalleryService` | `backend/src/services/galleryService.ts` |
| `PhotoService` | `backend/src/services/photoService.ts` |
| `GalleryController` | `backend/src/controllers/galleryController.ts` |
| `PhotoController` | `backend/src/controllers/photoController.ts` |
| `App` | `backend/src/app.ts` |
| `Upload` | `backend/src/config/upload.ts` |
| `Backfill` | `backend/scripts/backfill-webp.ts` |

The shared modules are:

- `Wrappers`: `Option` and `Result`;
- `Text`: prefix and suffix tests, replace, JavaScript whitespace, ASCII
  case;
- `Sequences`: filter, stable sort, take;
- `Schema`: the two row types and `Db`;
- `Http`: the `{success, data}` / `{success: false, error}` envelope with
  its status code.

Behaviours the proofs bring out, all faithful to the code:

- `downloadPhoto` serves photos of private galleries, which `getPhoto`
  refuses.
- `getPhoto` counts the view before signing URLs, so a signing failure
  still counts the view.
- `getGallery` answers with the row as read before its view was counted.
- The public Cache-Control rule matches plain prefixes, so
  `/galleriesX` counts as public.
- The signed-URL cache is keyed by the object key only and ignores
  `expiresIn`.
- A `slugify` result may hold `_`, which the slug field's own pattern
  rejects.

## Model

| member | source | states |
|---|---|---|
| S3Service.Lookup | backend/src/services/s3Service.ts:75-78 | the cache serves a URL exactly when an entry exists and `now` is before its expiry, and then it is that entry's URL |
| S3Service.GetSignedUrlStep | backend/src/services/s3Service.ts:61-94 | unconfigured: an error in production, else the placeholder URL, cache untouched; a fresh entry is returned without signing; otherwise the presigner is asked once, its URL cached for 50 minutes from the clock read after signing, or its error returned with the cache untouched |
| S3Service.Unexpired | backend/src/services/s3Service.ts:19-26 | the sweep keeps exactly the entries with `now < expires`, unchanged |
| S3Service.MissCachesInsideValidity | backend/src/services/s3Service.ts:12-15 | after a successful miss with the default validity the entry expires 50 minutes after signing, strictly before the signed URL itself expires |
| S3Service.RepeatedReadWithinTtl | backend/src/services/s3Service.ts:74-91 | a second read of the same key within the TTL of a successful signing returns the same URL without signing and leaves the cache as it was |
| S3Service.FailedSignIsNotCached | backend/src/services/s3Service.ts:85-91 | a presigner that throws makes the call fail with its error and caches nothing, so the next call signs again |
| S3Service.SweepPreservesReads | backend/src/services/s3Service.ts:19-26 | a sweep never changes what a later read sees, and it removes every entry expired at sweep time |
| S3Service.UrlCache.GetSignedUrl | backend/src/services/s3Service.ts:61-94 | the result, the signing and the new cache are those of `GetSignedUrlStep` |
| S3Service.UrlCache.Sweep | backend/src/services/s3Service.ts:19-26 | the cleanup loop leaves exactly `Unexpired(old entries, now)` |
| S3Service.GeneratePhotoKeys | backend/src/services/s3Service.ts:162-172 | the three keys share the base path `galleries/{galleryId}/{photoId}`, end in their version names and are pairwise distinct |
| S3Service.PhotoKeysInjective | backend/src/services/s3Service.ts:162-172 | with slash-free identifiers, equal original keys mean the same gallery and photo |
| S3Service.S3Call | backend/src/services/s3Service.ts:34-150 | every object-store call fails with the not-configured error when S3 is unset; put, delete, copy and get change the store as those requests do |
| S3Service.AttemptDelete | backend/src/services/s3Service.ts:192-198 | one deletion is recorded, and a failure is counted, not raised |
| S3Service.DeletePhotoFiles | backend/src/services/s3Service.ts:182-202 | nothing when S3 is unset; otherwise all three keys are attempted in order, the failures are counted, and exactly the accepted deletions leave the store |
| RateLimit.ClientIp | backend/src/middleware/rateLimit.ts:30 | the first non-empty of `req.ip` and the socket address, else `unknown`; never empty |
| RateLimit.StoreKey | backend/src/middleware/rateLimit.ts:31 | the key is the ip, a colon, then the path, and both parts can be read back |
| RateLimit.Cap | backend/src/middleware/rateLimit.ts:36-51 | the number of requests a window lets through is at least 1 and at least `maxRequests` |
| RateLimit.Admit | backend/src/middleware/rateLimit.ts:34-51 | no entry or an ended window: a new window with count 1; inside it at the limit: 204 with the entry unchanged; under the limit: counted and passed |
| RateLimit.AdmitKeepsBound | backend/src/middleware/rateLimit.ts:36-51 | every request keeps the count between 1 and the cap |
| RateLimit.ResetOnlyAfterWindow | backend/src/middleware/rateLimit.ts:36 | a request at or before `resetTime` keeps the window and never lowers the count |
| RateLimit.Run | backend/src/middleware/rateLimit.ts:28-53 | of a series of requests for one key, no more pass than were made |
| RateLimit.RemainingInWindow | backend/src/middleware/rateLimit.ts:43-51 | inside an open window at most `Cap - count` further requests pass |
| RateLimit.AtMostCapPerWindow | backend/src/middleware/rateLimit.ts:36-51 | at most `max(maxRequests, 1)` requests for one key pass within one window |
| RateLimit.SweptEntryIsUnobservable | backend/src/middleware/rateLimit.ts:14-21 | a later request treats a swept expired entry exactly like a missing one |
| RateLimit.Unexpired | backend/src/middleware/rateLimit.ts:14-21 | the cleanup keeps exactly the entries with `now <= resetTime` |
| RateLimit.RateLimitStore.Limit | backend/src/middleware/rateLimit.ts:34-51 | the verdict and the stored entry are `Admit`'s, and every other key is untouched; the count bound is preserved |
| RateLimit.RateLimitStore.RateLimit | backend/src/middleware/rateLimit.ts:28-53 | the middleware applies `Admit` under the key `ip:path` |
| RateLimit.RateLimitStore.TrackingRateLimit | backend/src/middleware/rateLimit.ts:57 | the same with 30 requests per 60 000 ms |
| RateLimit.RateLimitStore.Sweep | backend/src/middleware/rateLimit.ts:14-21 | the cleanup loop leaves exactly `Unexpired(old entries, now)` |
| ApiClient.ApiBase | frontend/src/api/client.ts:14-15 | the configured URL when set and non-empty, else `http://{hostname}:3001/api` |
| ApiClient.PhotosKey | frontend/src/api/client.ts:105 | `photos:{slug}:{token}` with a token, `photos:{slug}` without one |
| ApiClient.PhotosEndpoint | frontend/src/api/client.ts:109-111 | the encoded token is appended as `?access=` only when there is one |
| ApiClient.GalleryDownloadUrl | frontend/src/api/client.ts:379-385 | the download URL, with `?access=` and the encoded token only when there is one |
| ApiClient.PhotosKeySeparatesTokens | frontend/src/api/client.ts:104-115 | for the same slug, two photo-list reads share a cache entry only with the same token, or with none |
| ApiClient.PhotosKeyCollidesAcrossSlugs | frontend/src/api/client.ts:105 | across slugs the key scheme is ambiguous: slug `s` with token `t` has the key of slug `s:t` without a token |
| ApiClient.PhotosKeyInjective | frontend/src/api/client.ts:105 | for slugs without `:`, as the slug pattern gives, two reads share a photo-list entry only for the same slug and token |
| ApiClient.WithoutPrefix | frontend/src/api/client.ts:49-53 | exactly the entries whose key does not start with the prefix remain, unchanged |
| ApiClient.WithoutPrefixesKeeps | frontend/src/api/client.ts:44-54 | clearing several prefixes keeps exactly the keys that start with none of them |
| ApiClient.DeleteGalleryInvalidation | frontend/src/api/client.ts:242-250 | after a gallery is deleted, no gallery list, gallery or photo list stays cached, and every other entry survives |
| ApiClient.DeletePhotoInvalidation | frontend/src/api/client.ts:336-344 | after a photo is deleted, the featured list, the gallery list and the photo lists are gone, while gallery details stay |
| ApiClient.PhotoEditsKeepCache | frontend/src/api/client.ts:324-356 | updating or reordering photos, uploading and saving settings leave the cache unchanged |
| ApiClient.AfterRead | frontend/src/api/client.ts:28-37 | a read deletes the entry it finds expired and changes nothing else |
| ApiClient.AfterFetch | frontend/src/api/client.ts:28-41 | after a miss, a successful fetch is stored to expire five minutes after the clock read once the fetch is done, a failed one leaves only the expired entry removed, and no other key changes |
| ApiClient.ResponseCache.GetCached | frontend/src/api/client.ts:28-37 | the data exactly while `now < expires`; an expired entry is removed |
| ApiClient.ResponseCache.SetCache | frontend/src/api/client.ts:39-41 | the entry is replaced and expires five minutes after `now` |
| ApiClient.ResponseCache.ClearCache | frontend/src/api/client.ts:44-54 | a missing or empty prefix clears everything, otherwise exactly the keys with that prefix go |
| ApiClient.ResponseCache.CachedFetch | frontend/src/api/client.ts:74-115 | a hit returns the cached data without fetching; a miss fetches, returns the fetch's result, and leaves the cache as `AfterFetch` says, stamped after the fetch |
| ApiClient.ResponseCache.GetFeaturedPhotos | frontend/src/api/client.ts:74-82 | under the key `featured`: a live entry is returned without fetching; otherwise `/featured` is fetched, its result returned, and the cache becomes `AfterFetch` of it |
| ApiClient.ResponseCache.GetGalleries | frontend/src/api/client.ts:84-92 | under the key `galleries`: a live entry is returned without fetching; otherwise `/galleries` is fetched, its result returned, and the cache becomes `AfterFetch` of it |
| ApiClient.ResponseCache.GetGallery | frontend/src/api/client.ts:94-102 | under the key `gallery:{slug}`: a live entry is returned without fetching; otherwise `/galleries/{slug}` is fetched, its result returned, and the cache becomes `AfterFetch` of it |
| ApiClient.ResponseCache.GetGalleryPhotos | frontend/src/api/client.ts:104-115 | under the token-specific key: a live entry is returned without fetching; otherwise the photo endpoint is fetched, its result returned, and the cache becomes `AfterFetch` of it |
| ApiClient.ResponseCache.AfterMutation | frontend/src/api/client.ts:217-371 | a failed mutation leaves the cache alone; an accepted one clears that mutation's prefixes and nothing else |
| GalleryForm.TrimStart | frontend/src/components/Admin/GalleryForm/GalleryForm.tsx:15 | a suffix of the input that starts with a non-space, with only whitespace removed before it |
| GalleryForm.TrimEnd | frontend/src/components/Admin/GalleryForm/GalleryForm.tsx:15 | a prefix of the input that ends with a non-space, with only whitespace removed after it |
| GalleryForm.BlankIffAllSpace | frontend/src/components/Admin/GalleryForm/GalleryForm.tsx:47-55 | `!s.trim()` holds exactly when every character is whitespace |
| GalleryForm.RemoveDisallowed | frontend/src/components/Admin/GalleryForm/GalleryForm.tsx:16 | only word characters, whitespace and hyphens remain, and never more characters than were given |
| GalleryForm.RemoveDisallowedIsFilter | frontend/src/components/Admin/GalleryForm/GalleryForm.tsx:16 | the removal works character by character: it distributes over concatenation, and one character is kept exactly when it is a word character, whitespace or a hyphen |
| GalleryForm.SpacesToHyphenAppend | frontend/src/components/Admin/GalleryForm/GalleryForm.tsx:17 | the whitespace rewrite distributes over concatenation, carrying only whether the prefix ended in whitespace |
| GalleryForm.SpacesToHyphenOneChar | frontend/src/components/Admin/GalleryForm/GalleryForm.tsx:17 | one character stays, becomes a hyphen when it is whitespace starting a run, or vanishes when it continues one |
| GalleryForm.SpaceRunIsOneHyphen | frontend/src/components/Admin/GalleryForm/GalleryForm.tsx:17 | a whole run of whitespace becomes exactly one hyphen |
| GalleryForm.SpacesToHyphenLetters | frontend/src/components/Admin/GalleryForm/GalleryForm.tsx:17 | apart from hyphens, the rewrite yields exactly the word characters of its input |
| GalleryForm.SqueezeHyphensAppend | frontend/src/components/Admin/GalleryForm/GalleryForm.tsx:18 | the hyphen squeeze distributes over concatenation, carrying only whether the prefix ended in a hyphen |
| GalleryForm.SqueezeHyphensOneChar | frontend/src/components/Admin/GalleryForm/GalleryForm.tsx:18 | one character stays, except a hyphen continuing a run, which vanishes |
| GalleryForm.SqueezeHyphensNoDouble | frontend/src/components/Admin/GalleryForm/GalleryForm.tsx:18 | no two hyphens remain side by side, and none leads after a run of hyphens |
| GalleryForm.SqueezeHyphensLetters | frontend/src/components/Admin/GalleryForm/GalleryForm.tsx:18 | every character other than a hyphen is kept, in order |
| GalleryForm.StripEdgeHyphensExact | frontend/src/components/Admin/GalleryForm/GalleryForm.tsx:19 | the input is exactly the result with the one leading and the one trailing hyphen it removed put back |
| GalleryForm.SlugifyShape | frontend/src/components/Admin/GalleryForm/GalleryForm.tsx:12-20 | every slug is lower-case letters, digits, `_` and single inner hyphens |
| GalleryForm.SlugifyLetters | frontend/src/components/Admin/GalleryForm/GalleryForm.tsx:12-20 | apart from hyphens, a slug is exactly the word characters of the lower-cased text, in order |
| GalleryForm.SlugifyJoinsWords | frontend/src/components/Admin/GalleryForm/GalleryForm.tsx:12-20 | two slug words separated by whitespace become those words joined by one hyphen |
| GalleryForm.SlugifyIdempotent | frontend/src/components/Admin/GalleryForm/GalleryForm.tsx:12-20 | slugifying a slug changes nothing |
| GalleryForm.PatternIffShape | frontend/src/components/Admin/GalleryForm/GalleryForm.tsx:134 | the field pattern `[a-z0-9]+(-[a-z0-9]+)*` matches exactly the non-empty hyphen-separated runs of `[a-z0-9]` |
| GalleryForm.PatternIffUnderscoreFreeSlug | frontend/src/components/Admin/GalleryForm/GalleryForm.tsx:134 | the pattern accepts exactly the non-empty slug-shaped values without `_` |
| GalleryForm.SlugifyMatchesPatternUnlessUnderscore | frontend/src/components/Admin/GalleryForm/GalleryForm.tsx:12-20 | a non-empty generated slug passes the pattern exactly when it has no `_` |
| GalleryForm.PatternValueIsFixedBySlugify | frontend/src/components/Admin/GalleryForm/GalleryForm.tsx:134 | every value the pattern accepts is a fixed point of slugify |
| GalleryForm.ValidateForm | frontend/src/components/Admin/GalleryForm/GalleryForm.tsx:47-89 | the guards in order, each error exactly in its case: title, slug, a new private gallery without a password, a mismatched confirmation; the payload sends empty fields as `null` when editing and leaves them out when creating |
| GalleryForm.PublicSkipsPasswordChecks | frontend/src/components/Admin/GalleryForm/GalleryForm.tsx:58-70 | a public gallery with a title and slug is never refused for its password fields |
| GalleryForm.PrivateBlankPassword | frontend/src/components/Admin/GalleryForm/GalleryForm.tsx:60-63 | without a password, an edited private gallery is sent with `password: null`, and a new one is refused |
| GalleryForm.GalleryFormState.constructor | frontend/src/components/Admin/GalleryForm/GalleryForm.tsx:28-41 | initial fields from the gallery being edited, or empty with auto-slug on |
| GalleryForm.GalleryFormState.SetTitle | frontend/src/components/Admin/GalleryForm/GalleryForm.tsx:37-41 | the title is set; in auto mode the slug becomes the title's slug, otherwise it stays; auto mode, the other fields and the error are unchanged, and the slug-tracks-title invariant is kept |
| GalleryForm.GalleryFormState.TypeSlug | frontend/src/components/Admin/GalleryForm/GalleryForm.tsx:128-131 | the typed slug is kept and auto mode ends; title, other fields and the error are unchanged |
| GalleryForm.GalleryFormState.ToggleAutoSlug | frontend/src/components/Admin/GalleryForm/GalleryForm.tsx:114-122 | auto mode flips, and turning it on re-derives the slug from the title; title, other fields and the error are unchanged |
| GalleryForm.GalleryFormState.HandleSubmit | frontend/src/components/Admin/GalleryForm/GalleryForm.tsx:43-93 | submits `ValidateForm`'s payload exactly when it is valid; otherwise, or when the submit throws, shows the message; the inputs are untouched |
| Contact.EscapeChar | backend/src/controllers/contactController.ts:7-14 | a plain character is kept, and a special one becomes an entity `&...;` |
| Contact.EscapeHtmlIsPerChar | backend/src/controllers/contactController.ts:7-14 | the chain of five replaces, `&` first, equals escaping each character on its own |
| Contact.EscapeHtmlHasNoMarkup | backend/src/controllers/contactController.ts:7-14 | the escaped text contains no `<`, `>`, `"` or `'` |
| Contact.EscapeHtmlAmpersands | backend/src/controllers/contactController.ts:7-14 | every `&` in the output begins one of the five entities |
| Contact.EscapeHtmlRoundTrip | backend/src/controllers/contactController.ts:7-14 | unescaping the output gives back the input |
| Contact.EmailRegexIffShape | backend/src/controllers/contactController.ts:49-55 | the e-mail regex matches exactly: no whitespace, one `@` with text before it, and a dot after it with text on both sides |
| Contact.ValidateContact | backend/src/controllers/contactController.ts:21-55 | the first failing check in order (missing field, name over 100, e-mail over 254, message over 5000, bad e-mail), each message exactly in its case; none exactly when all pass |
| Contact.MessageHtmlRoundTrip | backend/src/controllers/contactController.ts:88 | the message paragraph has no raw newline, and it reads back as the message |
| Contact.ComposeMail | backend/src/controllers/contactController.ts:74-90 | to the site address, reply-to the sender, the escaped name in the sender field and the subject, the raw text in the plain part, and the HTML template filled with the escaped name, the escaped e-mail and the escaped message with `<br />` for newlines |
| Contact.ComposeMailSlotsAreSafe | backend/src/controllers/contactController.ts:74-88 | the name and e-mail slots of the HTML body hold no `<`, `>`, `"` or `'`, the message slot none but its `<br />` markers and no raw newline, and each slot reads back as what the user typed |
| Contact.SendContactMessage | backend/src/controllers/contactController.ts:16-104 | 400 with the validation message; sent without SMTP; with SMTP, sent exactly when delivery succeeds, otherwise 500 |
| Contact.ValidInputIsSent | backend/src/controllers/contactController.ts:62-99 | valid input is answered `{sent: true}` whenever delivery succeeds or SMTP is not configured |
| Auth.Split | backend/src/middleware/auth.ts:25 | at least one piece, none containing the separator |
| Auth.SplitJoin | backend/src/middleware/auth.ts:25 | joining the pieces with the separator restores the header |
| Auth.BearerTokenIff | backend/src/middleware/auth.ts:25-34 | the header is accepted in form exactly when it is `Bearer `, then a token without spaces |
| Auth.Authenticate | backend/src/middleware/auth.ts:9-48 | 401 "required" for a missing header, 401 "format" for a malformed one, 401 "invalid" when verification fails, otherwise `next` with the payload |
| Auth.AuthenticatedIff | backend/src/middleware/auth.ts:34-47 | a well-formed header passes exactly when its token verifies |
| Auth.MalformedHeaders | backend/src/middleware/auth.ts:26 | a lower-case scheme or a doubled space is refused |
| ExifOverlay.FormatCamera | frontend/src/components/PhotoGrid/ExifOverlay.tsx:20-37 | empty when both names are missing, and otherwise whichever one is present |
| ExifOverlay.CameraNamesMakeOnceAndModel | frontend/src/components/PhotoGrid/ExifOverlay.tsx:31-36 | with both names present, the result starts with the make (ignoring case) and ends with the model; it is the model alone exactly when the model already starts with the make |
| ExifOverlay.FormatLens | frontend/src/components/PhotoGrid/ExifOverlay.tsx:15-18 | the global replace never shortens the lens name |
| ExifOverlay.FormatLensInsertsSpace | frontend/src/components/PhotoGrid/ExifOverlay.tsx:15-18 | `<digits>mmF<digit>` followed by any text becomes `<digits>mm F<digit>` followed by that text formatted |
| ExifOverlay.FormatLensCopiesNonDigits | frontend/src/components/PhotoGrid/ExifOverlay.tsx:15-18 | text without digits before the rest is copied as it is |
| ExifOverlay.FormatLensExample | frontend/src/components/PhotoGrid/ExifOverlay.tsx:16-17 | `50mmF2.8` becomes `50mm F2.8` |
| ExifOverlay.FormatLensOnlyInsertsSpaces | frontend/src/components/PhotoGrid/ExifOverlay.tsx:15-18 | the lens is only changed by single spaces inserted between `<digits>mm` and `F<digit>` |
| ExifOverlay.FormatLensNoStopUnchanged | frontend/src/components/PhotoGrid/ExifOverlay.tsx:15-18 | a lens name without `<digit>mmF<digit>` is shown unchanged |
| ExifOverlay.BuildSettings | frontend/src/components/PhotoGrid/ExifOverlay.tsx:46-50 | the pushes build aperture, shutter, ISO, focal length in that order, one per truthy field |
| ExifOverlay.EquipmentLine | frontend/src/components/PhotoGrid/ExifOverlay.tsx:57-63 | the separator appears only when both camera and lens are present |
| ExifOverlay.RenderOverlay | frontend/src/components/PhotoGrid/ExifOverlay.tsx:39-69 | nothing without EXIF or without any camera, lens or setting; otherwise the equipment line and the joined settings |
| Subdomain.AdminSubdomain | frontend/src/utils/subdomain.ts:1 | the configured subdomain when non-empty, else `manage` |
| Subdomain.IsAdminSubdomain | frontend/src/utils/subdomain.ts:9-23 | the host starts with `<sub>.`, or development mode with `?admin=true` |
| Subdomain.GetBaseDomain | frontend/src/utils/subdomain.ts:29-38 | on the admin site, the host with the first `<sub>.` removed; otherwise the host |
| Subdomain.GetAdminUrl | frontend/src/utils/subdomain.ts:43-49 | protocol, `//<sub>.`, the base domain, and `:port` only when there is a port |
| Subdomain.BaseOfAdminHost | frontend/src/utils/subdomain.ts:29-38 | on `<sub>.<b>` the base domain is `b` |
| Subdomain.AdminUrlRoundTrip | frontend/src/utils/subdomain.ts:43-49 | from the public site the admin URL is `<sub>.` plus the host (and port); from the admin site it points at the same host |
| Subdomain.DevOverrideStripsInnerOccurrence | frontend/src/utils/subdomain.ts:11-15 | with the development override, an inner `<sub>.` of a non-admin host is still removed |
| Subdomain.DevOverrideWithoutOccurrence | frontend/src/utils/subdomain.ts:32-37 | with the override on a host without `<sub>.`, the base domain is the host |
| Analytics.RowsToMap | backend/src/services/analyticsService.ts:63-68 | the map has exactly the days that have a row |
| Analytics.RowsToMapLastWins | backend/src/services/analyticsService.ts:63-68 | a day's count is that of its last row |
| Analytics.FillDays | backend/src/services/analyticsService.ts:70-80 | the loop from `days-1` down to 0 builds exactly `DailySeries` |
| Analytics.DailySeriesDays | backend/src/services/analyticsService.ts:70-80 | `days` entries, none when `days <= 0`, for consecutive days ending today and oldest first |
| Analytics.DailySeriesCounts | backend/src/services/analyticsService.ts:70-80 | each day of the window shows its row's count, or 0 when it has no row |
| Analytics.DailySeriesShowsRow | backend/src/services/analyticsService.ts:63-80 | a day in the window with a row shows that row's count |
| Analytics.ViewsOverTime | backend/src/services/analyticsService.ts:50-83 | the gap-filled series of the view rows |
| Analytics.UploadActivity | backend/src/services/analyticsService.ts:165-197 | the gap-filled series of the upload rows |
| Analytics.TakeSortedIsTop | backend/src/services/analyticsService.ts:88-129 | the first `limit` of a sorted permutation are sorted, and no row left out ranks above one kept |
| Analytics.TopGalleriesSpec | backend/src/services/analyticsService.ts:88-103 | `min(limit, galleries)` rows drawn from the galleries, most viewed first, and none left out is viewed more than one listed |
| Analytics.PhotoJoinSound | backend/src/services/analyticsService.ts:108-129 | every joined row pairs a photo with its own gallery's title |
| Analytics.PhotoJoinComplete | backend/src/services/analyticsService.ts:108-129 | every photo whose gallery exists gives its row in the join |
| Analytics.TopPhotosAreJoinedRows | backend/src/services/analyticsService.ts:108-129 | every top photo is a joined row |
| Analytics.TopPhotosSpec | backend/src/services/analyticsService.ts:108-129 | exactly `min(limit, joined rows)` joined rows, drawn from the join and all of it when it fits, most viewed first, and none left out is viewed more |
| Analytics.TopPhotosListJoinedPhoto | backend/src/services/analyticsService.ts:108-129 | a photo of an existing gallery makes the list non-empty when `limit > 0`, and is listed itself when the join fits in `limit` |
| Analytics.GetAllAnalytics | backend/src/services/analyticsService.ts:202-218 | 30-day series of 30 entries each, and top lists of at most 5 |
| Settings.AllSettings | backend/src/services/settingsService.ts:12-25 | the keys are the stored keys plus the two defaults |
| Settings.AllSettingsReads | backend/src/services/settingsService.ts:15-22 | both defaults are always present; a stored value is returned as is and NULL as ""; the defaults are "" unless stored |
| Settings.GetSetting | backend/src/services/settingsService.ts:30-36 | the value exactly when the key is stored with a non-empty value, otherwise null |
| Settings.ApplyPatchUntouched | backend/src/services/settingsService.ts:53-58 | a key that only `undefined` entries name keeps its row, or its absence |
| Settings.ApplyPatchLastWrite | backend/src/services/settingsService.ts:53-58 | the last defined entry for a key decides its stored value |
| Settings.SettingsTable.GetAllSettings | backend/src/services/settingsService.ts:12-25 | the loop over the rows builds exactly `AllSettings` |
| Settings.SettingsTable.UpdateSetting | backend/src/services/settingsService.ts:41-48 | an upsert: the key maps to the new value afterwards |
| Settings.SettingsTable.UpdateSettings | backend/src/services/settingsService.ts:53-60 | upserts the defined entries in order, then reads back all settings |
| Settings.UpsertReadsBack | backend/src/services/settingsService.ts:41-48 | after an upsert only that key reads differently, and `getSetting` returns it unless it is empty |
| Settings.UpdateSettingsReadsBack | backend/src/services/settingsService.ts:53-60 | with distinct keys a string reads back as written and `null` as "" |
| Settings.UpdateSettingsKeepsOthers | backend/src/services/settingsService.ts:53-60 | a key not written reads back as before |
| GalleryService.NewestFirstIsPreorder | backend/src/services/galleryService.ts:8 | `created_at DESC` is a total preorder |
| GalleryService.PhotoOrderIsPreorder | backend/src/services/galleryService.ts:25 | `sort_order ASC, uploaded_at ASC` is a total preorder |
| GalleryService.PublicGalleriesSpec | backend/src/services/galleryService.ts:4-11 | exactly the public galleries, each as often as stored, newest first |
| GalleryService.GalleryBySlug | backend/src/services/galleryService.ts:13-19 | a row with that slug, and none exactly when no row has it |
| GalleryService.GalleryById | backend/src/controllers/photoController.ts:15 | a row with that id, and none exactly when no row has it |
| GalleryService.GalleryByIdFindsRow | backend/src/controllers/photoController.ts:15 | with unique ids the lookup returns the row holding the id |
| GalleryService.GalleryPhotosSpec | backend/src/services/galleryService.ts:21-29 | exactly the gallery's photos, each as often as stored, in `sort_order`, then upload order |
| GalleryService.BumpGalleryViews | backend/src/services/galleryService.ts:31-36 | the same rows with the same ids |
| GalleryService.BumpGalleryViewsLookup | backend/src/services/galleryService.ts:31-36 | the gallery with that id has one more view; every other id reads as before; a missing id stays missing |
| GalleryService.BumpGalleryViewsKeepsKeys | backend/src/services/galleryService.ts:31-36 | ids stay unique |
| GalleryService.IncrementGalleryViews | backend/src/services/galleryService.ts:31-36 | the galleries table becomes `BumpGalleryViews`, and photos are untouched |
| GalleryController.ListGalleriesShowsPublicOnly | backend/src/controllers/galleryController.ts:4-12 | 500 when the query fails; otherwise exactly the public galleries |
| GalleryController.BumpFoundGallery | backend/src/controllers/galleryController.ts:38-40 | counting a view of a found gallery changes only that gallery |
| GalleryController.GetGalleryCountsPublicViews | backend/src/controllers/galleryController.ts:14-45 | 404 when no slug matches; a private gallery gets only id, title and slug, with no view counted; a public one is returned as read and has one more view afterwards |
| GalleryController.GetGallery | backend/src/controllers/galleryController.ts:14-45 | the response and the galleries table are `GetGalleryStep`'s, and photos are untouched |
| GalleryController.GalleryPhotosWithheldWhenPrivate | backend/src/controllers/galleryController.ts:47-70 | success exactly for a public gallery found by its slug; 401 for a private one; every listed photo is in display order and belongs to a public gallery |
| PhotoService.PhotoById | backend/src/services/photoService.ts:4-10 | a row with that id, and none exactly when no row has it |
| PhotoService.PhotoByIdFindsRow | backend/src/services/photoService.ts:4-10 | with unique ids the lookup returns the row holding the id |
| PhotoService.FeaturedJoinSound | backend/src/services/photoService.ts:12-21 | every joined row is a featured photo of a public gallery with that gallery's title and slug |
| PhotoService.FeaturedJoinComplete | backend/src/services/photoService.ts:12-21 | every featured photo of a public gallery is joined |
| PhotoService.FeaturedPhotosSpec | backend/src/services/photoService.ts:12-21 | newest upload first, and exactly the featured photos of public galleries |
| PhotoService.BumpPhoto | backend/src/services/photoService.ts:23-35 | the same rows with the same ids |
| PhotoService.BumpPhotoLookup | backend/src/services/photoService.ts:23-35 | the photo with that id has its counter one higher; every other id reads as before |
| PhotoService.IncrementPhotoViews | backend/src/services/photoService.ts:23-28 | the photos table becomes `BumpPhoto(..., Views)` |
| PhotoService.IncrementPhotoDownloads | backend/src/services/photoService.ts:30-35 | the photos table becomes `BumpPhoto(..., Downloads)` |
| PhotoController.GetPhotoGuardsPrivateGalleries | backend/src/controllers/photoController.ts:5-30 | 404 for an unknown photo; 403, with no view counted, when its gallery is private; otherwise the view is counted, and the answer succeeds exactly when URL signing does |
| PhotoController.GetPhoto | backend/src/controllers/photoController.ts:5-30 | the response and the photos table are `GetPhotoStep`'s |
| PhotoController.GetFeatured | backend/src/controllers/photoController.ts:32-41 | success exactly when the query and the URL signing succeed, with the signed featured list; otherwise 500 |
| PhotoController.DownloadIgnoresGalleryPrivacy | backend/src/controllers/photoController.ts:43-66 | any existing photo is downloaded under its original name, and the download is counted, even where `getPhoto` answers 403 |
| PhotoController.DownloadPhoto | backend/src/controllers/photoController.ts:43-66 | the response and the photos table are `DownloadStep`'s |
| App.Cors | backend/src/app.ts:9-14 | every origin exactly in development, else `FRONTEND_URL` or the localhost default |
| App.AnyPrefix | backend/src/app.ts:28 | true exactly when some public path is a prefix of the path |
| App.CacheControl | backend/src/app.ts:25-37 | no header for non-GET requests; public exactly for a public prefix without `/admin`; private otherwise |
| App.AdminPathsArePrivate | backend/src/app.ts:30-34 | any GET path mentioning `/admin`, or outside the public trees, is private |
| App.PublicTreesArePrefixes | backend/src/app.ts:27-31 | every GET path starting with `/galleries` and free of `/admin` is public |
| App.Compress | backend/src/app.ts:15-21 | compress exactly when the path does not end in `/download` and the default filter agrees |
| App.DownloadsAreNotCompressed | backend/src/app.ts:18 | download routes are never compressed |
| App.Dispatch | backend/src/app.ts:40-45 | an unmatched request gets 404 "Not found" |
| App.ErrorResponse | backend/src/app.ts:48-54 | always 500; the generic message in production, else the error's own |
| App.ProductionHidesMessages | backend/src/app.ts:52 | in production, two errors can't be told apart; outside it, the message is passed through unchanged |
| Upload.FileFilter | backend/src/config/upload.ts:7-22 | accepted exactly when the MIME type is on the list; otherwise rejected with the unsupported-type error |
| Upload.AllowListIsExact | backend/src/config/upload.ts:8-21 | six distinct types, compared exactly, so `image/jpg`, `image/JPEG` and `image/gif` are refused |
| Upload.SizeAccepted | backend/src/config/upload.ts:28-30 | accepted exactly up to 50 MiB |
| Backfill.NewKeysMatchGenerated | backend/scripts/backfill-webp.ts:142-144 | the new keys are the ones uploads use, and the new web key already ends in `.webp` |
| Backfill.VisitOutcome | backend/scripts/backfill-webp.ts:122-170 | skipped, with nothing done, exactly for a WebP photo; processed exactly when the row update succeeded |
| Backfill.VisitOrdering | backend/scripts/backfill-webp.ts:133-162 | the row is updated only after both uploads succeeded, and old objects are deleted only after the update succeeded |
| Backfill.DeleteFailuresSwallowed | backend/scripts/backfill-webp.ts:74-84 | deletion failures never change the outcome or the operations attempted |
| Backfill.WithNewKeys | backend/scripts/backfill-webp.ts:153-156 | only the photo's own row is repointed at the new keys |
| Backfill.RunFromTotal | backend/scripts/backfill-webp.ts:118-169 | the three counters add up to the number of photos visited |
| Backfill.RunFromKeepsRows | backend/scripts/backfill-webp.ts:153-156 | no row is added or removed, and no id changes |
| Backfill.VisitOrderIsOldestFirst | backend/scripts/backfill-webp.ts:111-113 | the photos are visited oldest upload first, each once |
| Backfill.BackfillWebp | backend/scripts/backfill-webp.ts:104-182 | the table, counters and trace are those of running every photo in order, and the counters total the photo count |

## Left out

- **Character handling**
  - Case mapping is ASCII only: `toLowerCase` on non-ASCII letters is not modelled.
  - Strings are sequences of Unicode scalar values (`char`), not of UTF-16 code units.
- Contact.ValidateContact: the length limits (name 100, email 254, message 5000) count Unicode scalar values, whereas JavaScript's `.length` counts UTF-16 code units, so a character outside the Basic Multilingual Plane counts once here and twice in the source.
- **Number formatting and floating point**
  - Number-to-text formatting, including `formatShutterSpeed`'s rounding, is passed into the EXIF overlay as parameters.
  - `getStorageStats` is not modelled: it does floating-point byte arithmetic over an aggregate query.
- **Dates and queries**
  - Dates are whole day numbers: time zones, `toISOString` and the SQL date truncation are left out.
  - The grouped SQL rows of the analytics queries are inputs.
  - SQL ties in `ORDER BY` take the stable order of the table, one of the orders the database may return.
- **Request data and JavaScript semantics**
  - Request bodies are strings or absent. Non-string JSON values, and JavaScript truthiness of other types, are not modelled.
- **External services**
  - `sharp`, the AWS SDK and its presigner, PostgreSQL, nodemailer and `verifyToken` are oracles or function parameters. So are `fetch`, `encodeURIComponent` and `window.location`.
  - A failing database query is one `down` flag, so every query of the request throws.
- **Code outside this model**
  - `enrichPhotoWithUrls`, `enrichPhotosWithUrls` and `getGalleryById` are not part of this model. The first two are parameters, and `getGalleryById` is a lookup by id over the galleries table.
- **Concurrency and timers**
  - `Promise.all` and `Promise.allSettled` are modelled as attempting every operation in sequence. Interleavings are left out.
  - The `setInterval` timers are `Sweep` methods called with the current time.
- **Library internals**
  - Only the outcome of sending e-mail is modelled; SMTP and the transport options are left out.
  - The `cors` library gets only its `origin` option.
  - The compression library's default filter is a boolean parameter.
  - multer's storage and streaming are left out; only the file filter and the size limit are modelled.
- **Deliberately partial models**
  - `S3Service.GetSignedUrlStep`: the cached entry ignores `expiresIn`, as the source does. A caller passing a validity below 50 minutes could be served an expired URL. The model states what the code does and proves the bound only for the default validity.
  - `Backfill.BackfillWebp`: the script's logging, its connection pool and `process.exit` are left out.
  - `GalleryForm.GalleryFormState.HandleSubmit`: React's rendering and the `isLoading` flag are left out.
- **Other admin client calls**
  - Login, the admin statistics and the other API client calls that neither read nor clear the response cache are not modelled.
