/** The browser-side API client: a response cache with a five-minute TTL,
    the cache keys its readers use, the prefixes each mutation clears, and
    the URL builders. The network is a function parameter `fetch` from an
    endpoint to the decoded payload or the error `fetchApi` throws;
    `encodeURIComponent` is the parameter `encode`. */
module ApiClient {
  import opened Wrappers
  import opened Text

  /** Cache TTL: 5 minutes, in milliseconds. */
  const CACHE_TTL_MS: int := 5 * 60 * 1000

  const FEATURED_KEY: string := "featured"
  const GALLERIES_KEY: string := "galleries"
  const GALLERY_PREFIX: string := "gallery:"
  const PHOTOS_PREFIX: string := "photos:"

  datatype CacheEntry<T> = CacheEntry(data: T, expires: int)

  /** `VITE_API_URL || http://${hostname}:3001/api` */
  function ApiBase(configured: Option<string>, hostname: string): (b: string)
    ensures configured.Some? && configured.value != "" ==> b == configured.value
    ensures (configured.None? || configured.value == "") ==> EndsWith(b, ":3001/api") && StartsWith(b, "http://" + hostname)
  {
    if configured.Some? && configured.value != "" then configured.value
    else
      var b := "http://" + hostname + ":3001/api";
      assert b[|b| - |":3001/api"|..] == ":3001/api";
      b
  }

  /** True for a token the client would send: `accessToken ?` is false for
      both `undefined` and the empty string. */
  predicate HasToken(token: Option<string>) {
    token.Some? && token.value != ""
  }

  function GalleryKey(slug: string): string {
    GALLERY_PREFIX + slug
  }

  /** The photo-list cache key: `photos:{slug}:{token}` with a token,
      `photos:{slug}` without one. */
  function PhotosKey(slug: string, token: Option<string>): (k: string)
    ensures StartsWith(k, PHOTOS_PREFIX + slug)
    ensures HasToken(token) ==> k == PHOTOS_PREFIX + slug + ":" + token.value
    ensures !HasToken(token) ==> k == PHOTOS_PREFIX + slug
  {
    var base := PHOTOS_PREFIX + slug;
    if HasToken(token) then
      assert (base + ":" + token.value)[..|base|] == base;
      base + ":" + token.value
    else base
  }

  /** The endpoint `getGalleryPhotos` fetches. */
  function PhotosEndpoint(slug: string, token: Option<string>, encode: string -> string): (e: string)
    ensures HasToken(token) ==> e == "/galleries/" + slug + "/photos?access=" + encode(token.value)
    ensures !HasToken(token) ==> e == "/galleries/" + slug + "/photos"
  {
    if HasToken(token) then "/galleries/" + slug + "/photos?access=" + encode(token.value)
    else "/galleries/" + slug + "/photos"
  }

  /** `getGalleryDownloadUrl(slug, accessToken)`: the token is appended,
      encoded, only when there is one. */
  function GalleryDownloadUrl(apiBase: string, slug: string, token: Option<string>, encode: string -> string): (u: string)
    ensures StartsWith(u, apiBase + "/galleries/" + slug + "/download")
    ensures HasToken(token) ==> u == apiBase + "/galleries/" + slug + "/download" + "?access=" + encode(token.value)
    ensures !HasToken(token) ==> u == apiBase + "/galleries/" + slug + "/download"
  {
    var url := apiBase + "/galleries/" + slug + "/download";
    if HasToken(token) then
      assert (url + "?access=" + encode(token.value))[..|url|] == url;
      url + "?access=" + encode(token.value)
    else url
  }

  /** For the same slug, distinct access tokens never share a photo-list
      cache entry, and a request with a token never reads the entry of one
      without. */
  lemma PhotosKeySeparatesTokens(slug: string, t1: Option<string>, t2: Option<string>)
    requires PhotosKey(slug, t1) == PhotosKey(slug, t2)
    ensures HasToken(t1) == HasToken(t2)
    ensures HasToken(t1) ==> t1.value == t2.value
  {
    var base := PHOTOS_PREFIX + slug;
    if HasToken(t1) && HasToken(t2) {
      assert (base + ":" + t1.value)[|base| + 1..] == t1.value;
      assert (base + ":" + t2.value)[|base| + 1..] == t2.value;
    }
  }

  /** Across slugs the key scheme is ambiguous: the key of slug `s` with
      token `t` is the key of slug `s:t` without a token, so the two reads
      share one cache entry. */
  lemma PhotosKeyCollidesAcrossSlugs(slug: string, token: string)
    requires token != ""
    ensures PhotosKey(slug, Some(token)) == PhotosKey(slug + ":" + token, None)
  {
    assert PHOTOS_PREFIX + slug + ":" + token == PHOTOS_PREFIX + (slug + ":" + token);
  }

  /** With slugs free of `:`, which the slug pattern guarantees, two reads
      share a photo-list entry only for the same slug and the same token,
      or with none. */
  lemma PhotosKeyInjective(s1: string, t1: Option<string>, s2: string, t2: Option<string>)
    requires ':' !in s1 && ':' !in s2
    requires PhotosKey(s1, t1) == PhotosKey(s2, t2)
    ensures s1 == s2
    ensures HasToken(t1) == HasToken(t2)
    ensures HasToken(t1) ==> t1.value == t2.value
  {
    var p := PHOTOS_PREFIX;
    var k := PhotosKey(s1, t1);
    if |s1| < |s2| {
      ShorterSlugDiffers(s1, t1, s2, t2);
    } else if |s2| < |s1| {
      ShorterSlugDiffers(s2, t2, s1, t1);
    }
    assert s1 == k[|p|..|p| + |s1|];
    assert s2 == k[|p|..|p| + |s2|];
    PhotosKeySeparatesTokens(s1, t1, t2);
  }

  /** A shorter `:`-free slug gives a different key: where the key of the
      shorter slug has `:` or ends, the other key has a slug character. */
  lemma ShorterSlugDiffers(s1: string, t1: Option<string>, s2: string, t2: Option<string>)
    requires ':' !in s2
    requires |s1| < |s2|
    ensures PhotosKey(s1, t1) != PhotosKey(s2, t2)
  {
    var p := PHOTOS_PREFIX;
    var k1, k2 := PhotosKey(s1, t1), PhotosKey(s2, t2);
    assert k2[..|p| + |s2|] == p + s2;
    assert k2[|p| + |s1|] == s2[|s1|];
    if HasToken(t1) {
      assert k1[|p| + |s1|] == ':';
    } else {
      assert |k1| == |p| + |s1|;
    }
  }

  // ---------------------------------------------------------------------
  // The cache as a map, and what each operation leaves in it
  // ---------------------------------------------------------------------

  /** The entries whose key does not start with `prefix`. */
  function WithoutPrefix<T>(entries: map<string, CacheEntry<T>>, prefix: string): (m: map<string, CacheEntry<T>>)
    ensures forall k :: k in m <==> k in entries && !StartsWith(k, prefix)
    ensures forall k :: k in m ==> m[k] == entries[k]
  {
    map k | k in entries && !StartsWith(k, prefix) :: entries[k]
  }

  /** `clearCache(p)` for each prefix in turn. */
  function WithoutPrefixes<T>(entries: map<string, CacheEntry<T>>, prefixes: seq<string>): (m: map<string, CacheEntry<T>>)
    decreases |prefixes|
  {
    if |prefixes| == 0 then entries
    else WithoutPrefixes(WithoutPrefix(entries, prefixes[0]), prefixes[1..])
  }

  /** Clearing several prefixes keeps exactly the keys that start with none
      of them, with their entries unchanged. */
  lemma {:induction false} WithoutPrefixesKeeps<T>(entries: map<string, CacheEntry<T>>, prefixes: seq<string>, k: string)
    ensures k in WithoutPrefixes(entries, prefixes) <==>
              k in entries && forall i :: 0 <= i < |prefixes| ==> !StartsWith(k, prefixes[i])
    ensures k in WithoutPrefixes(entries, prefixes) ==> WithoutPrefixes(entries, prefixes)[k] == entries[k]
    decreases |prefixes|
  {
    if |prefixes| > 0 {
      WithoutPrefixesKeeps(WithoutPrefix(entries, prefixes[0]), prefixes[1..], k);
      var rest := prefixes[1..];
      assert forall i :: 0 <= i < |rest| ==> rest[i] == prefixes[i + 1];
      if k in entries && !StartsWith(k, prefixes[0]) && k !in WithoutPrefixes(entries, prefixes) {
        var i :| 0 <= i < |rest| && StartsWith(k, rest[i]);
        assert StartsWith(k, prefixes[i + 1]);
      }
    }
  }

  /** The admin operations of the client that change server data. */
  datatype Mutation =
    | CreateGallery | UpdateGallery | DeleteGallery | ReorderGalleries | SetCoverImage
    | UploadPhoto | UpdatePhoto | DeletePhoto | ReorderPhotos | MovePhotos | UpdateSettings

  /** The prefixes a mutation clears once the server has accepted it. */
  function InvalidatedPrefixes(m: Mutation): seq<string> {
    match m
    case CreateGallery => [GALLERIES_KEY]
    case UpdateGallery => [GALLERIES_KEY, GALLERY_PREFIX]
    case DeleteGallery => [GALLERIES_KEY, GALLERY_PREFIX, PHOTOS_PREFIX]
    case ReorderGalleries => [GALLERIES_KEY]
    case SetCoverImage => [GALLERIES_KEY]
    case DeletePhoto => [PHOTOS_PREFIX, FEATURED_KEY, GALLERIES_KEY]
    case MovePhotos => [PHOTOS_PREFIX, GALLERIES_KEY]
    case UploadPhoto => []
    case UpdatePhoto => []
    case ReorderPhotos => []
    case UpdateSettings => []
  }

  /** After a gallery is deleted no cached gallery list, gallery or photo
      list survives, and every other entry does. */
  lemma DeleteGalleryInvalidation<T>(entries: map<string, CacheEntry<T>>, slug: string, token: Option<string>, k: string)
    ensures var m := WithoutPrefixes(entries, InvalidatedPrefixes(DeleteGallery));
            && GALLERIES_KEY !in m && GalleryKey(slug) !in m && PhotosKey(slug, token) !in m
            && ((k in entries && !StartsWith(k, GALLERIES_KEY) && !StartsWith(k, GALLERY_PREFIX)
                 && !StartsWith(k, PHOTOS_PREFIX)) ==> k in m)
  {
    var ps := InvalidatedPrefixes(DeleteGallery);
    WithoutPrefixesKeeps(entries, ps, k);
    WithoutPrefixesKeeps(entries, ps, GALLERIES_KEY);
    WithoutPrefixesKeeps(entries, ps, GalleryKey(slug));
    WithoutPrefixesKeeps(entries, ps, PhotosKey(slug, token));
    assert StartsWith(GalleryKey(slug), ps[1]);
    assert StartsWith(PhotosKey(slug, token), ps[2]);
    assert StartsWith(GALLERIES_KEY, ps[0]);
  }

  /** After a photo is deleted the featured list, the gallery list and every
      photo list are gone; gallery details stay cached. */
  lemma DeletePhotoInvalidation<T>(entries: map<string, CacheEntry<T>>, slug: string, token: Option<string>)
    ensures var m := WithoutPrefixes(entries, InvalidatedPrefixes(DeletePhoto));
            && FEATURED_KEY !in m && GALLERIES_KEY !in m && PhotosKey(slug, token) !in m
            && (GalleryKey(slug) in entries ==> GalleryKey(slug) in m)
  {
    var ps := InvalidatedPrefixes(DeletePhoto);
    WithoutPrefixesKeeps(entries, ps, FEATURED_KEY);
    WithoutPrefixesKeeps(entries, ps, GALLERIES_KEY);
    WithoutPrefixesKeeps(entries, ps, PhotosKey(slug, token));
    WithoutPrefixesKeeps(entries, ps, GalleryKey(slug));
    assert StartsWith(PhotosKey(slug, token), ps[0]);
    assert StartsWith(FEATURED_KEY, ps[1]);
    assert StartsWith(GALLERIES_KEY, ps[2]);
    assert GalleryKey(slug)[4] == 'e' && GALLERIES_KEY[4] == 'e';
    assert GalleryKey(slug)[6] != GALLERIES_KEY[6];
    assert GalleryKey(slug)[0] != PHOTOS_PREFIX[0] && GalleryKey(slug)[0] != FEATURED_KEY[0];
  }

  /** Editing or reordering photos, uploading one and changing settings
      leave the cache as it is. */
  lemma PhotoEditsKeepCache<T>(entries: map<string, CacheEntry<T>>, m: Mutation)
    requires m == UpdatePhoto || m == ReorderPhotos || m == UploadPhoto || m == UpdateSettings
    ensures WithoutPrefixes(entries, InvalidatedPrefixes(m)) == entries
  {
  }

  /** The cache after `getCached(key)` at `now`: an expired entry found by
      the read is deleted; anything else is left alone. */
  function AfterRead<T>(entries: map<string, CacheEntry<T>>, key: string, now: int): (m: map<string, CacheEntry<T>>)
    ensures key in entries && now >= entries[key].expires ==> m == entries - {key}
    ensures key !in entries || now < entries[key].expires ==> m == entries
  {
    if key in entries && now >= entries[key].expires then entries - {key} else entries
  }

  /** The cache after a read at `now` that missed and fetched `r`, the
      clock reading `fetchedAt` once the fetch is done: an expired entry
      for the key is gone, a successful fetch is stored for the cache's
      lifetime from `fetchedAt`, and no other key is touched. */
  function AfterFetch<T>(entries: map<string, CacheEntry<T>>, key: string, now: int, fetchedAt: int,
                         r: Result<T, string>)
    : (m: map<string, CacheEntry<T>>)
    ensures forall k :: k != key ==> (k in m <==> k in entries)
    ensures forall k :: k != key && k in m ==> m[k] == entries[k]
    ensures r.Ok? ==> key in m && m[key] == CacheEntry(r.value, fetchedAt + CACHE_TTL_MS)
    ensures r.Err? && !(key in entries && now < entries[key].expires) ==> key !in m
    ensures r.Err? && key in entries && now < entries[key].expires ==> m == entries
  {
    if r.Ok? then AfterRead(entries, key, now)[key := CacheEntry(r.value, fetchedAt + CACHE_TTL_MS)]
    else AfterRead(entries, key, now)
  }

  /** The module-level `cache` and the functions that read and write it. */
  class ResponseCache<T> {
    var entries: map<string, CacheEntry<T>>

    constructor ()
      ensures entries == map[]
    {
      entries := map[];
    }

    /** `getCached(key)`: the data while `now < expires`, otherwise null. */
    method GetCached(key: string, now: int) returns (r: Option<T>)
      modifies this
      ensures r.Some? <==> key in old(entries) && now < old(entries)[key].expires
      ensures r.Some? ==> r.value == old(entries)[key].data
      ensures entries == AfterRead(old(entries), key, now)
    {
      if key in entries && now < entries[key].expires {
        return Some(entries[key].data);
      }
      if key in entries {
        entries := entries - {key};
      }
      return None;
    }

    /** `setCache(key, data)`: replaces any previous entry. */
    method SetCache(key: string, data: T, now: int)
      modifies this
      ensures entries == old(entries)[key := CacheEntry(data, now + CACHE_TTL_MS)]
    {
      entries := entries[key := CacheEntry(data, now + CACHE_TTL_MS)];
    }

    /** `clearCache(prefix?)`: everything when the prefix is missing or
        empty, otherwise exactly the keys that start with it. */
    method ClearCache(prefix: Option<string>)
      modifies this
      ensures prefix.None? || prefix.value == "" ==> entries == map[]
      ensures prefix.Some? && prefix.value != "" ==> entries == WithoutPrefix(old(entries), prefix.value)
    {
      if prefix.None? || prefix.value == "" {
        entries := map[];
        return;
      }
      var p := prefix.value;
      ghost var start := entries;
      var pending := entries.Keys;
      while pending != {}
        invariant pending <= start.Keys
        invariant forall k :: k in entries <==> k in start && (k in pending || !StartsWith(k, p))
        invariant forall k :: k in entries ==> entries[k] == start[k]
        decreases pending
      {
        var k :| k in pending;
        if StartsWith(k, p) {
          entries := entries - {k};
        }
        pending := pending - {k};
      }
    }

    /** The body shared by the cached readers: a hit returns without
        fetching; a miss fetches `endpoint` and, on success, stores the
        data under the same key, stamped with the clock read after the
        fetch (`fetchedAt`), as `setCache` reads `Date.now()` again. */
    method CachedFetch(key: string, endpoint: string, now: int, fetchedAt: int, fetch: string -> Result<T, string>)
      returns (r: Result<T, string>, fetched: bool)
      modifies this
      ensures key in old(entries) && now < old(entries)[key].expires ==>
                r == Ok(old(entries)[key].data) && !fetched && entries == old(entries)
      ensures !(key in old(entries) && now < old(entries)[key].expires) ==>
                && fetched && r == fetch(endpoint)
                && entries == AfterFetch(old(entries), key, now, fetchedAt, r)
    {
      var cached := GetCached(key, now);
      if cached.Some? {
        return Ok(cached.value), false;
      }
      r := fetch(endpoint);
      fetched := true;
      if r.Ok? {
        SetCache(key, r.value, fetchedAt);
      }
    }

    method GetFeaturedPhotos(now: int, fetchedAt: int, fetch: string -> Result<T, string>) returns (r: Result<T, string>, fetched: bool)
      modifies this
      ensures FEATURED_KEY in old(entries) && now < old(entries)[FEATURED_KEY].expires ==>
                r == Ok(old(entries)[FEATURED_KEY].data) && !fetched && entries == old(entries)
      ensures !(FEATURED_KEY in old(entries) && now < old(entries)[FEATURED_KEY].expires) ==>
                fetched && r == fetch("/featured") && entries == AfterFetch(old(entries), FEATURED_KEY, now, fetchedAt, r)
    {
      r, fetched := CachedFetch(FEATURED_KEY, "/featured", now, fetchedAt, fetch);
    }

    method GetGalleries(now: int, fetchedAt: int, fetch: string -> Result<T, string>) returns (r: Result<T, string>, fetched: bool)
      modifies this
      ensures GALLERIES_KEY in old(entries) && now < old(entries)[GALLERIES_KEY].expires ==>
                r == Ok(old(entries)[GALLERIES_KEY].data) && !fetched && entries == old(entries)
      ensures !(GALLERIES_KEY in old(entries) && now < old(entries)[GALLERIES_KEY].expires) ==>
                fetched && r == fetch("/galleries") && entries == AfterFetch(old(entries), GALLERIES_KEY, now, fetchedAt, r)
    {
      r, fetched := CachedFetch(GALLERIES_KEY, "/galleries", now, fetchedAt, fetch);
    }

    method GetGallery(slug: string, now: int, fetchedAt: int, fetch: string -> Result<T, string>) returns (r: Result<T, string>, fetched: bool)
      modifies this
      ensures var key := GalleryKey(slug);
              key in old(entries) && now < old(entries)[key].expires ==>
                r == Ok(old(entries)[key].data) && !fetched && entries == old(entries)
      ensures var key := GalleryKey(slug);
              !(key in old(entries) && now < old(entries)[key].expires) ==>
                fetched && r == fetch("/galleries/" + slug) && entries == AfterFetch(old(entries), key, now, fetchedAt, r)
    {
      r, fetched := CachedFetch(GalleryKey(slug), "/galleries/" + slug, now, fetchedAt, fetch);
    }

    method GetGalleryPhotos(slug: string, token: Option<string>, now: int, fetchedAt: int, fetch: string -> Result<T, string>,
                            encode: string -> string) returns (r: Result<T, string>, fetched: bool)
      modifies this
      ensures var key := PhotosKey(slug, token);
              key in old(entries) && now < old(entries)[key].expires ==>
                r == Ok(old(entries)[key].data) && !fetched && entries == old(entries)
      ensures var key := PhotosKey(slug, token);
              !(key in old(entries) && now < old(entries)[key].expires) ==>
                fetched && r == fetch(PhotosEndpoint(slug, token, encode))
                && entries == AfterFetch(old(entries), key, now, fetchedAt, r)
    {
      r, fetched := CachedFetch(PhotosKey(slug, token), PhotosEndpoint(slug, token, encode), now, fetchedAt, fetch);
    }

    /** What a mutation does to the cache: nothing when the request throws,
        otherwise `clearCache` on each of its prefixes. */
    method AfterMutation(m: Mutation, accepted: bool)
      modifies this
      ensures !accepted ==> entries == old(entries)
      ensures accepted ==> entries == WithoutPrefixes(old(entries), InvalidatedPrefixes(m))
    {
      if !accepted {
        return;
      }
      var ps := InvalidatedPrefixes(m);
      var i := 0;
      while i < |ps|
        invariant 0 <= i <= |ps|
        invariant WithoutPrefixes(entries, ps[i..]) == WithoutPrefixes(old(entries), ps)
      {
        assert ps[i..][1..] == ps[i + 1..];
        ClearCache(Some(ps[i]));
        i := i + 1;
      }
    }
  }
}
