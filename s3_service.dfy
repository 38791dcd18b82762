/** The object-store service: a process-wide cache of signed retrieval
    URLs, the storage-key scheme for a photo's three renditions, and the
    guards and best-effort cleanup around object-store calls. The object
    store itself is a map from key to bytes; presigning is a function
    parameter; whether S3 is configured and whether the process runs in
    production are booleans in `Env`. */
module S3Service {
  import opened Wrappers
  import opened Text
  import Sequences

  /** Validity of a signed URL, in seconds, when the caller gives none. */
  const DEFAULT_EXPIRES_IN: int := 3600
  /** How long a signed URL is served from the cache, in milliseconds. */
  const URL_CACHE_TTL_MS: int := 50 * 60 * 1000
  const PLACEHOLDER_URL: string := "https://placehold.co/800x600/1a1a1a/ffffff?text=S3+Not+Configured"
  const NOT_CONFIGURED: string := "S3 is not configured. Check AWS environment variables."
  /** Stands for whatever error the AWS SDK raises. */
  const STORE_FAILURE: string := "S3 request failed"

  newtype byte = x: int | 0 <= x < 256
  type Blob = seq<byte>
  type ObjectStore = map<string, Blob>

  datatype Env = Env(configured: bool, production: bool)

  datatype UrlEntry = UrlEntry(url: string, expires: int)

  // ---------------------------------------------------------------------
  // Signed-URL cache
  // ---------------------------------------------------------------------

  /** What the cache would serve for `key` at time `now`. */
  function Lookup(entries: map<string, UrlEntry>, key: string, now: int): (r: Option<string>)
    ensures r.Some? <==> key in entries && now < entries[key].expires
    ensures r.Some? ==> r.value == entries[key].url
  {
    if key in entries && now < entries[key].expires then Some(entries[key].url) else None
  }

  /** The result of one `getSignedUrl` call: what it returns, whether it
      asked the presigner, and the cache afterwards. */
  datatype SignOutcome = SignOutcome(result: Result<string, string>, signed: bool, entries: map<string, UrlEntry>)

  /** One call, read at `now`; the presigner either gives a URL or throws,
      and `signedAt` is the clock read again once it has answered. */
  function GetSignedUrlStep(entries: map<string, UrlEntry>, key: string, expiresIn: int, now: int, signedAt: int,
                            env: Env, presign: (string, int) -> Result<string, string>): (o: SignOutcome)
    // unconfigured: fail in production, placeholder otherwise; cache untouched
    ensures !env.configured ==> !o.signed && o.entries == entries
    ensures !env.configured ==> o.result == (if env.production then Err(NOT_CONFIGURED) else Ok(PLACEHOLDER_URL))
    // configured: a fresh entry is served as is, keyed by `key` alone
    ensures env.configured && Lookup(entries, key, now).Some? ==>
              o == SignOutcome(Ok(entries[key].url), false, entries)
    // configured, missing or expired: sign once; store for the cache TTL
    ensures env.configured && Lookup(entries, key, now).None? ==>
              o.signed && o.result == presign(key, expiresIn)
    ensures env.configured && Lookup(entries, key, now).None? && presign(key, expiresIn).Ok? ==>
              o.entries == entries[key := UrlEntry(presign(key, expiresIn).value, signedAt + URL_CACHE_TTL_MS)]
    // a throwing presigner propagates its error and caches nothing
    ensures env.configured && Lookup(entries, key, now).None? && presign(key, expiresIn).Err? ==>
              o.entries == entries
  {
    if !env.configured then
      SignOutcome(if env.production then Err(NOT_CONFIGURED) else Ok(PLACEHOLDER_URL), false, entries)
    else
      match Lookup(entries, key, now)
      case Some(url) => SignOutcome(Ok(url), false, entries)
      case None =>
        match presign(key, expiresIn)
        case Err(e) => SignOutcome(Err(e), true, entries)
        case Ok(url) => SignOutcome(Ok(url), true, entries[key := UrlEntry(url, signedAt + URL_CACHE_TTL_MS)])
  }

  /** The entries a sweep at `now` keeps. */
  function Unexpired(entries: map<string, UrlEntry>, now: int): (m: map<string, UrlEntry>)
    ensures forall k :: k in m <==> k in entries && now < entries[k].expires
    ensures forall k :: k in m ==> m[k] == entries[k]
  {
    map k | k in entries && now < entries[k].expires :: entries[k]
  }

  /** A successful miss leaves an entry that expires 50 minutes after
      signing, ten minutes before the default one-hour validity of the
      URL it holds, which also starts when it is signed. */
  lemma MissCachesInsideValidity(entries: map<string, UrlEntry>, key: string, now: int, signedAt: int,
                                 env: Env, presign: (string, int) -> Result<string, string>)
    requires env.configured && Lookup(entries, key, now).None? && presign(key, DEFAULT_EXPIRES_IN).Ok?
    requires now <= signedAt
    ensures var o := GetSignedUrlStep(entries, key, DEFAULT_EXPIRES_IN, now, signedAt, env, presign);
            && key in o.entries
            && o.entries[key].expires == signedAt + URL_CACHE_TTL_MS
            && now < o.entries[key].expires < signedAt + DEFAULT_EXPIRES_IN * 1000
  {
  }

  /** Two calls for the same key, the first a successful miss and the
      second within the cache TTL of its signing, return the same URL; only
      the first signs, and the second leaves the cache as the first left
      it, whatever `expiresIn` it passes. */
  lemma {:induction false} RepeatedReadWithinTtl(entries: map<string, UrlEntry>, key: string,
                                                 e1: int, e2: int, t1: int, s1: int, t2: int, s2: int,
                                                 env: Env, presign: (string, int) -> Result<string, string>)
    requires env.configured && Lookup(entries, key, t1).None? && presign(key, e1).Ok?
    requires t2 < s1 + URL_CACHE_TTL_MS
    ensures var o1 := GetSignedUrlStep(entries, key, e1, t1, s1, env, presign);
            var o2 := GetSignedUrlStep(o1.entries, key, e2, t2, s2, env, presign);
            && o1.signed
            && o2.result == o1.result
            && !o2.signed
            && o2.entries == o1.entries
  {
    var o1 := GetSignedUrlStep(entries, key, e1, t1, s1, env, presign);
    assert o1.entries[key].expires == s1 + URL_CACHE_TTL_MS;
    assert Lookup(o1.entries, key, t2) == Some(presign(key, e1).value);
  }

  /** A call whose presigner throws answers with that error and leaves the
      cache as it was, so the next call signs again. */
  lemma FailedSignIsNotCached(entries: map<string, UrlEntry>, key: string, e1: int, e2: int,
                              t1: int, s1: int, t2: int, s2: int,
                              env: Env, presign: (string, int) -> Result<string, string>)
    requires env.configured && Lookup(entries, key, t1).None? && presign(key, e1).Err?
    requires t1 <= t2
    ensures var o1 := GetSignedUrlStep(entries, key, e1, t1, s1, env, presign);
            var o2 := GetSignedUrlStep(o1.entries, key, e2, t2, s2, env, presign);
            && o1.result == Err(presign(key, e1).error)
            && o1.entries == entries
            && o2.signed
  {
    var o1 := GetSignedUrlStep(entries, key, e1, t1, s1, env, presign);
    assert o1.entries == entries;
    assert Lookup(entries, key, t2).None?;
  }

  /** A sweep never removes an entry that a read would still serve, and
      removes every entry a read would refuse. */
  lemma {:induction false} SweepPreservesReads(entries: map<string, UrlEntry>, key: string, sweptAt: int, now: int)
    requires sweptAt <= now
    ensures Lookup(Unexpired(entries, sweptAt), key, now) == Lookup(entries, key, now)
    ensures key in entries && sweptAt >= entries[key].expires ==> key !in Unexpired(entries, sweptAt)
  {
    if key in entries && now < entries[key].expires {
      assert key in Unexpired(entries, sweptAt);
    }
  }

  /** The module-level `urlCache` map and the operations that mutate it. */
  class UrlCache {
    var entries: map<string, UrlEntry>

    constructor ()
      ensures entries == map[]
    {
      entries := map[];
    }

    /** `getSignedUrl(key, expiresIn)` at time `now`. */
    method GetSignedUrl(key: string, expiresIn: int, now: int, signedAt: int, env: Env,
                        presign: (string, int) -> Result<string, string>)
      returns (r: Result<string, string>, signed: bool)
      modifies this
      ensures var o := GetSignedUrlStep(old(entries), key, expiresIn, now, signedAt, env, presign);
              r == o.result && signed == o.signed && entries == o.entries
    {
      if !env.configured {
        if env.production {
          return Err(NOT_CONFIGURED), false;
        }
        return Ok(PLACEHOLDER_URL), false;
      }
      if key in entries && now < entries[key].expires {
        return Ok(entries[key].url), false;
      }
      r := presign(key, expiresIn);
      signed := true;
      if r.Ok? {
        entries := entries[key := UrlEntry(r.value, signedAt + URL_CACHE_TTL_MS)];
      }
    }

    /** The periodic sweep: walk the keys, deleting every entry with
        `now >= expires`. */
    method Sweep(now: int)
      modifies this
      ensures entries == Unexpired(old(entries), now)
    {
      ghost var start := entries;
      var pending := entries.Keys;
      while pending != {}
        invariant pending <= start.Keys
        invariant forall k :: k in entries <==> k in start && (k in pending || now < start[k].expires)
        invariant forall k :: k in entries ==> entries[k] == start[k]
        decreases pending
      {
        var k :| k in pending;
        if now >= entries[k].expires {
          entries := entries - {k};
        }
        pending := pending - {k};
      }
    }
  }

  // ---------------------------------------------------------------------
  // Storage keys
  // ---------------------------------------------------------------------

  datatype PhotoKeys = PhotoKeys(original: string, web: string, thumbnail: string)

  const ORIGINAL_NAME: string := "original.jpg"
  const WEB_NAME: string := "web.webp"
  const THUMB_NAME: string := "thumb.webp"

  function PhotoBase(galleryId: string, photoId: string): string {
    "galleries/" + galleryId + "/" + photoId + "/"
  }

  /** `generatePhotoKeys(galleryId, photoId)` */
  function GeneratePhotoKeys(galleryId: string, photoId: string): (k: PhotoKeys)
    ensures StartsWith(k.original, PhotoBase(galleryId, photoId)) && EndsWith(k.original, ORIGINAL_NAME)
    ensures StartsWith(k.web, PhotoBase(galleryId, photoId)) && EndsWith(k.web, WEB_NAME)
    ensures StartsWith(k.thumbnail, PhotoBase(galleryId, photoId)) && EndsWith(k.thumbnail, THUMB_NAME)
    ensures k.original != k.web && k.web != k.thumbnail && k.original != k.thumbnail
  {
    var base := PhotoBase(galleryId, photoId);
    var k := PhotoKeys(base + ORIGINAL_NAME, base + WEB_NAME, base + THUMB_NAME);
    assert k.original[|base|..] == ORIGINAL_NAME;
    assert k.web[|base|..] == WEB_NAME;
    assert k.thumbnail[|base|..] == THUMB_NAME;
    assert k.original[|base| + 1] != k.web[|base| + 1];
    assert k.original[|base|] != k.thumbnail[|base|];
    assert k.web[|base|] != k.thumbnail[|base|];
    k
  }

  /** The index of the first '/' in `s`, if any. */
  function FirstSlash(s: string): (r: Option<nat>)
    ensures r.Some? ==> r.value < |s| && s[r.value] == '/' && '/' !in s[..r.value]
    ensures r.None? ==> '/' !in s
  {
    if |s| == 0 then None
    else if s[0] == '/' then Some(0)
    else match FirstSlash(s[1..])
      case None => None
      case Some(i) => assert s[..i + 1] == [s[0]] + s[1..][..i]; Some(i + 1)
  }

  /** A string without '/' is determined by where the first '/' stands in
      what follows it. */
  lemma {:induction false} SlashFreePrefix(a: string, b: string, x: string, y: string)
    requires '/' !in a && '/' !in b
    requires a + "/" + x == b + "/" + y
    ensures a == b && x == y
  {
    var s := a + "/" + x;
    var t := b + "/" + y;
    assert s[|a|] == '/' && t[|b|] == '/';
    assert forall i :: 0 <= i < |a| ==> s[i] == a[i];
    assert forall i :: 0 <= i < |b| ==> t[i] == b[i];
    assert |a| == |b|;
    assert a == s[..|a|] && b == t[..|b|];
    assert x == s[|a| + 1..] && y == t[|b| + 1..];
  }

  lemma Regroup(g: string, p: string, name: string)
    ensures PhotoBase(g, p) + name == "galleries/" + (g + "/" + (p + "/" + name))
  {
  }

  /** With identifiers free of '/' (UUIDs are), different photos never
      share a storage key: the original key determines both ids. */
  lemma {:induction false} PhotoKeysInjective(g1: string, p1: string, g2: string, p2: string)
    requires '/' !in g1 && '/' !in p1 && '/' !in g2 && '/' !in p2
    requires GeneratePhotoKeys(g1, p1).original == GeneratePhotoKeys(g2, p2).original
    ensures g1 == g2 && p1 == p2
  {
    var prefix := "galleries/";
    var r1 := p1 + "/" + ORIGINAL_NAME;
    var r2 := p2 + "/" + ORIGINAL_NAME;
    var u1 := g1 + "/" + r1;
    var u2 := g2 + "/" + r2;
    Regroup(g1, p1, ORIGINAL_NAME);
    Regroup(g2, p2, ORIGINAL_NAME);
    assert prefix + u1 == prefix + u2;
    assert u1 == (prefix + u1)[|prefix|..];
    assert u2 == (prefix + u2)[|prefix|..];
    SlashFreePrefix(g1, g2, r1, r2);
    SlashFreePrefix(p1, p2, ORIGINAL_NAME, ORIGINAL_NAME);
  }

  // ---------------------------------------------------------------------
  // Object-store calls and their "not configured" guard
  // ---------------------------------------------------------------------

  /** The object-store requests made by `uploadFile`, `deleteFile`,
      `copyFile` and `getFileStream`. */
  datatype S3Op = Put(key: string, body: Blob) | Delete(key: string) | Copy(source: string, dest: string) | Get(key: string)

  datatype StoreReply = StoreReply(store: ObjectStore, body: Option<Blob>)

  /** One guarded object-store call. `accepted` says whether the SDK call
      succeeds; a copy or read of a missing object fails as S3 does. */
  function S3Call(store: ObjectStore, env: Env, op: S3Op, accepted: bool): (r: Result<StoreReply, string>)
    ensures !env.configured ==> r == Err(NOT_CONFIGURED)
    ensures env.configured && !accepted ==> r.Err? && r != Err(NOT_CONFIGURED)
    ensures r.Ok? && op.Put? ==> r.value.store == store[op.key := op.body]
    ensures r.Ok? && op.Delete? ==> r.value.store == store - {op.key}
    ensures r.Ok? && op.Copy? ==> op.source in store && r.value.store == store[op.dest := store[op.source]]
    ensures r.Ok? && op.Get? ==> r.value.store == store && op.key in store && r.value.body == Some(store[op.key])
    ensures env.configured && accepted && (op.Put? || op.Delete?) ==> r.Ok?
  {
    if !env.configured then Err(NOT_CONFIGURED)
    else if !accepted then Err(STORE_FAILURE)
    else match op
      case Put(key, body) => Ok(StoreReply(store[key := body], None))
      case Delete(key) => Ok(StoreReply(store - {key}, None))
      case Copy(source, dest) =>
        if source in store then Ok(StoreReply(store[dest := store[source]], None)) else Err(STORE_FAILURE)
      case Get(key) =>
        if key in store then Ok(StoreReply(store, Some(store[key]))) else Err(STORE_FAILURE)
  }

  /** What `deletePhotoFiles` did: which keys it asked to delete, how many
      of those requests failed, and the store afterwards. */
  datatype DeleteReport = DeleteReport(attempted: seq<string>, failures: nat, store: ObjectStore)

  function FailureCount(accepted: (S3Op) -> bool, key: string): nat {
    if accepted(Delete(key)) then 0 else 1
  }

  /** One deletion attempt; a failure is counted, never raised. */
  function AttemptDelete(rep: DeleteReport, env: Env, key: string, accepted: (S3Op) -> bool): (r: DeleteReport)
    requires env.configured
    ensures r.attempted == rep.attempted + [key]
    ensures r.failures == rep.failures + FailureCount(accepted, key)
    ensures r.store == if accepted(Delete(key)) then rep.store - {key} else rep.store
  {
    match S3Call(rep.store, env, Delete(key), accepted(Delete(key)))
    case Ok(reply) => DeleteReport(rep.attempted + [key], rep.failures, reply.store)
    case Err(_) => DeleteReport(rep.attempted + [key], rep.failures + 1, rep.store)
  }

  /** `deletePhotoFiles(galleryId, photoId)`: nothing when S3 is not
      configured; otherwise all three deletions are attempted whatever
      the others do, and the failures are only counted. */
  function DeletePhotoFiles(store: ObjectStore, env: Env, galleryId: string, photoId: string,
                            accepted: (S3Op) -> bool): (r: DeleteReport)
    ensures !env.configured ==> r == DeleteReport([], 0, store)
    ensures env.configured ==>
              var k := GeneratePhotoKeys(galleryId, photoId);
              && r.attempted == [k.original, k.web, k.thumbnail]
              && r.failures == FailureCount(accepted, k.original) + FailureCount(accepted, k.web)
                               + FailureCount(accepted, k.thumbnail)
              && r.store == store - (set key | key in r.attempted && accepted(Delete(key)))
  {
    if !env.configured then DeleteReport([], 0, store)
    else
      var k := GeneratePhotoKeys(galleryId, photoId);
      var r1 := AttemptDelete(DeleteReport([], 0, store), env, k.original, accepted);
      var r2 := AttemptDelete(r1, env, k.web, accepted);
      var r3 := AttemptDelete(r2, env, k.thumbnail, accepted);
      assert r3.store == store - (set key | key in r3.attempted && accepted(Delete(key)));
      r3
  }
}
