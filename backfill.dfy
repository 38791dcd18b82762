/** The WebP backfill batch: every photo whose web version is not yet WebP
    gets new WebP web and thumbnail objects, its row is pointed at them,
    and the old objects are removed. Object-store calls, the image
    conversion and the row update are operations whose success the oracle
    `ok` decides; the trace records every operation attempted, in order. */
module Backfill {
  import opened Text
  import opened Schema
  import opened Sequences
  import S3Service

  const WEBP_EXT: string := ".webp"
  const WEB_MAX_WIDTH: int := 1920
  const WEB_QUALITY: int := 88
  const THUMB_MAX_WIDTH: int := 600
  const THUMB_QUALITY: int := 82

  /** The side effects of one iteration. */
  datatype Op =
    | Download(key: string)
    | Convert(key: string, maxWidth: int, quality: int)
    | Upload(key: string)
    | UpdateKeys(id: string, web: string, thumb: string)
    | Delete(key: string)

  datatype Outcome = Processed | Skipped | Failed

  /** The three counters of the batch. */
  datatype Tally = Tally(processed: nat, skipped: nat, failed: nat)

  function Total(t: Tally): nat {
    t.processed + t.skipped + t.failed
  }

  function Counted(t: Tally, o: Outcome): (u: Tally)
    ensures Total(u) == Total(t) + 1
  {
    match o
    case Processed => t.(processed := t.processed + 1)
    case Skipped => t.(skipped := t.skipped + 1)
    case Failed => t.(failed := t.failed + 1)
  }

  /** `photo.s3_web_key.endsWith('.webp')` */
  predicate AlreadyWebp(p: Photo) {
    EndsWith(p.s3WebKey, WEBP_EXT)
  }

  /** `${basePath}/web.webp` with `basePath = galleries/{gallery_id}/{id}`. */
  function NewWebKey(p: Photo): string {
    "galleries/" + p.galleryId + "/" + p.id + "/web.webp"
  }

  function NewThumbKey(p: Photo): string {
    "galleries/" + p.galleryId + "/" + p.id + "/thumb.webp"
  }

  /** The keys the batch writes are the ones uploads use, and the new web
      key is already WebP, so a second run skips the photo. */
  lemma NewKeysMatchGenerated(p: Photo)
    ensures NewWebKey(p) == S3Service.GeneratePhotoKeys(p.galleryId, p.id).web
    ensures NewThumbKey(p) == S3Service.GeneratePhotoKeys(p.galleryId, p.id).thumbnail
    ensures AlreadyWebp(p.(s3WebKey := NewWebKey(p)))
  {
    var head := "galleries/" + p.galleryId + "/" + p.id;
    assert "/web.webp" == "/" + S3Service.WEB_NAME;
    assert "/thumb.webp" == "/" + S3Service.THUMB_NAME;
    assert NewWebKey(p) == head + "/web.webp";
    assert S3Service.PhotoBase(p.galleryId, p.id) == head + "/";
    var w := head + "/web";
    assert NewWebKey(p) == w + WEBP_EXT;
    assert (w + WEBP_EXT)[|w|..] == WEBP_EXT;
  }

  /** One pass of the loop body on one photo: its outcome and the
      operations attempted. Both conversions, and both uploads, are
      attempted before either failure is noticed; delete failures are
      swallowed. */
  function Visit(p: Photo, ok: Op -> bool): (Outcome, seq<Op>) {
    if AlreadyWebp(p) then (Skipped, [])
    else
      var fetch := [Download(p.s3Key)];
      if !ok(fetch[0]) then (Failed, fetch)
      else
        var convert := [Convert(p.s3Key, WEB_MAX_WIDTH, WEB_QUALITY), Convert(p.s3Key, THUMB_MAX_WIDTH, THUMB_QUALITY)];
        if !ok(convert[0]) || !ok(convert[1]) then (Failed, fetch + convert)
        else
          var upload := [Upload(NewWebKey(p)), Upload(NewThumbKey(p))];
          if !ok(upload[0]) || !ok(upload[1]) then (Failed, fetch + convert + upload)
          else
            var update := [UpdateKeys(p.id, NewWebKey(p), NewThumbKey(p))];
            if !ok(update[0]) then (Failed, fetch + convert + upload + update)
            else (Processed, fetch + convert + upload + update + [Delete(p.s3WebKey), Delete(p.s3ThumbnailKey)])
  }

  /** A WebP photo is skipped and nothing is done to it; any other photo
      is processed exactly when its row update succeeds. */
  lemma VisitOutcome(p: Photo, ok: Op -> bool)
    ensures Visit(p, ok).0 == Skipped <==> AlreadyWebp(p)
    ensures AlreadyWebp(p) ==> Visit(p, ok).1 == []
    ensures Visit(p, ok).0 == Processed <==>
              UpdateKeys(p.id, NewWebKey(p), NewThumbKey(p)) in Visit(p, ok).1
              && ok(UpdateKeys(p.id, NewWebKey(p), NewThumbKey(p)))
  {
  }

  /** The row is updated only after both uploads succeeded, and the old
      objects are deleted only after the row update succeeded. */
  lemma VisitOrdering(p: Photo, ok: Op -> bool)
    ensures var ops := Visit(p, ok).1;
            forall k :: 0 <= k < |ops| && ops[k].UpdateKeys? ==>
              k == 5 && ops[3] == Upload(NewWebKey(p)) && ops[4] == Upload(NewThumbKey(p))
              && ok(ops[3]) && ok(ops[4])
    ensures var ops := Visit(p, ok).1;
            forall k :: 0 <= k < |ops| && ops[k].Delete? ==>
              k >= 6 && ops[5] == UpdateKeys(p.id, NewWebKey(p), NewThumbKey(p)) && ok(ops[5])
  {
  }

  /** Whether deleting the old objects succeeds makes no difference to the
      outcome or to the operations attempted. */
  lemma DeleteFailuresSwallowed(p: Photo, ok: Op -> bool, ok': Op -> bool)
    requires forall op: Op :: !op.Delete? ==> ok(op) == ok'(op)
    ensures Visit(p, ok) == Visit(p, ok')
  {
  }

  /** The row of photo `id` pointed at its new web and thumbnail keys. */
  function WithNewKeys(ps: seq<Photo>, p: Photo): (r: seq<Photo>)
    ensures |r| == |ps|
    ensures forall i :: 0 <= i < |ps| && ps[i].id != p.id ==> r[i] == ps[i]
    ensures forall i :: 0 <= i < |ps| && ps[i].id == p.id ==>
              r[i] == ps[i].(s3WebKey := NewWebKey(p), s3ThumbnailKey := NewThumbKey(p))
  {
    seq(|ps|, i requires 0 <= i < |ps| =>
      if ps[i].id == p.id then ps[i].(s3WebKey := NewWebKey(p), s3ThumbnailKey := NewThumbKey(p)) else ps[i])
  }

  /** The rest of the batch from a given state: the table, the counters and
      the trace after visiting `visit` in order. */
  function RunFrom(table: seq<Photo>, visit: seq<Photo>, ok: Op -> bool, t: Tally, trace: seq<Op>)
    : (seq<Photo>, Tally, seq<Op>)
    decreases |visit|
  {
    if |visit| == 0 then (table, t, trace)
    else
      var (o, ops) := Visit(visit[0], ok);
      var table' := if o == Processed then WithNewKeys(table, visit[0]) else table;
      RunFrom(table', visit[1..], ok, Counted(t, o), trace + ops)
  }

  /** Each photo adds one to exactly one counter, so the counters add up
      to the number of photos visited. */
  lemma {:induction false} RunFromTotal(table: seq<Photo>, visit: seq<Photo>, ok: Op -> bool, t: Tally, trace: seq<Op>)
    ensures Total(RunFrom(table, visit, ok, t, trace).1) == Total(t) + |visit|
    decreases |visit|
  {
    if |visit| > 0 {
      var (o, ops) := Visit(visit[0], ok);
      var table' := if o == Processed then WithNewKeys(table, visit[0]) else table;
      RunFromTotal(table', visit[1..], ok, Counted(t, o), trace + ops);
    }
  }

  /** The batch never adds or removes rows and never changes an id. */
  lemma {:induction false} RunFromKeepsRows(table: seq<Photo>, visit: seq<Photo>, ok: Op -> bool, t: Tally, trace: seq<Op>)
    ensures var after := RunFrom(table, visit, ok, t, trace).0;
            |after| == |table| && forall i :: 0 <= i < |table| ==> after[i].id == table[i].id
    decreases |visit|
  {
    if |visit| > 0 {
      var (o, ops) := Visit(visit[0], ok);
      var table' := if o == Processed then WithNewKeys(table, visit[0]) else table;
      RunFromKeepsRows(table', visit[1..], ok, Counted(t, o), trace + ops);
    }
  }

  /** `ORDER BY uploaded_at ASC` */
  function OldestFirst(a: Photo, b: Photo): bool {
    a.uploadedAt <= b.uploadedAt
  }

  /** The photos in the order the batch visits them: oldest upload first,
      every photo once. */
  lemma VisitOrderIsOldestFirst(ps: seq<Photo>)
    ensures SortedBy(Sort(ps, OldestFirst), OldestFirst)
    ensures multiset(Sort(ps, OldestFirst)) == multiset(ps)
  {
    assert TotalPreorder(OldestFirst);
    SortSorted(ps, OldestFirst);
  }

  /** `backfillWebp`: visit every photo, oldest first, counting each as
      processed, skipped or failed. */
  method BackfillWebp(db: Db, ok: Op -> bool) returns (tally: Tally, trace: seq<Op>)
    modifies db
    ensures (db.photos, tally, trace) == RunFrom(old(db.photos), Sort(old(db.photos), OldestFirst), ok, Tally(0, 0, 0), [])
    ensures Total(tally) == |old(db.photos)|
    ensures db.galleries == old(db.galleries)
  {
    var photos := Sort(db.photos, OldestFirst);
    tally := Tally(0, 0, 0);
    trace := [];
    ghost var goal := RunFrom(db.photos, photos, ok, tally, trace);
    RunFromTotal(db.photos, photos, ok, tally, trace);
    for i := 0 to |photos|
      invariant RunFrom(db.photos, photos[i..], ok, tally, trace) == goal
      invariant db.galleries == old(db.galleries)
    {
      var p := photos[i];
      assert photos[i..][1..] == photos[i + 1..];
      var (o, ops) := Visit(p, ok);
      if o == Processed {
        db.photos := WithNewKeys(db.photos, p);
      }
      tally := Counted(tally, o);
      trace := trace + ops;
    }
  }
}
