/** The admin dashboard's analytics: daily series with the missing days
    filled in, and the most viewed galleries and photos. Dates are day
    numbers; `today` is the day the request is served. */
module Analytics {
  import opened Schema
  import opened Sequences

  /** One point of a daily series (`{ date, views }` or `{ date, count }`),
      and one row of the grouped `DATE(...) / COUNT(*)` query. */
  datatype DayCount = DayCount(day: int, count: int)

  const DASHBOARD_DAYS: int := 30
  const DASHBOARD_TOP: nat := 5

  /** `new Map(rows.map(row => [row.date, row.count]))`: a later row with
      the same day replaces an earlier one. */
  function RowsToMap(rows: seq<DayCount>): (m: map<int, int>)
    ensures forall d :: d in m <==> exists i :: 0 <= i < |rows| && rows[i].day == d
  {
    if |rows| == 0 then map[]
    else
      var init := rows[..|rows| - 1];
      var last := rows[|rows| - 1];
      var m := RowsToMap(init);
      assert forall i :: 0 <= i < |init| ==> init[i] == rows[i];
      m[last.day := last.count]
  }

  /** The count of a day is the count of the last row for that day. */
  lemma {:induction false} RowsToMapLastWins(rows: seq<DayCount>, i: int)
    requires 0 <= i < |rows|
    requires forall j :: i < j < |rows| ==> rows[j].day != rows[i].day
    ensures RowsToMap(rows)[rows[i].day] == rows[i].count
  {
    if i < |rows| - 1 {
      var init := rows[..|rows| - 1];
      assert init[i] == rows[i];
      RowsToMapLastWins(init, i);
    }
  }

  /** `viewsByDate.get(dateStr) || 0` */
  function CountOn(byDay: map<int, int>, d: int): int {
    if d in byDay then byDay[d] else 0
  }

  /** Entry `k` of a `days`-long series ending today. */
  function DayEntry(byDay: map<int, int>, today: int, days: int, k: int): DayCount {
    var d := today - (days - 1 - k);
    DayCount(d, CountOn(byDay, d))
  }

  /** The filled series, stated as a whole. */
  function DailySeries(byDay: map<int, int>, today: int, days: int): seq<DayCount> {
    seq(if days > 0 then days else 0, k => DayEntry(byDay, today, days, k))
  }

  /** The gap-filling loop of `getViewsOverTime` and `getUploadActivity`:
      `for (i = days - 1; i >= 0; i--)` pushes the day `today - i`. */
  method FillDays(byDay: map<int, int>, today: int, days: int) returns (series: seq<DayCount>)
    ensures series == DailySeries(byDay, today, days)
  {
    series := [];
    var i := days - 1;
    while i >= 0
      invariant i <= days - 1 && (days > 0 ==> i >= -1) && (days <= 0 ==> i == days - 1)
      invariant |series| == days - 1 - i
      invariant forall k :: 0 <= k < |series| ==> series[k] == DayEntry(byDay, today, days, k)
    {
      series := series + [DayCount(today - i, CountOn(byDay, today - i))];
      i := i - 1;
    }
    assert |series| == |DailySeries(byDay, today, days)|;
  }

  /** The days a `days`-long window ending today covers. */
  predicate InWindow(today: int, days: int, d: int) {
    today - days < d <= today
  }

  /** A series has `days` entries (none for `days <= 0`), one per day,
      ascending without gaps and ending today. */
  lemma DailySeriesDays(byDay: map<int, int>, today: int, days: int)
    ensures var s := DailySeries(byDay, today, days);
            && |s| == (if days > 0 then days else 0)
            && (|s| > 0 ==> s[|s| - 1].day == today && s[0].day == today - days + 1)
            && (forall k :: 0 <= k < |s| - 1 ==> s[k + 1].day == s[k].day + 1)
            && (forall k :: 0 <= k < |s| ==> InWindow(today, days, s[k].day))
  {
  }

  /** Every day of the window is in the series with the count of its row,
      or 0 when no row has that day; a row for a day outside the window
      never shows. */
  lemma DailySeriesCounts(rows: seq<DayCount>, today: int, days: int)
    ensures var s := DailySeries(RowsToMap(rows), today, days);
            && (forall k :: 0 <= k < |s| ==>
                  (s[k].count == 0 || exists i :: 0 <= i < |rows| && rows[i].day == s[k].day))
            && (forall d :: InWindow(today, days, d) ==>
                  0 <= d - (today - days + 1) < |s| && s[d - (today - days + 1)].day == d)
            && (forall i :: 0 <= i < |rows| && !InWindow(today, days, rows[i].day) ==>
                  forall k :: 0 <= k < |s| ==> s[k].day != rows[i].day)
  {
  }

  /** A day of the window that has a row shows that row's count (the last
      row, should the query return the day twice). */
  lemma DailySeriesShowsRow(rows: seq<DayCount>, today: int, days: int, i: int)
    requires 0 <= i < |rows| && InWindow(today, days, rows[i].day)
    requires forall j :: i < j < |rows| ==> rows[j].day != rows[i].day
    ensures var s := DailySeries(RowsToMap(rows), today, days);
            var k := rows[i].day - (today - days + 1);
            0 <= k < |s| && s[k] == rows[i]
  {
    RowsToMapLastWins(rows, i);
  }

  /** `getViewsOverTime(days)` on the grouped query's rows. */
  method ViewsOverTime(rows: seq<DayCount>, today: int, days: int) returns (series: seq<DayCount>)
    ensures series == DailySeries(RowsToMap(rows), today, days)
  {
    series := FillDays(RowsToMap(rows), today, days);
  }

  /** `getUploadActivity(days)` on the grouped query's rows. */
  method UploadActivity(rows: seq<DayCount>, today: int, days: int) returns (series: seq<DayCount>)
    ensures series == DailySeries(RowsToMap(rows), today, days)
  {
    series := FillDays(RowsToMap(rows), today, days);
  }

  /** A row of `getTopGalleries`. */
  datatype TopGallery = TopGallery(id: string, title: string, slug: string, viewCount: int)

  function GalleryRow(g: Gallery): TopGallery {
    TopGallery(g.id, g.title, g.slug, g.viewCount)
  }

  /** `ORDER BY view_count DESC` */
  function MostViewedGallery(a: TopGallery, b: TopGallery): bool {
    a.viewCount >= b.viewCount
  }

  /** `getTopGalleries(limit)` */
  function TopGalleries(gs: seq<Gallery>, limit: nat): seq<TopGallery> {
    var rows := seq(|gs|, i requires 0 <= i < |gs| => GalleryRow(gs[i]));
    Take(Sort(rows, MostViewedGallery), limit)
  }

  /** The first `limit` entries of a sorted permutation are a top list:
      sorted, and no entry left out ranks above one that was kept. */
  lemma TakeSortedIsTop<T(!new)>(rows: seq<T>, le: (T, T) -> bool, limit: nat)
    requires TotalPreorder(le)
    ensures var r := Take(Sort(rows, le), limit);
            && |r| == (if limit < |rows| then limit else |rows|)
            && SortedBy(r, le)
            && multiset(r) <= multiset(rows)
            && (forall x :: x in multiset(rows) - multiset(r) ==> forall i :: 0 <= i < |r| ==> le(r[i], x))
  {
    var s := Sort(rows, le);
    var r := Take(s, limit);
    SortSorted(rows, le);
    var rest := s[|r|..];
    assert s == r + rest;
    assert multiset(s) == multiset(r) + multiset(rest);
    forall x | x in multiset(rows) - multiset(r)
      ensures forall i :: 0 <= i < |r| ==> le(r[i], x)
    {
      assert x in multiset(rest);
      var j :| 0 <= j < |rest| && rest[j] == x;
      assert s[|r| + j] == x;
    }
  }

  /** The top galleries are at most `limit` of the galleries, most viewed
      first, and every gallery left out has no more views than every one
      listed. */
  lemma TopGalleriesSpec(gs: seq<Gallery>, limit: nat)
    ensures var r := TopGalleries(gs, limit);
            var rows := seq(|gs|, i requires 0 <= i < |gs| => GalleryRow(gs[i]));
            && |r| == (if limit < |gs| then limit else |gs|)
            && SortedBy(r, MostViewedGallery)
            && multiset(r) <= multiset(rows)
            && (forall x :: x in multiset(rows) - multiset(r) ==>
                  forall i :: 0 <= i < |r| ==> x.viewCount <= r[i].viewCount)
  {
    var rows := seq(|gs|, i requires 0 <= i < |gs| => GalleryRow(gs[i]));
    assert TotalPreorder(MostViewedGallery);
    TakeSortedIsTop(rows, MostViewedGallery, limit);
  }

  /** A row of `getTopPhotos`: the photo with its gallery's title. */
  datatype TopPhoto = TopPhoto(
    id: string,
    filename: string,
    galleryId: string,
    galleryTitle: string,
    thumbnailKey: string,
    viewCount: int,
    downloadCount: int)

  function PhotoRow(p: Photo, g: Gallery): TopPhoto {
    TopPhoto(p.id, p.originalFilename, p.galleryId, g.title, p.s3ThumbnailKey, p.viewCount, p.downloadCount)
  }

  /** `x` is the joined row of photo `p` and its gallery `g`. */
  predicate RowOf(x: TopPhoto, p: Photo, g: Gallery) {
    g.id == p.galleryId && x == PhotoRow(p, g)
  }

  /** The rows one photo contributes to `photos p JOIN galleries g ON
      p.gallery_id = g.id`. */
  function PhotoJoinRows(p: Photo, gs: seq<Gallery>): (r: seq<TopPhoto>)
    ensures forall k :: 0 <= k < |r| ==> exists j :: 0 <= j < |gs| && RowOf(r[k], p, gs[j])
  {
    if |gs| == 0 then []
    else
      var rest := PhotoJoinRows(p, gs[1..]);
      assert forall k :: 0 <= k < |rest| ==> exists j :: 0 <= j < |gs| && RowOf(rest[k], p, gs[j]) by {
        forall k | 0 <= k < |rest|
          ensures exists j :: 0 <= j < |gs| && RowOf(rest[k], p, gs[j])
        {
          var j :| 0 <= j < |gs[1..]| && RowOf(rest[k], p, gs[1..][j]);
          assert gs[1..][j] == gs[j + 1];
        }
      }
      var head := if gs[0].id == p.galleryId then [PhotoRow(p, gs[0])] else [];
      var r := head + rest;
      assert forall k :: 0 <= k < |r| ==> exists j :: 0 <= j < |gs| && RowOf(r[k], p, gs[j]) by {
        forall k | 0 <= k < |r|
          ensures exists j :: 0 <= j < |gs| && RowOf(r[k], p, gs[j])
        {
          if k < |head| {
            assert r[k] == PhotoRow(p, gs[0]);
          } else {
            assert r[k] == rest[k - |head|];
          }
        }
      }
      r
  }

  function PhotoJoin(ps: seq<Photo>, gs: seq<Gallery>): seq<TopPhoto> {
    if |ps| == 0 then [] else PhotoJoinRows(ps[0], gs) + PhotoJoin(ps[1..], gs)
  }

  /** An inner join: every row pairs a photo with its own gallery, so a
      photo whose gallery is missing is never listed. */
  lemma {:induction false} PhotoJoinSound(ps: seq<Photo>, gs: seq<Gallery>, x: TopPhoto)
    requires x in PhotoJoin(ps, gs)
    ensures JoinedRow(x, ps, gs)
  {
    var m := PhotoJoinRows(ps[0], gs);
    if x in m {
      var k :| 0 <= k < |m| && m[k] == x;
      var j :| 0 <= j < |gs| && RowOf(m[k], ps[0], gs[j]);
    } else {
      PhotoJoinSound(ps[1..], gs, x);
      var i, j :| 0 <= i < |ps[1..]| && 0 <= j < |gs| && RowOf(x, ps[1..][i], gs[j]);
      assert ps[1..][i] == ps[i + 1];
    }
  }

  lemma {:induction false} PhotoJoinRowsComplete(p: Photo, gs: seq<Gallery>, j: int)
    requires 0 <= j < |gs| && gs[j].id == p.galleryId
    ensures PhotoRow(p, gs[j]) in PhotoJoinRows(p, gs)
  {
    if j > 0 {
      PhotoJoinRowsComplete(p, gs[1..], j - 1);
      assert gs[1..][j - 1] == gs[j];
    }
  }

  /** The join loses nothing: every photo whose gallery exists gives its
      row. */
  lemma {:induction false} PhotoJoinComplete(ps: seq<Photo>, gs: seq<Gallery>, i: int, j: int)
    requires 0 <= i < |ps| && 0 <= j < |gs| && gs[j].id == ps[i].galleryId
    ensures PhotoRow(ps[i], gs[j]) in PhotoJoin(ps, gs)
  {
    if i == 0 {
      PhotoJoinRowsComplete(ps[0], gs, j);
    } else {
      PhotoJoinComplete(ps[1..], gs, i - 1, j);
      assert ps[1..][i - 1] == ps[i];
    }
  }

  /** `x` is the joined row of some photo and its gallery. */
  ghost predicate JoinedRow(x: TopPhoto, ps: seq<Photo>, gs: seq<Gallery>) {
    exists i, j :: 0 <= i < |ps| && 0 <= j < |gs| && RowOf(x, ps[i], gs[j])
  }

  /** `ORDER BY p.view_count DESC` */
  function MostViewedPhoto(a: TopPhoto, b: TopPhoto): bool {
    a.viewCount >= b.viewCount
  }

  /** `getTopPhotos(limit)` */
  function TopPhotos(ps: seq<Photo>, gs: seq<Gallery>, limit: nat): seq<TopPhoto> {
    Take(Sort(PhotoJoin(ps, gs), MostViewedPhoto), limit)
  }

  /** Every listed top photo is a joined row: a photo of an existing
      gallery, carrying that gallery's title. */
  lemma TopPhotosAreJoinedRows(ps: seq<Photo>, gs: seq<Gallery>, limit: nat)
    ensures var r := TopPhotos(ps, gs, limit);
            forall k :: 0 <= k < |r| ==> JoinedRow(r[k], ps, gs)
  {
    var rows := PhotoJoin(ps, gs);
    var s := Sort(rows, MostViewedPhoto);
    var r := TopPhotos(ps, gs, limit);
    forall k | 0 <= k < |r|
      ensures JoinedRow(r[k], ps, gs)
    {
      assert r[k] == s[k];
      InMultiset(s[k], s, rows);
      PhotoJoinSound(ps, gs, r[k]);
    }
  }

  /** The top photos are `limit` joined rows, or all of them when there
      are fewer, most viewed first, and no joined row left out has more
      views than one listed. */
  lemma TopPhotosSpec(ps: seq<Photo>, gs: seq<Gallery>, limit: nat)
    ensures var r := TopPhotos(ps, gs, limit);
            var rows := PhotoJoin(ps, gs);
            && |r| == (if limit < |rows| then limit else |rows|)
            && SortedBy(r, MostViewedPhoto)
            && multiset(r) <= multiset(rows)
            && (|rows| <= limit ==> multiset(r) == multiset(rows))
            && (forall x :: x in multiset(rows) - multiset(r) ==>
                  forall i :: 0 <= i < |r| ==> x.viewCount <= r[i].viewCount)
  {
    assert TotalPreorder(MostViewedPhoto);
    TakeSortedIsTop(PhotoJoin(ps, gs), MostViewedPhoto, limit);
  }

  /** A photo of an existing gallery makes the list non-empty, and is
      listed itself when the join has no more than `limit` rows. */
  lemma TopPhotosListJoinedPhoto(ps: seq<Photo>, gs: seq<Gallery>, limit: nat, i: int, j: int)
    requires 0 <= i < |ps| && 0 <= j < |gs| && gs[j].id == ps[i].galleryId
    ensures var r := TopPhotos(ps, gs, limit);
            && (limit > 0 ==> |r| > 0)
            && (|PhotoJoin(ps, gs)| <= limit ==> PhotoRow(ps[i], gs[j]) in r)
  {
    var rows := PhotoJoin(ps, gs);
    var r := TopPhotos(ps, gs, limit);
    PhotoJoinComplete(ps, gs, i, j);
    TopPhotosSpec(ps, gs, limit);
    if |rows| <= limit {
      InMultiset(PhotoRow(ps[i], gs[j]), r, rows);
    }
  }

  /** What `getAllAnalytics` returns, storage figures aside. */
  datatype AnalyticsData = AnalyticsData(
    viewsOverTime: seq<DayCount>,
    uploadActivity: seq<DayCount>,
    topGalleries: seq<TopGallery>,
    topPhotos: seq<TopPhoto>)

  /** `getAllAnalytics`: a 30-day window and the top 5. */
  method GetAllAnalytics(viewRows: seq<DayCount>, uploadRows: seq<DayCount>, gs: seq<Gallery>, ps: seq<Photo>, today: int)
    returns (a: AnalyticsData)
    ensures a.viewsOverTime == DailySeries(RowsToMap(viewRows), today, DASHBOARD_DAYS)
    ensures a.uploadActivity == DailySeries(RowsToMap(uploadRows), today, DASHBOARD_DAYS)
    ensures |a.viewsOverTime| == 30 && |a.uploadActivity| == 30
    ensures a.topGalleries == TopGalleries(gs, DASHBOARD_TOP) && |a.topGalleries| <= 5
    ensures a.topPhotos == TopPhotos(ps, gs, DASHBOARD_TOP) && |a.topPhotos| <= 5
  {
    var views := ViewsOverTime(viewRows, today, DASHBOARD_DAYS);
    var uploads := UploadActivity(uploadRows, today, DASHBOARD_DAYS);
    a := AnalyticsData(views, uploads, TopGalleries(gs, DASHBOARD_TOP), TopPhotos(ps, gs, DASHBOARD_TOP));
  }
}
