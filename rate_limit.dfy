/** The in-memory fixed-window rate limiter: one entry per `ip:path` key
    holding a request count and the time its window ends. Requests over
    the limit are answered with 204 and not processed. */
module RateLimit {
  import opened Wrappers

  /** `trackingRateLimit = rateLimit(30, 60 * 1000)` */
  const TRACKING_MAX_REQUESTS: int := 30
  const TRACKING_WINDOW_MS: int := 60 * 1000
  const UNKNOWN_IP: string := "unknown"

  datatype RateEntry = RateEntry(count: int, resetTime: int)

  /** `Pass`: `next()` runs. `NoContent`: the response is 204 and `next`
      is not called. */
  datatype Verdict = Pass | NoContent

  /** `req.ip || req.socket.remoteAddress || 'unknown'`; an empty string is
      falsy and falls through like a missing value. */
  function ClientIp(ip: Option<string>, remote: Option<string>): (r: string)
    ensures r != ""
    ensures ip.Some? && ip.value != "" ==> r == ip.value
    ensures r == UNKNOWN_IP || (ip.Some? && r == ip.value) || (remote.Some? && r == remote.value)
    ensures r == UNKNOWN_IP <== (ip.None? || ip.value == "") && (remote.None? || remote.value == "")
  {
    if ip.Some? && ip.value != "" then ip.value
    else if remote.Some? && remote.value != "" then remote.value
    else UNKNOWN_IP
  }

  /** The store key `${ip}:${path}`. */
  function StoreKey(ip: string, path: string): (k: string)
    ensures |k| == |ip| + 1 + |path|
    ensures k[..|ip|] == ip && k[|ip|] == ':' && k[|ip| + 1..] == path
  {
    ip + ":" + path
  }

  /** The most requests a window lets through. */
  function Cap(maxRequests: int): (c: int)
    ensures c >= 1 && c >= maxRequests
  {
    if maxRequests < 1 then 1 else maxRequests
  }

  datatype Step = Step(entry: RateEntry, verdict: Verdict)

  /** One request against the entry stored for its key (`None` when there
      is none), at time `now`. */
  function Admit(entry: Option<RateEntry>, now: int, maxRequests: int, windowMs: int): (s: Step)
    // no entry, or a window that ended strictly before now: start a new one
    ensures entry.None? || now > entry.value.resetTime ==>
              s == Step(RateEntry(1, now + windowMs), Pass)
    // inside the window (its last instant included) and at the limit: refuse, entry unchanged
    ensures entry.Some? && now <= entry.value.resetTime && entry.value.count >= maxRequests ==>
              s == Step(entry.value, NoContent)
    // inside the window and under the limit: count this request
    ensures entry.Some? && now <= entry.value.resetTime && entry.value.count < maxRequests ==>
              s == Step(RateEntry(entry.value.count + 1, entry.value.resetTime), Pass)
  {
    match entry
    case None => Step(RateEntry(1, now + windowMs), Pass)
    case Some(e) =>
      if now > e.resetTime then Step(RateEntry(1, now + windowMs), Pass)
      else if e.count >= maxRequests then Step(e, NoContent)
      else Step(RateEntry(e.count + 1, e.resetTime), Pass)
  }

  /** The store invariant for one entry. */
  predicate Bounded(e: RateEntry, maxRequests: int) {
    1 <= e.count <= Cap(maxRequests)
  }

  /** Every request keeps its entry's count between 1 and the cap. */
  lemma AdmitKeepsBound(entry: Option<RateEntry>, now: int, maxRequests: int, windowMs: int)
    requires entry.Some? ==> Bounded(entry.value, maxRequests)
    ensures Bounded(Admit(entry, now, maxRequests, windowMs).entry, maxRequests)
  {
  }

  /** A window's end is still inside it: only a strictly later request
      starts a new window. */
  lemma ResetOnlyAfterWindow(e: RateEntry, now: int, maxRequests: int, windowMs: int)
    requires Bounded(e, maxRequests) && now <= e.resetTime
    ensures Admit(Some(e), now, maxRequests, windowMs).entry.resetTime == e.resetTime
    ensures Admit(Some(e), now, maxRequests, windowMs).entry.count >= e.count
  {
  }

  /** Feeding a sequence of request times for one key through `Admit`:
      the final entry and how many requests passed. */
  datatype RunResult = RunResult(entry: Option<RateEntry>, passed: nat)

  function Run(entry: Option<RateEntry>, times: seq<int>, maxRequests: int, windowMs: int): (r: RunResult)
    ensures r.passed <= |times|
    decreases |times|
  {
    if |times| == 0 then RunResult(entry, 0)
    else
      var s := Admit(entry, times[0], maxRequests, windowMs);
      var rest := Run(Some(s.entry), times[1..], maxRequests, windowMs);
      RunResult(rest.entry, rest.passed + if s.verdict == Pass then 1 else 0)
  }

  /** Within one open window, at most `Cap - count` more requests pass. */
  lemma {:induction false} RemainingInWindow(e: RateEntry, times: seq<int>, maxRequests: int, windowMs: int)
    requires Bounded(e, maxRequests)
    requires forall i :: 0 <= i < |times| ==> times[i] <= e.resetTime
    ensures Run(Some(e), times, maxRequests, windowMs).passed <= Cap(maxRequests) - e.count
    decreases |times|
  {
    if |times| > 0 {
      var s := Admit(Some(e), times[0], maxRequests, windowMs);
      assert s.entry.resetTime == e.resetTime;
      RemainingInWindow(s.entry, times[1..], maxRequests, windowMs);
    }
  }

  /** At most `max(maxRequests, 1)` requests for one key pass in a window:
      the first request opens it and every later one falls inside it. */
  lemma {:induction false} AtMostCapPerWindow(entry: Option<RateEntry>, times: seq<int>, maxRequests: int, windowMs: int)
    requires |times| > 0
    requires entry.None? || times[0] > entry.value.resetTime
    requires forall i :: 0 < i < |times| ==> times[i] <= times[0] + windowMs
    ensures Run(entry, times, maxRequests, windowMs).passed <= Cap(maxRequests)
  {
    var s := Admit(entry, times[0], maxRequests, windowMs);
    assert s.entry == RateEntry(1, times[0] + windowMs);
    var rest := times[1..];
    assert forall i :: 0 <= i < |rest| ==> rest[i] == times[i + 1];
    RemainingInWindow(s.entry, rest, maxRequests, windowMs);
  }

  /** Deleting an expired entry changes nothing a later request sees:
      such a request would have reset it anyway. */
  lemma SweptEntryIsUnobservable(e: RateEntry, sweptAt: int, now: int, maxRequests: int, windowMs: int)
    requires sweptAt > e.resetTime && now >= sweptAt
    ensures Admit(Some(e), now, maxRequests, windowMs) == Admit(None, now, maxRequests, windowMs)
  {
  }

  /** The entries a sweep at `now` keeps. */
  function Unexpired(entries: map<string, RateEntry>, now: int): (m: map<string, RateEntry>)
    ensures forall k :: k in m <==> k in entries && now <= entries[k].resetTime
    ensures forall k :: k in m ==> m[k] == entries[k]
  {
    map k | k in entries && now <= entries[k].resetTime :: entries[k]
  }

  /** The module-level `rateLimitStore`. */
  class RateLimitStore {
    var entries: map<string, RateEntry>

    ghost predicate Valid(maxRequests: int)
      reads this
    {
      forall k :: k in entries ==> Bounded(entries[k], maxRequests)
    }

    constructor ()
      ensures entries == map[] && Valid(TRACKING_MAX_REQUESTS)
    {
      entries := map[];
    }

    /** The decision and the update for one request with store key `key`. */
    method Limit(key: string, now: int, maxRequests: int, windowMs: int) returns (v: Verdict)
      modifies this
      ensures var s := Admit(if key in old(entries) then Some(old(entries)[key]) else None, now, maxRequests, windowMs);
              v == s.verdict && entries == old(entries)[key := s.entry]
      ensures forall k :: k != key ==> (k in entries <==> k in old(entries))
      ensures forall k :: k != key && k in entries ==> entries[k] == old(entries)[k]
      ensures Valid(maxRequests) <== old(Valid(maxRequests))
    {
      if key !in entries || now > entries[key].resetTime {
        entries := entries[key := RateEntry(1, now + windowMs)];
        return Pass;
      }
      var e := entries[key];
      if e.count >= maxRequests {
        return NoContent;
      }
      entries := entries[key := RateEntry(e.count + 1, e.resetTime)];
      return Pass;
    }

    /** The middleware returned by `rateLimit(maxRequests, windowMs)`. */
    method RateLimit(ip: Option<string>, remote: Option<string>, path: string, now: int,
                     maxRequests: int, windowMs: int) returns (v: Verdict)
      modifies this
      ensures var key := StoreKey(ClientIp(ip, remote), path);
              var s := Admit(if key in old(entries) then Some(old(entries)[key]) else None, now, maxRequests, windowMs);
              v == s.verdict && entries == old(entries)[key := s.entry]
      ensures Valid(maxRequests) <== old(Valid(maxRequests))
    {
      v := Limit(StoreKey(ClientIp(ip, remote), path), now, maxRequests, windowMs);
    }

    /** `trackingRateLimit`: 30 requests per minute per IP per path. */
    method TrackingRateLimit(ip: Option<string>, remote: Option<string>, path: string, now: int) returns (v: Verdict)
      modifies this
      ensures var key := StoreKey(ClientIp(ip, remote), path);
              var s := Admit(if key in old(entries) then Some(old(entries)[key]) else None, now,
                             TRACKING_MAX_REQUESTS, TRACKING_WINDOW_MS);
              v == s.verdict && entries == old(entries)[key := s.entry]
      ensures Valid(TRACKING_MAX_REQUESTS) <== old(Valid(TRACKING_MAX_REQUESTS))
    {
      v := RateLimit(ip, remote, path, now, TRACKING_MAX_REQUESTS, TRACKING_WINDOW_MS);
    }

    /** The periodic sweep: delete every entry with `now > resetTime`. */
    method Sweep(now: int)
      modifies this
      ensures entries == Unexpired(old(entries), now)
    {
      ghost var start := entries;
      var pending := entries.Keys;
      while pending != {}
        invariant pending <= start.Keys
        invariant forall k :: k in entries <==> k in start && (k in pending || now <= start[k].resetTime)
        invariant forall k :: k in entries ==> entries[k] == start[k]
        decreases pending
      {
        var k :| k in pending;
        if now > entries[k].resetTime {
          entries := entries - {k};
        }
        pending := pending - {k};
      }
    }
  }
}
