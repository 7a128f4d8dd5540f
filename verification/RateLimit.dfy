/** The sliding-window rate limiter: pruned buckets against the full history of requests. */
module RateLimit {
  import opened Model

  /** A served request: who asked, when, and whether it was let through. */
  datatype Hit = Hit(key: string, time: real, accepted: bool)

  /** The times a comprehension over the bucket keeps: those less than a window old. */
  function Prune(times: seq<real>, now: real, window: real): seq<real> {
    if times == [] then []
    else
      var n := |times| - 1;
      Prune(times[..n], now, window) + if now - times[n] < window then [times[n]] else []
  }

  /** All times at which the key was let through. */
  function Accepted(log: seq<Hit>, key: string): seq<real> {
    if log == [] then []
    else
      var n := |log| - 1;
      Accepted(log[..n], key) + if log[n].key == key && log[n].accepted then [log[n].time] else []
  }

  /** The times in `[from, until)`. */
  function CountWithin(times: seq<real>, from: real, until: real): nat {
    if times == [] then 0
    else
      var n := |times| - 1;
      CountWithin(times[..n], from, until) + if from <= times[n] < until then 1 else 0
  }

  /** The full-history rule: let through iff fewer than the maximum were let through in the preceding window. */
  predicate Admits(log: seq<Hit>, key: string, now: real, maxRequests: int, window: real) {
    |Prune(Accepted(log, key), now, window)| < maxRequests
  }

  /** A history on a monotone clock in which every decision followed the full-history rule. */
  ghost predicate Ruled(log: seq<Hit>, maxRequests: int, window: real) {
    log != [] ==>
      var n := |log| - 1;
      && Ruled(log[..n], maxRequests, window)
      && (forall i :: 0 <= i < n ==> log[i].time <= log[n].time)
      && (log[n].accepted <==> Admits(log[..n], log[n].key, log[n].time, maxRequests, window))
  }

  lemma {:induction false} AcceptedNotLater(log: seq<Hit>, key: string, now: real)
    requires forall i :: 0 <= i < |log| ==> log[i].time <= now
    ensures forall i :: 0 <= i < |Accepted(log, key)| ==> Accepted(log, key)[i] <= now
  {
    if log == [] {
    } else {
      AcceptedNotLater(log[..|log| - 1], key, now);
    }
  }

  /** What an interval shorter than the window holds survives pruning. */
  lemma {:induction false} PruneKeepsWindow(times: seq<real>, now: real, window: real, from: real, until: real)
    requires now - from < window
    ensures CountWithin(times, from, until) <= |Prune(times, now, window)|
  {
    if times == [] {
    } else {
      PruneKeepsWindow(times[..|times| - 1], now, window, from, until);
    }
  }

  /** Never more than the maximum in any half-open stretch as long as the window. */
  lemma {:induction false} WindowBound(log: seq<Hit>, key: string, maxRequests: int, window: real, from: real)
    requires Ruled(log, maxRequests, window)
    ensures CountWithin(Accepted(log, key), from, from + window) <= Max(maxRequests, 0)
  {
    if log == [] {
    } else {
      var n := |log| - 1;
      WindowBound(log[..n], key, maxRequests, window, from);
      var before, hit := Accepted(log[..n], key), log[n];
      if hit.key == key && hit.accepted {
        assert Accepted(log, key)[..|before|] == before;
        if from <= hit.time < from + window {
          PruneKeepsWindow(before, hit.time, window, from, from + window);
        }
      } else {
        assert Accepted(log, key) == before;
      }
    }
  }

  /** An empty window keeps nothing. */
  lemma {:induction false} PruneAll(times: seq<real>, now: real, window: real)
    requires window <= 0.0 && forall i :: 0 <= i < |times| ==> times[i] <= now
    ensures Prune(times, now, window) == []
  {
    if times == [] {
    } else {
      PruneAll(times[..|times| - 1], now, window);
    }
  }

  lemma {:induction false} AllWithin(times: seq<real>, now: real, window: real, from: real, until: real)
    requires forall i :: 0 <= i < |times| && now - times[i] < window ==> from <= times[i] < until
    ensures |Prune(times, now, window)| <= CountWithin(times, from, until)
  {
    if times == [] {
    } else {
      AllWithin(times[..|times| - 1], now, window, from, until);
    }
  }

  lemma {:induction false} OldestRecent(times: seq<real>, now: real, window: real) returns (from: real)
    requires forall i :: 0 <= i < |times| ==> times[i] <= now
    requires window > 0.0
    ensures now - from < window && from <= now
    ensures forall i :: 0 <= i < |times| && now - times[i] < window ==> from <= times[i]
  {
    if times == [] {
      from := now;
    } else {
      var n := |times| - 1;
      from := OldestRecent(times[..n], now, window);
      if now - times[n] < window && times[n] < from {
        from := times[n];
      }
    }
  }

  lemma PruneAppend(times: seq<real>, time: real, now: real, window: real)
    ensures Prune(times + [time], now, window) == Prune(times, now, window) + if now - time < window then [time] else []
  {
  }

  lemma AcceptedAppend(log: seq<Hit>, hit: Hit, key: string)
    ensures Accepted(log + [hit], key) == Accepted(log, key) + if hit.key == key && hit.accepted then [hit.time] else []
  {
    assert (log + [hit])[..|log|] == log;
  }

  /** The requests of the key that were let through less than a window before `now`. */
  function Recent(log: seq<Hit>, key: string, now: real, window: real): set<nat> {
    set i: nat | i < |log| && log[i].key == key && log[i].accepted && now - log[i].time < window
  }

  lemma OneHitMoreRecent(log: seq<Hit>, hit: Hit, key: string, now: real, window: real)
    ensures |Recent(log + [hit], key, now, window)| ==
      |Recent(log, key, now, window)| + if hit.key == key && hit.accepted && now - hit.time < window then 1 else 0
  {
    var n: nat, before, more := |log|, Recent(log, key, now, window), Recent(log + [hit], key, now, window);
    assert n !in before;
    assert more == before + if hit.key == key && hit.accepted && now - hit.time < window then {n} else {};
  }

  /** Pruning the key's history keeps as many times as there are recent requests. */
  lemma {:induction false} PruneCountsRecent(log: seq<Hit>, key: string, now: real, window: real)
    ensures |Prune(Accepted(log, key), now, window)| == |Recent(log, key, now, window)|
  {
    if log == [] {
    } else {
      var n := |log| - 1;
      var hit, before := log[n], log[..n];
      PruneCountsRecent(before, key, now, window);
      OneHitMoreRecent(before, hit, key, now, window);
      AcceptedAppend(before, hit, key);
      assert log == before + [hit];
      if hit.key == key && hit.accepted {
        PruneAppend(Accepted(before, key), hit.time, now, window);
      } else {
        assert Accepted(log, key) == Accepted(before, key);
      }
    }
  }

  /** A request is turned away exactly when the maximum number was let through in the window before it. */
  lemma RejectedIffFull(log: seq<Hit>, key: string, now: real, maxRequests: int, window: real)
    requires Ruled(log, maxRequests, window) && maxRequests >= 0
    requires forall i :: 0 <= i < |log| ==> log[i].time <= now
    ensures !Admits(log, key, now, maxRequests, window) <==> |Recent(log, key, now, window)| == maxRequests
  {
    var times := Accepted(log, key);
    AcceptedNotLater(log, key, now);
    PruneCountsRecent(log, key, now, window);
    if window <= 0.0 {
      PruneAll(times, now, window);
    } else {
      var from := OldestRecent(times, now, window);
      AllWithin(times, now, window, from, from + window);
      WindowBound(log, key, maxRequests, window, from);
    }
  }

  /******* The bucket and the history *******/

  /** What was pruned once stays out later on a monotone clock. */
  lemma {:induction false} PruneTwice(times: seq<real>, first: real, second: real, window: real)
    requires first <= second
    ensures Prune(Prune(times, first, window), second, window) == Prune(times, second, window)
  {
    if times == [] {
    } else {
      var n := |times| - 1;
      PruneTwice(times[..n], first, second, window);
      if first - times[n] < window {
        var kept := Prune(times[..n], first, window);
        assert (kept + [times[n]])[..|kept|] == kept;
      } else {
        assert Prune(times, first, window) == Prune(times[..n], first, window);
      }
    }
  }

  lemma RuledAfter(log: seq<Hit>, hit: Hit, maxRequests: int, window: real)
    requires Ruled(log, maxRequests, window)
    requires forall i :: 0 <= i < |log| ==> log[i].time <= hit.time
    requires hit.accepted <==> Admits(log, hit.key, hit.time, maxRequests, window)
    ensures Ruled(log + [hit], maxRequests, window)
  {
  }

  /** The bucket a dictionary with empty lists as defaults holds under a key. */
  function BucketIn(buckets: map<string, seq<real>>, key: string): seq<real> {
    if key in buckets then buckets[key] else []
  }

  /** From `now` on, pruning a bucket gives what pruning the full history of its key gives. */
  ghost predicate Mirrors(buckets: map<string, seq<real>>, log: seq<Hit>, now: real, window: real) {
    forall key, time :: now <= time ==> Prune(BucketIn(buckets, key), time, window) == Prune(Accepted(log, key), time, window)
  }

  /** The bucket of the served key, pruned and extended, still stands for the key's history. */
  lemma ServedKeyMirrors(bucket: seq<real>, before: seq<real>, hit: Hit, time: real, window: real)
    requires hit.time <= time && Prune(bucket, time, window) == Prune(before, time, window)
    ensures var accepted := if hit.accepted then [hit.time] else [];
      Prune(Prune(bucket, hit.time, window) + accepted, time, window) == Prune(before + accepted, time, window)
  {
    PruneTwice(bucket, hit.time, time, window);
    if hit.accepted {
      PruneAppend(Prune(bucket, hit.time, window), hit.time, time, window);
      PruneAppend(before, hit.time, time, window);
    } else {
      assert before + [] == before && Prune(bucket, hit.time, window) + [] == Prune(bucket, hit.time, window);
    }
  }

  lemma MirrorsAfter(buckets: map<string, seq<real>>, log: seq<Hit>, hit: Hit, now: real, window: real)
    requires Mirrors(buckets, log, now, window) && now <= hit.time
    ensures Mirrors(buckets[hit.key := Prune(BucketIn(buckets, hit.key), hit.time, window) + if hit.accepted then [hit.time] else []],
                    log + [hit], hit.time, window)
  {
    var bucket := BucketIn(buckets, hit.key);
    var bucket' := Prune(bucket, hit.time, window) + if hit.accepted then [hit.time] else [];
    forall key, time | hit.time <= time
      ensures Prune(if key == hit.key then bucket' else BucketIn(buckets, key), time, window) == Prune(Accepted(log + [hit], key), time, window)
    {
      AcceptedAppend(log, hit, key);
      if key == hit.key {
        ServedKeyMirrors(bucket, Accepted(log, key), hit, time, window);
      } else {
        assert Accepted(log + [hit], key) == Accepted(log, key);
      }
    }
  }

  /** The bucket key of a request: a non-empty authorization header, else the client address, else "unknown". */
  function KeyOf(authorization: Option<string>, host: Option<string>): (key: string)
    ensures authorization.Some? && |authorization.value| > 0 ==> key == authorization.value
    ensures authorization == None || authorization == Some("") ==> host == Some(key) || (host == None && key == "unknown")
  {
    if authorization.Some? && authorization.value != "" then authorization.value else host.GetOr("unknown")
  }

  class Limiter {
    const maxRequests: int
    const window: real
    var buckets: map<string, seq<real>>
    ghost var clock: real
    ghost var log: seq<Hit>

    ghost predicate Valid()
      reads this
    {
      && Ruled(log, maxRequests, window)
      && (forall i :: 0 <= i < |log| ==> log[i].time <= clock)
      && Mirrors(buckets, log, clock, window)
    }

    constructor (maxRequests: int, window: real, now: real)
      ensures Valid() && log == [] && clock == now
      ensures this.maxRequests == maxRequests && this.window == window
    {
      this.maxRequests, this.window := maxRequests, window;
      buckets, log, clock := map[], [], now;
    }

    /** The comprehension that prunes a bucket. */
    method Pruned(bucket: seq<real>, now: real) returns (kept: seq<real>)
      ensures kept == Prune(bucket, now, window)
    {
      kept := [];
      for k := 0 to |bucket|
        invariant kept == Prune(bucket[..k], now, window)
      {
        assert bucket[..k + 1][..k] == bucket[..k];
        if now - bucket[k] < window {
          kept := kept + [bucket[k]];
        }
      }
      assert bucket[..|bucket|] == bucket;
    }

    /** Serves one request: its decision is the one the full history gives. */
    method Admit(authorization: Option<string>, host: Option<string>, now: real) returns (ok: bool)
      requires Valid() && clock <= now
      modifies this
      ensures Valid() && clock == now && log == old(log) + [Hit(KeyOf(authorization, host), now, ok)]
      ensures ok <==> Admits(old(log), KeyOf(authorization, host), now, maxRequests, window)
      ensures ok <==> |Recent(old(log), KeyOf(authorization, host), now, window)| < maxRequests
    {
      var key := KeyOf(authorization, host);
      PruneCountsRecent(log, key, now, window);
      var bucket := Pruned(BucketIn(buckets, key), now);
      ok := |bucket| < maxRequests;
      ghost var hit := Hit(key, now, ok);
      MirrorsAfter(buckets, log, hit, clock, window);
      RuledAfter(log, hit, maxRequests, window);
      if ok {
        bucket := bucket + [now];
      }
      assert bucket == Prune(BucketIn(buckets, key), now, window) + if ok then [now] else [];
      buckets := buckets[key := bucket];
      log, clock := log + [hit], now;
    }
  }
}
