/**
 The TTL cache under overlapping requests. A miss suspends in its factory and stores when that finishes,
 so any number of misses, stores and deletions interleave.
 */
module TtlCache {
  import opened Model

  /** A factory call: what it fetches, for how long the value is to live, and when the lookup began. */
  datatype Call = Call(key: string, ttl: real, began: real)

  /** What happened to the cache. The position of a `Missed` event names its call. */
  datatype Event<V> =
    | Hit(key: string, time: real, value: V)
    | Missed(call: Call)
    | Stored(origin: nat, value: V)
    | Deleted(key: string)
    | Invalidated(prefix: Option<string>)

  predicate Matches(prefix: Option<string>, key: string) {
    prefix.None? || prefix.value <= key
  }

  predicate Clears<V>(e: Event<V>, key: string) {
    (e.Deleted? && e.key == key) || (e.Invalidated? && Matches(e.prefix, key))
  }

  predicate IsCall<V>(log: seq<Event<V>>, id: nat) {
    id < |log| && log[id].Missed?
  }

  /** The event at `k` stores a value for the key. */
  predicate StoresFor<V>(log: seq<Event<V>>, key: string, k: nat) {
    k < |log| && log[k].Stored? && IsCall(log, log[k].origin) && log[k].origin < k && log[log[k].origin].call.key == key
  }

  /** The store at `k` is the key's last one before `n`, and nothing has cleared it. */
  ghost predicate LiveAt<V>(log: seq<Event<V>>, key: string, k: nat, n: nat) {
    && k < n <= |log| && StoresFor(log, key, k)
    && forall j: nat :: k < j < n ==> !Clears(log[j], key) && !StoresFor(log, key, j)
  }

  /** The call whose factory made the value stored at `k`. */
  function CallOf<V>(log: seq<Event<V>>, key: string, k: nat): Call
    requires StoresFor(log, key, k)
  {
    log[log[k].origin].call
  }

  /** The hit at `n` returns the live value of its key, whose factory call began less than its ttl before. */
  ghost predicate HitIsFresh<V>(log: seq<Event<V>>, n: nat)
    requires n < |log| && log[n].Hit?
  {
    exists k: nat :: LiveAt(log, log[n].key, k, n) && log[k].value == log[n].value
                     && log[n].time < CallOf(log, log[n].key, k).began + CallOf(log, log[n].key, k).ttl
  }

  ghost predicate HitsAreFresh<V>(log: seq<Event<V>>) {
    forall n: nat :: n < |log| && log[n].Hit? ==> HitIsFresh(log, n)
  }

  /** The call has not stored its value yet. */
  ghost predicate Pending<V>(log: seq<Event<V>>, id: nat) {
    IsCall(log, id) && forall k: nat :: k < |log| && log[k].Stored? ==> log[k].origin != id
  }

  /** Only calls store, after they began, and each at most once. */
  ghost predicate StoresOnce<V>(log: seq<Event<V>>) {
    && (forall k: nat :: k < |log| && log[k].Stored? ==> IsCall(log, log[k].origin) && log[k].origin < k)
    && (forall j: nat, k: nat :: j < k < |log| && log[j].Stored? && log[k].Stored? ==> log[j].origin != log[k].origin)
  }

  /** The reading of the monotonic clock an event goes with. */
  function TimeOf<V>(e: Event<V>): Option<real> {
    match e
    case Hit(_, time, _) => Some(time)
    case Missed(call) => Some(call.began)
    case _ => None
  }

  /** No event went with a later reading. */
  ghost predicate NotBefore<V>(log: seq<Event<V>>, now: real) {
    forall k: nat :: k < |log| && TimeOf(log[k]).Some? ==> TimeOf(log[k]).value <= now
  }

  ghost predicate Timely<V>(log: seq<Event<V>>) {
    forall j: nat, k: nat :: j < k < |log| && TimeOf(log[j]).Some? && TimeOf(log[k]).Some? ==>
      TimeOf(log[j]).value <= TimeOf(log[k]).value
  }

  /** What can have happened to a cache. */
  ghost predicate History<V>(log: seq<Event<V>>) {
    HitsAreFresh(log) && StoresOnce(log) && Timely(log)
  }

  ghost predicate MayFollow<V>(log: seq<Event<V>>, e: Event<V>) {
    && (e.Hit? ==> HitIsFresh(log + [e], |log|))
    && (e.Stored? ==> Pending(log, e.origin))
    && (TimeOf(e).Some? ==> NotBefore(log, TimeOf(e).value))
  }

  /** What was stored for the key and has been cleared since. */
  ghost predicate Absent<V>(log: seq<Event<V>>, key: string) {
    forall k: nat :: StoresFor(log, key, k) ==> exists j: nat :: k < j < |log| && Clears(log[j], key)
  }

  lemma AppendKeepsStores<V>(log: seq<Event<V>>, e: Event<V>, key: string, k: nat)
    requires k < |log|
    ensures StoresFor(log + [e], key, k) <==> StoresFor(log, key, k)
  {
  }

  lemma AppendKeepsHits<V>(log: seq<Event<V>>, e: Event<V>)
    requires HitsAreFresh(log)
    requires e.Hit? ==> HitIsFresh(log + [e], |log|)
    ensures HitsAreFresh(log + [e])
  {
    forall n: nat | n < |log| && log[n].Hit? ensures HitIsFresh(log + [e], n) {
      assert HitIsFresh(log, n);
      var key := log[n].key;
      var k: nat :| LiveAt(log, key, k, n) && log[k].value == log[n].value
                    && log[n].time < CallOf(log, key, k).began + CallOf(log, key, k).ttl;
      AppendKeepsStores(log, e, key, k);
      assert LiveAt(log + [e], key, k, n) by {
        forall j: nat | k < j < n ensures !StoresFor(log + [e], key, j) {
          AppendKeepsStores(log, e, key, j);
        }
      }
    }
  }

  lemma AppendKeepsHistory<V>(log: seq<Event<V>>, e: Event<V>)
    requires History(log) && MayFollow(log, e)
    ensures History(log + [e])
  {
    AppendKeepsHits(log, e);
  }

  lemma AppendKeepsLive<V>(log: seq<Event<V>>, e: Event<V>, key: string, k: nat)
    requires LiveAt(log, key, k, |log|) && !Clears(e, key) && !StoresFor(log + [e], key, |log|)
    ensures LiveAt(log + [e], key, k, |log| + 1)
  {
  }

  lemma AppendKeepsAbsent<V>(log: seq<Event<V>>, e: Event<V>, key: string)
    requires Absent(log, key) || Clears(e, key)
    requires !StoresFor(log + [e], key, |log|)
    ensures Absent(log + [e], key)
  {
    forall k: nat | StoresFor(log + [e], key, k) ensures exists j: nat :: k < j < |log| + 1 && Clears((log + [e])[j], key) {
      if Clears(e, key) {
        assert Clears((log + [e])[|log|], key);
      } else {
        AppendKeepsStores(log, e, key, k);
        var j: nat :| k < j < |log| && Clears(log[j], key);
        assert Clears((log + [e])[j], key);
      }
    }
  }

  /** After a deletion a hit returns only a value that was stored later than the deletion. */
  lemma HitsAfterDeletion<V>(log: seq<Event<V>>, key: string, d: nat, n: nat)
    requires HitsAreFresh(log) && d < n < |log|
    requires Clears(log[d], key) && log[n].Hit? && log[n].key == key
    ensures exists k: nat :: d < k < n && StoresFor(log, key, k) && log[k].value == log[n].value
  {
  }

  lemma FreshHit<V>(log: seq<Event<V>>, e: Event<V>, k: nat)
    requires e.Hit? && LiveAt(log, e.key, k, |log|) && log[k].value == e.value
    requires e.time < CallOf(log, e.key, k).began + CallOf(log, e.key, k).ttl
    ensures HitIsFresh(log + [e], |log|)
  {
    forall j: nat | k <= j < |log| ensures StoresFor(log + [e], e.key, j) <==> StoresFor(log, e.key, j) {
      AppendKeepsStores(log, e, e.key, j);
    }
    assert LiveAt(log + [e], e.key, k, |log|);
  }

  datatype Stash<V> = Stash(expires: real, value: V)

  /** The dictionary holds the live value of the key with its expiry, or nothing if there is none. */
  ghost predicate KeyOk<V>(log: seq<Event<V>>, store: map<string, Stash<V>>, source: map<string, nat>, key: string) {
    if key in store then
      && key in source && LiveAt(log, key, source[key], |log|)
      && store[key] == Stash(CallOf(log, key, source[key]).began + CallOf(log, key, source[key]).ttl, log[source[key]].value)
    else Absent(log, key)
  }

  ghost predicate Mirrors<V>(log: seq<Event<V>>, store: map<string, Stash<V>>, source: map<string, nat>) {
    History(log) && forall key :: KeyOk(log, store, source, key)
  }

  lemma KeyAfterEvent<V>(log: seq<Event<V>>, e: Event<V>, store: map<string, Stash<V>>, source: map<string, nat>, key: string)
    requires KeyOk(log, store, source, key) || (key !in store && Clears(e, key))
    requires !StoresFor(log + [e], key, |log|) && (key in store ==> !Clears(e, key))
    ensures KeyOk(log + [e], store, source, key)
  {
    if key in store {
      AppendKeepsLive(log, e, key, source[key]);
    } else {
      AppendKeepsAbsent(log, e, key);
    }
  }

  /** The dictionary after an event that stores nothing: what the event clears is gone, the rest stays. */
  ghost predicate Cleared<V>(store: map<string, Stash<V>>, store': map<string, Stash<V>>, e: Event<V>) {
    && (forall key :: key in store' ==> key in store && store'[key] == store[key] && !Clears(e, key))
    && (forall key :: key in store && !Clears(e, key) ==> key in store')
  }

  lemma AfterEvent<V>(log: seq<Event<V>>, e: Event<V>, store: map<string, Stash<V>>, store': map<string, Stash<V>>, source: map<string, nat>)
    requires Mirrors(log, store, source) && !e.Stored? && Cleared(store, store', e)
    requires MayFollow(log, e)
    ensures Mirrors(log + [e], store', source)
  {
    AppendKeepsHistory(log, e);
    forall key ensures KeyOk(log + [e], store', source, key) {
      assert KeyOk(log, store, source, key);
      KeyAfterEvent(log, e, store', source, key);
    }
  }

  lemma AfterStore<V>(log: seq<Event<V>>, id: nat, value: V, store: map<string, Stash<V>>, source: map<string, nat>)
    requires Mirrors(log, store, source) && Pending(log, id)
    ensures var call := log[id].call;
      Mirrors(log + [Stored(id, value)], store[call.key := Stash(call.began + call.ttl, value)], source[call.key := |log|])
  {
    var call, e := log[id].call, Stored(id, value);
    var store', source' := store[call.key := Stash(call.began + call.ttl, value)], source[call.key := |log|];
    AppendKeepsHistory(log, e);
    forall key ensures KeyOk(log + [e], store', source', key) {
      if key == call.key {
        assert LiveAt(log + [e], key, |log|, |log| + 1);
      } else {
        assert KeyOk(log, store, source, key);
        KeyAfterEvent(log, e, store, source, key);
      }
    }
  }

  /******* When a refresh lasts *******/

  /** A refreshing request has just cleared the key and begun its own call. */
  predicate JustRefreshed<V>(log: seq<Event<V>>, key: string) {
    |log| >= 2 && Clears(log[|log| - 2], key) && log[|log| - 1].Missed? && log[|log| - 1].call.key == key
  }

  /** The hit at `n` returns what a call begun at `d` or later fetched. */
  ghost predicate ServedSince<V>(log: seq<Event<V>>, n: nat, d: nat)
    requires n < |log| && log[n].Hit?
  {
    exists k: nat :: LiveAt(log, log[n].key, k, n) && log[k].value == log[n].value && log[k].origin >= d
  }

  ghost predicate AllServedSince<V>(log: seq<Event<V>>, key: string, d: nat) {
    forall n: nat :: d < n < |log| && log[n].Hit? && log[n].key == key ==> ServedSince(log, n, d)
  }

  /** An older call of the key is still fetching, and its value would still be alive at the time of the last event. */
  ghost predicate OlderFetch<V>(log: seq<Event<V>>, key: string, id: nat)
    requires log != [] && log[|log| - 1].Missed?
  {
    && id < |log| - 1 && Pending(log, id) && log[id].call.key == key
    && log[|log| - 1].call.began < log[id].call.began + log[id].call.ttl
  }

  /** A later hit on an older call's value shows that the call was pending and its value alive at the refresh. */
  lemma StaleHitShowsOlderFetch<V>(log: seq<Event<V>>, rest: seq<Event<V>>, key: string, n: nat) returns (id: nat)
    requires JustRefreshed(log, key) && History(log + rest)
    requires |log| <= n < |log + rest| && (log + rest)[n].Hit? && (log + rest)[n].key == key
    requires !ServedSince(log + rest, n, |log| - 1)
    ensures OlderFetch(log, key, id)
  {
    var all, d := log + rest, |log| - 1;
    assert HitIsFresh(all, n);
    var k: nat :| LiveAt(all, key, k, n) && all[k].value == all[n].value
                  && all[n].time < CallOf(all, key, k).began + CallOf(all, key, k).ttl;
    id := all[k].origin;
    var cleared := all[d - 1];
    assert k > d by {
      assert cleared == log[d - 1] && all[d] == log[d];
      assert k < d - 1 ==> !Clears(cleared, key);
    }
    assert TimeOf(all[d]) == Some(log[d].call.began) && TimeOf(all[n]) == Some(all[n].time);
    forall j: nat | j < |log| && log[j].Stored? ensures log[j].origin != id {
      assert all[j].origin != all[k].origin;
    }
  }

  /** If there is such a call, its value can be stored over the refreshed one and served. */
  lemma OlderFetchCanBeServed<V>(log: seq<Event<V>>, key: string, id: nat, value: V) returns (rest: seq<Event<V>>)
    requires History(log) && JustRefreshed(log, key) && OlderFetch(log, key, id)
    ensures History(log + rest) && !AllServedSince(log + rest, key, |log| - 1)
  {
    var stored, hit := Stored(id, value), Hit(key, log[|log| - 1].call.began, value);
    var longer := log + [stored];
    AppendKeepsHistory(log, stored);
    assert LiveAt(longer, key, |log|, |longer|);
    FreshHit(longer, hit, |log|);
    AppendKeepsHistory(longer, hit);
    rest := [stored, hit];
    var all := log + rest;
    assert longer + [hit] == all;
    forall k: nat | LiveAt(all, key, k, |longer|) ensures all[k].origin < |log| - 1 {
      assert StoresFor(all, key, |log|);
    }
    assert !ServedSince(all, |longer|, |log| - 1);
  }

  /**
   A refresh lasts, in that every later hit of the key returns what the refreshing call or a later one fetched
   whatever happens next, exactly when no older call of the key is still fetching with its ttl not over.
   */
  lemma RefreshLasts<V>(log: seq<Event<V>>, key: string, sample: V)
    requires History(log) && JustRefreshed(log, key)
    ensures (forall rest: seq<Event<V>> :: History(log + rest) ==> AllServedSince(log + rest, key, |log| - 1))
            <==> !exists id: nat :: OlderFetch(log, key, id)
  {
    if id: nat :| OlderFetch(log, key, id) {
      var rest := OlderFetchCanBeServed(log, key, id, sample);
      assert History(log + rest);
    } else {
      forall rest: seq<Event<V>> | History(log + rest) ensures AllServedSince(log + rest, key, |log| - 1) {
        forall n: nat | |log| <= n < |log + rest| && (log + rest)[n].Hit? && (log + rest)[n].key == key
          ensures ServedSince(log + rest, n, |log| - 1)
        {
          if !ServedSince(log + rest, n, |log| - 1) {
            var id := StaleHitShowsOlderFetch(log, rest, key, n);
          }
        }
      }
    }
  }

  /** The deletion loop of invalidate. */
  method DropAll<V>(entries: map<string, Stash<V>>, keys: set<string>) returns (rest: map<string, Stash<V>>)
    ensures rest == entries - keys
  {
    rest := entries;
    var left := keys;
    while left != {}
      invariant left <= keys && rest == entries - (keys - left)
    {
      var key :| key in left;
      rest := rest - {key};
      left := left - {key};
    }
  }

  class Cache<V> {
    var store: map<string, Stash<V>>
    ghost var log: seq<Event<V>>
    /** The event that stored each entry. */
    ghost var source: map<string, nat>

    /** The events are a history, and the dictionary is what they leave live. */
    ghost predicate Valid()
      reads this
    {
      Mirrors(log, store, source)
    }

    constructor ()
      ensures Valid() && log == [] && store == map[]
    {
      store, log, source := map[], [], map[];
    }

    /** The part of get_or_set before the factory runs: a hit, or a call begun. */
    method Begin(key: string, ttl: real, now: real) returns (hit: Option<V>)
      requires Valid() && NotBefore(log, now)
      modifies this`log
      ensures Valid()
      ensures log == old(log) + [if hit.Some? then Hit(key, now, hit.value) else Missed(Call(key, ttl, now))]
      ensures hit == if key in store && store[key].expires > now then Some(store[key].value) else None
    {
      if key in store && store[key].expires > now {
        hit := Some(store[key].value);
        ghost var e := Hit(key, now, hit.value);
        assert KeyOk(log, store, source, key);
        FreshHit(log, e, source[key]);
        AfterEvent(log, e, store, store, source);
        log := log + [e];
      } else {
        hit := None;
        AfterEvent(log, Missed(Call(key, ttl, now)), store, store, source);
        log := log + [Missed(Call(key, ttl, now))];
      }
    }

    /** The part after the factory: store the value under the moment the lookup began, and return it. */
    method Finish(ghost id: nat, call: Call, value: V) returns (result: V)
      requires Valid() && Pending(log, id) && log[id].call == call
      modifies this
      ensures Valid() && result == value
      ensures log == old(log) + [Stored(id, value)]
      ensures store == old(store)[call.key := Stash(call.began + call.ttl, value)]
    {
      AfterStore(log, id, value, store, source);
      store := store[call.key := Stash(call.began + call.ttl, value)];
      source := source[call.key := |log|];
      log := log + [Stored(id, value)];
      result := value;
    }

    method Delete(key: string)
      requires Valid()
      modifies this
      ensures Valid() && log == old(log) + [Deleted(key)]
      ensures store == old(store) - {key}
    {
      AfterEvent(log, Deleted(key), store, store - {key}, source);
      store := store - {key};
      log := log + [Deleted(key)];
    }

    /** Clears everything, or deletes the keys with the prefix. */
    method Invalidate(prefix: Option<string>)
      requires Valid()
      modifies this
      ensures Valid() && log == old(log) + [Invalidated(prefix)]
      ensures forall key :: key in store <==> key in old(store) && prefix.Some? && !(prefix.value <= key)
      ensures forall key :: key in store ==> store[key] == old(store)[key]
    {
      if prefix.None? {
        store := map[];
      } else {
        store := DropAll(store, set key | key in store && prefix.value <= key);
      }
      AfterEvent(log, Invalidated(prefix), old(store), store, source);
      log := log + [Invalidated(prefix)];
    }

    /** A request with refresh=true: the entry is deleted and the lookup begins at once, so it never hits. */
    method Refresh(key: string, ttl: real, now: real) returns (hit: Option<V>)
      requires Valid() && NotBefore(log, now)
      modifies this
      ensures Valid() && hit.None? && store == old(store) - {key}
      ensures log == old(log) + [Deleted(key), Missed(Call(key, ttl, now))] && JustRefreshed(log, key)
    {
      Delete(key);
      hit := Begin(key, ttl, now);
    }
  }

  /** An interleaving in which a refresh does not last: an older, slower fetch of the key overwrites it and is served. */
  method OlderFetchOverwrites(key: string, older: int, newer: int) returns (served: Option<int>)
    ensures served == Some(older)
  {
    var cache := new Cache<int>();
    var first := cache.Begin(key, 60.0, 0.0);
    var second := cache.Refresh(key, 60.0, 1.0);
    var _ := cache.Finish(2, Call(key, 60.0, 1.0), newer);
    var _ := cache.Finish(0, Call(key, 60.0, 0.0), older);
    served := cache.Begin(key, 60.0, 2.0);
  }
}
