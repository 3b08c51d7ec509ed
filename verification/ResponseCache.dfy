/**
 The proxy's short-lived cache of read-only responses (proxy.py, `ResponseCache`),
 and its refinement of a plain log of what was stored and when.
 */
module ResponseCache {
  import opened Bytes

  datatype Entry = Entry(storedAt: real, frames: seq<Bytes>)

  /** The cache is keyed by the whole command frame; nothing depends on what a key is. */
  type Entries<K(==)> = map<K, Entry>

  predicate Expired(ttl: real, e: Entry, now: real) {
    now - e.storedAt > ttl
  }

  /** `get` and the entries it leaves: an expired entry is deleted on the way. */
  function Get<K(==)>(ttl: real, entries: Entries<K>, key: K, now: real): (Option<seq<Bytes>>, Entries<K>) {
    if key !in entries then (None, entries)
    else if Expired(ttl, entries[key], now) then (None, entries - {key})
    else (Some(entries[key].frames), entries)
  }

  function Set<K(==)>(ttl: real, entries: Entries<K>, key: K, frames: seq<Bytes>, now: real): Entries<K> {
    if ttl > 0.0 then entries[key := Entry(now, frames)] else entries
  }

  class Cache<K(==)> {
    const ttl: real
    var entries: Entries<K>

    constructor (ttl: real)
      ensures this.ttl == ttl && entries == map[]
    {
      this.ttl := ttl;
      entries := map[];
    }

    method Lookup(key: K, now: real) returns (frames: Option<seq<Bytes>>)
      modifies this
      ensures (frames, entries) == Get(ttl, old(entries), key, now)
    {
      if key !in entries {
        return None;
      }
      var entry := entries[key];
      if now - entry.storedAt > ttl {
        entries := entries - {key};
        return None;
      }
      return Some(entry.frames);
    }

    method Store(key: K, frames: seq<Bytes>, now: real)
      modifies this
      ensures entries == Set(ttl, old(entries), key, frames, now)
    {
      if ttl > 0.0 {
        entries := entries[key := Entry(now, frames)];
      }
    }

    method Clear()
      modifies this
      ensures entries == map[]
    {
      entries := map[];
    }
  }

  // ---------------------------------------------------------------- the log it refines

  /** One call on the cache, with the clock reading it made. */
  datatype Call<K> =
    | Getting(key: K, at: real)
    | Setting(key: K, frames: seq<Bytes>, at: real)
    | Clearing(at: real)

  /** The entries after a history of calls on an empty cache. */
  function After<K(==)>(ttl: real, calls: seq<Call<K>>): Entries<K> {
    if calls == [] then map[]
    else
      var entries := After(ttl, calls[..|calls| - 1]);
      match calls[|calls| - 1]
      case Getting(key, at) => Get(ttl, entries, key, at).1
      case Setting(key, frames, at) => Set(ttl, entries, key, frames, at)
      case Clearing(_) => map[]
  }

  /** The latest `set` of a key that no later `clear` wiped. */
  function LatestSet<K(==)>(calls: seq<Call<K>>, key: K): Option<Entry> {
    if calls == [] then None
    else
      match calls[|calls| - 1]
      case Setting(k, frames, at) =>
        if k == key then Some(Entry(at, frames)) else LatestSet(calls[..|calls| - 1], key)
      case Clearing(_) => None
      case Getting(_, _) => LatestSet(calls[..|calls| - 1], key)
  }

  ghost predicate NonDecreasing<K>(calls: seq<Call<K>>) {
    forall i, j :: 0 <= i <= j < |calls| ==> calls[i].at <= calls[j].at
  }

  /**
   Whatever was called before, `get` answers from the latest surviving `set`,
   exactly when caching is on and that `set` is at most `ttl` old. No trace is left
   of the entries that earlier calls deleted.
   */
  lemma {:induction false} GetRefinesTheLog<K>(ttl: real, calls: seq<Call<K>>, key: K, now: real)
    requires NonDecreasing(calls + [Getting(key, now)])
    ensures
      var latest := LatestSet(calls, key);
      Get(ttl, After(ttl, calls), key, now).0 ==
      if latest.Some? && ttl > 0.0 && now - latest.value.storedAt <= ttl then Some(latest.value.frames) else None
  {
    var all := calls + [Getting(key, now)];
    assert forall i :: 0 <= i < |calls| ==> all[i] == calls[i];
    EntriesMatchTheLog(ttl, calls, key);
    if calls != [] {
      assert all[|calls| - 1].at <= all[|calls|].at;
    }
  }

  /** An entry is the latest `set` of its key; a `set` without an entry has expired. */
  lemma {:induction false} EntriesMatchTheLog<K>(ttl: real, calls: seq<Call<K>>, key: K)
    requires NonDecreasing(calls)
    ensures
      var entries, latest := After(ttl, calls), LatestSet(calls, key);
      if key in entries then ttl > 0.0 && latest == Some(entries[key])
      else latest.Some? && ttl > 0.0 ==> calls[|calls| - 1].at - latest.value.storedAt > ttl
  {
    if calls != [] {
      var before := calls[..|calls| - 1];
      EntriesMatchTheLog(ttl, before, key);
      assert before != [] ==> before[|before| - 1].at <= calls[|calls| - 1].at;
    }
  }
}
