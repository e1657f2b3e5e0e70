/** The HELLO replay cache: a map from a key to the last second in which a
    repetition of that key still counts as a replay. */
module SeenCaches {
  import opened Types
  import Finite

  /** Whether `key` would be newly accepted at `now`. */
  predicate Accepts<K>(entries: map<K, i64>, key: K, now: i64) {
    key in entries ==> entries[key] < now
  }

  function AfterInsert<K>(entries: map<K, i64>, key: K, now: i64, ttl: u64): map<K, i64> {
    if Accepts(entries, key, now) then entries[key := AddClamped(now, ttl)] else entries
  }

  function AfterPurge<K>(entries: map<K, i64>, now: i64): map<K, i64> {
    map k | k in entries && now <= entries[k] :: entries[k]
  }

  lemma PurgeShrinks<K>(entries: map<K, i64>, now: i64)
    ensures |AfterPurge(entries, now)| <= |entries|
  {
    Finite.SubsetCardinality(AfterPurge(entries, now).Keys, entries.Keys);
  }

  class SeenCache<K(==)> {
    var entries: map<K, i64>

    constructor ()
      ensures entries == map[]
    {
      entries := map[];
    }

    /** Records `key` unless an unexpired entry is present; returns whether it was newly accepted. */
    method InsertIfAbsent(key: K, now: i64, ttl: u64) returns (accepted: bool)
      modifies this
      ensures accepted == Accepts(old(entries), key, now)
      ensures accepted <==> (key in old(entries) ==> old(entries)[key] < now)
      ensures entries == AfterInsert(old(entries), key, now, ttl)
      ensures entries == if accepted then old(entries)[key := Min(now + ttl, 0x7FFF_FFFF_FFFF_FFFF)] else old(entries)
    {
      if key in entries && now <= entries[key] {
        return false;
      }
      entries := entries[key := AddClamped(now, ttl)];
      return true;
    }

    /** Drops every entry whose window has passed; returns how many went. */
    method PurgeExpired(now: i64) returns (removed: nat)
      modifies this
      ensures entries == AfterPurge(old(entries), now)
      ensures forall k :: k in entries <==> k in old(entries) && now <= old(entries)[k]
      ensures forall k :: k in entries ==> entries[k] == old(entries)[k]
      ensures removed == |old(entries)| - |entries|
    {
      PurgeShrinks(entries, now);
      var before := |entries|;
      entries := map k | k in entries && now <= entries[k] :: entries[k];
      removed := before - |entries|;
    }
  }

  // ----- The window arithmetic -----

  /** The freshness test: drift is taken in 128 bits, so it is the true distance. */
  predicate WithinSkew(now: i64, timestamp: i64, skew: u64): (within: bool)
    ensures within <==> timestamp - skew <= now <= timestamp + skew
  {
    var drift: int := (now as int) - (timestamp as int);
    (if drift < 0 then -drift else drift) <= skew
  }

  /** `skew.saturating_mul(2)`. */
  function SeenTtl(skew: u64): (ttl: u64)
    ensures 2 * skew < 0x1_0000_0000_0000_0000 ==> ttl == 2 * skew
    ensures 2 * skew >= 0x1_0000_0000_0000_0000 ==> ttl == 0xFFFF_FFFF_FFFF_FFFF
  {
    Min(2 * skew, U64_MAX)
  }

  /** The clamped expiry written at one in-window arrival covers every other in-window
      arrival of the same timestamp, for every skew up to the largest u64. */
  lemma ExpiryCoversWindow(first: i64, later: i64, timestamp: i64, skew: u64)
    requires WithinSkew(first, timestamp, skew) && WithinSkew(later, timestamp, skew)
    ensures later <= AddClamped(first, SeenTtl(skew))
  {
    if 2 * skew > U64_MAX {
      assert first + U64_MAX >= I64_MAX;
    } else {
      assert later - first <= 2 * skew;
    }
  }

  // ----- A clock reading that grows old before the insert -----

  /** The code reads the clock before it takes the cache's lock. When the reading `stale` of one
      handler has grown old meanwhile, so that another handler inserted the same key at
      `first` and a purge ran at `purged`, the key is accepted a second time if and only if the
      purge or the reading itself lies beyond the entry. */
  lemma StaleReadingAcceptsIff<K>(entries: map<K, i64>, key: K, first: i64, ttl: u64, purged: i64, stale: i64)
    requires Accepts(entries, key, first)
    ensures Accepts(AfterPurge(AfterInsert(entries, key, first, ttl), purged), key, stale)
       <==> AddClamped(first, ttl) < Max(purged, stale)
  {
    assert AfterInsert(entries, key, first, ttl)[key] == AddClamped(first, ttl);
  }

  /** For a HELLO both readings lie in its window, so only a purge can do that, one more than
      the whole time to live of the entry after the first insert. */
  lemma StaleHelloAcceptsIff<K>(entries: map<K, i64>, key: K, first: i64, purged: i64, stale: i64, timestamp: i64,
                                skew: u64)
    requires Accepts(entries, key, first)
    requires WithinSkew(first, timestamp, skew) && WithinSkew(stale, timestamp, skew)
    ensures Accepts(AfterPurge(AfterInsert(entries, key, first, SeenTtl(skew)), purged), key, stale)
       <==> AddClamped(first, SeenTtl(skew)) < purged
  {
    ExpiryCoversWindow(first, stale, timestamp, skew);
    StaleReadingAcceptsIff(entries, key, first, SeenTtl(skew), purged, stale);
  }

  // ----- Purging is invisible -----

  datatype Call<K> = Insert(key: K, now: i64, ttl: u64) | Purge(now: i64)

  predicate Ordered<K>(calls: seq<Call<K>>, from: i64) {
    calls == [] || (from <= calls[0].now && Ordered(calls[1..], calls[0].now))
  }

  /** The answers given to the inserts of `calls`; with `purging` off, purges are ignored. */
  function Answers<K>(entries: map<K, i64>, calls: seq<Call<K>>, purging: bool): seq<bool>
    decreases |calls|
  {
    if calls == [] then [] else
      match calls[0]
      case Insert(key, now, ttl) =>
        [Accepts(entries, key, now)] + Answers(AfterInsert(entries, key, now, ttl), calls[1..], purging)
      case Purge(now) =>
        Answers(if purging then AfterPurge(entries, now) else entries, calls[1..], purging)
  }

  /** `purged` is `full` with only entries missing that are dead at `now`. */
  ghost predicate Shadows<K(!new)>(purged: map<K, i64>, full: map<K, i64>, now: i64) {
    && (forall k :: k in purged ==> k in full && purged[k] == full[k])
    && (forall k :: k in full && k !in purged ==> full[k] < now)
  }

  lemma {:induction false} ShadowAnswers<K(!new)>(
    purged: map<K, i64>, full: map<K, i64>, calls: seq<Call<K>>, now: i64)
    requires Ordered(calls, now)
    requires Shadows(purged, full, now)
    ensures Answers(purged, calls, true) == Answers(full, calls, false)
    decreases |calls|
  {
    if calls != [] {
      var t := calls[0].now;
      match calls[0] {
        case Insert(key, _, ttl) =>
          ShadowAnswers(AfterInsert(purged, key, t, ttl), AfterInsert(full, key, t, ttl), calls[1..], t);
        case Purge(_) =>
          ShadowAnswers(AfterPurge(purged, t), full, calls[1..], t);
      }
    }
  }

  /** A cache purged at arbitrary times answers every time-ordered call sequence
      exactly as one that is never purged. */
  lemma PurgeTransparent<K(!new)>(calls: seq<Call<K>>, from: i64)
    requires Ordered(calls, from)
    ensures Answers(map[], calls, true) == Answers(map[], calls, false)
  {
    ShadowAnswers<K>(map[], map[], calls, from);
  }

  // ----- The key of a HELLO -----

  /** The raw client id and HELLO nonce, with a zero byte in between. */
  function ReplayKey(client: Bytes, helloNonce: Bytes): (key: Bytes)
    ensures |key| == |client| + 1 + |helloNonce|
    ensures key[..|client|] == client && key[|client|] == 0 && key[|client| + 1..] == helloNonce
  {
    client + [0] + helloNonce
  }

  /** Ids are of one length, so two HELLOs share a key only if they share id and nonce. */
  lemma ReplayKeyInjective(client: Bytes, helloNonce: Bytes, client1: Bytes, helloNonce1: Bytes)
    requires |client| == |client1| && ReplayKey(client, helloNonce) == ReplayKey(client1, helloNonce1)
    ensures client == client1 && helloNonce == helloNonce1
  {
    var key := ReplayKey(client, helloNonce);
    assert client == key[..|client|] && client1 == key[..|client1|];
    assert helloNonce == key[|client| + 1..] && helloNonce1 == key[|client1| + 1..];
  }
}
