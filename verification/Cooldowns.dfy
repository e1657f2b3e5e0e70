/** The per-client hold-down on grant hooks. */
module Cooldowns {
  import opened Types

  type Marks<!K> = map<K, Instant>

  predicate Cooling<K>(cooldown: nat, last: Marks<K>, key: K, now: Instant) {
    cooldown != 0 && key in last && Since(now, last[key]) < cooldown
  }

  function AfterMark<K>(cooldown: nat, last: Marks<K>, key: K, now: Instant): Marks<K> {
    if cooldown == 0 then last else last[key := now]
  }

  function AfterPurge<K>(cooldown: nat, last: Marks<K>, now: Instant): Marks<K> {
    if cooldown == 0 then last
    else map k | k in last && Since(now, last[k]) < cooldown :: last[k]
  }

  class CooldownTracker {
    const cooldown: nat
    var last: Marks<ClientKey>

    constructor (cooldownSeconds: u64)
      ensures cooldown == cooldownSeconds * 1_000_000_000 && last == map[]
    {
      cooldown := cooldownSeconds * NANOS_PER_SECOND;
      last := map[];
    }

    /** Whether `key` executed less than one cooldown ago. */
    method InCooldown(key: ClientKey, now: Instant) returns (cooling: bool)
      ensures cooling == Cooling(cooldown, last, key, now)
      ensures cooling <==> cooldown != 0 && key in last && Since(now, last[key]) < cooldown
    {
      if cooldown == 0 {
        return false;
      }
      cooling := key in last && Since(now, last[key]) < cooldown;
    }

    method Mark(key: ClientKey, now: Instant)
      modifies this
      ensures last == AfterMark(cooldown, old(last), key, now)
      ensures cooldown != 0 ==> last == old(last)[key := now]
      ensures cooldown == 0 ==> last == old(last)
    {
      if cooldown != 0 {
        last := last[key := now];
      }
    }

    method PurgeStale(now: Instant)
      modifies this
      ensures last == AfterPurge(cooldown, old(last), now)
      ensures forall k :: k in last <==> k in old(last) && (cooldown == 0 || Since(now, old(last)[k]) < cooldown)
      ensures forall k :: k in last ==> last[k] == old(last)[k]
    {
      if cooldown != 0 {
        last := map k | k in last && Since(now, last[k]) < cooldown :: last[k];
      }
    }
  }

  datatype Call<K> = Ask(key: K, now: Instant) | Mark(key: K, now: Instant) | Purge(now: Instant)

  predicate Ordered<K>(calls: seq<Call<K>>, from: Instant) {
    calls == [] || (from <= calls[0].now && Ordered(calls[1..], calls[0].now))
  }

  /** The answers to the questions in `calls`; with `purging` off, purges are ignored. */
  function Answers<K>(cooldown: nat, last: Marks<K>, calls: seq<Call<K>>, purging: bool): seq<bool>
    decreases |calls|
  {
    if calls == [] then []
    else match calls[0]
      case Ask(key, now) => [Cooling(cooldown, last, key, now)] + Answers(cooldown, last, calls[1..], purging)
      case Mark(key, now) => Answers(cooldown, AfterMark(cooldown, last, key, now), calls[1..], purging)
      case Purge(now) =>
        Answers(cooldown, if purging then AfterPurge(cooldown, last, now) else last, calls[1..], purging)
  }

  ghost predicate Shadows<K(!new)>(cooldown: nat, purged: Marks<K>, full: Marks<K>, now: Instant) {
    && (forall k :: k in purged ==> k in full && purged[k] == full[k])
    && (forall k :: k in full && k !in purged ==> cooldown <= Since(now, full[k]))
  }

  lemma {:induction false} ShadowAnswers<K(!new)>(
    cooldown: nat, purged: Marks<K>, full: Marks<K>, calls: seq<Call<K>>, from: Instant)
    requires Ordered(calls, from) && Shadows(cooldown, purged, full, from)
    ensures Answers(cooldown, purged, calls, true) == Answers(cooldown, full, calls, false)
    decreases |calls|
  {
    if calls != [] {
      var t := calls[0].now;
      match calls[0] {
        case Ask(_, _) =>
          ShadowAnswers(cooldown, purged, full, calls[1..], t);
        case Mark(key, _) =>
          ShadowAnswers(cooldown, AfterMark(cooldown, purged, key, t), AfterMark(cooldown, full, key, t), calls[1..],
                        t);
        case Purge(_) =>
          ShadowAnswers(cooldown, AfterPurge(cooldown, purged, t), full, calls[1..], t);
      }
    }
  }

  /** A tracker purged at arbitrary times and one never purged give the same answers. */
  lemma PurgeTransparent<K(!new)>(cooldown: nat, calls: seq<Call<K>>, from: Instant)
    requires Ordered(calls, from)
    ensures Answers(cooldown, map[], calls, true) == Answers(cooldown, map[], calls, false)
  {
    ShadowAnswers<K>(cooldown, map[], map[], calls, from);
  }

  // ----- What an answer means in terms of the whole history -----

  function AfterAll<K>(cooldown: nat, last: Marks<K>, calls: seq<Call<K>>): Marks<K>
    decreases |calls|
  {
    if calls == [] then last
    else match calls[0]
      case Ask(_, _) => AfterAll(cooldown, last, calls[1..])
      case Mark(key, now) => AfterAll(cooldown, AfterMark(cooldown, last, key, now), calls[1..])
      case Purge(now) => AfterAll(cooldown, AfterPurge(cooldown, last, now), calls[1..])
  }

  /** Some call marked `key` less than one cooldown before `now`. */
  predicate MarkedWithin<K(==)>(cooldown: nat, calls: seq<Call<K>>, key: K, now: Instant) {
    calls != [] &&
    ((calls[0].Mark? && calls[0].key == key && Since(now, calls[0].now) < cooldown)
     || MarkedWithin(cooldown, calls[1..], key, now))
  }

  predicate AllBefore<K>(calls: seq<Call<K>>, now: Instant) {
    forall i :: 0 <= i < |calls| ==> calls[i].now <= now
  }

  lemma {:induction false} CoolingFrom<K(!new)>(
    cooldown: nat, last: Marks<K>, calls: seq<Call<K>>, from: Instant, key: K, now: Instant)
    requires Ordered(calls, from) && from <= now && AllBefore(calls, now)
    requires key in last ==> last[key] <= from
    ensures Cooling(cooldown, AfterAll(cooldown, last, calls), key, now)
       <==> Cooling(cooldown, last, key, now) || MarkedWithin(cooldown, calls, key, now)
    decreases |calls|
  {
    if calls != [] {
      var t := calls[0].now;
      var next := match calls[0]
        case Ask(_, _) => last
        case Mark(k, _) => AfterMark(cooldown, last, k, t)
        case Purge(_) => AfterPurge(cooldown, last, t);
      CoolingFrom(cooldown, next, calls[1..], t, key, now);
    }
  }

  /** After any run, purges included, a key is cooling exactly when it was marked less
      than one cooldown ago at some point of the full history. */
  lemma CoolingIffMarkedWithin<K(!new)>(cooldown: nat, calls: seq<Call<K>>, from: Instant, key: K, now: Instant)
    requires Ordered(calls, from) && from <= now && AllBefore(calls, now)
    ensures Cooling(cooldown, AfterAll(cooldown, map[], calls), key, now) <==> MarkedWithin(cooldown, calls, key, now)
  {
    CoolingFrom(cooldown, map[], calls, from, key, now);
  }
}
