/** The store of issued challenge nonces: each is bound to one client and one
    source endpoint, expires, and may be consumed once. */
module NonceStores {
  import opened Types
  import Finite

  datatype NonceEntry = NonceEntry(
    client: ClientKey, source: Endpoint, createdAt: i64, expiresAt: i64, used: bool)

  datatype ConsumeError = Unknown | AlreadyUsed | Expired | ClientMismatch | EndpointMismatch

  type Entries = map<Bytes, NonceEntry>

  /** All binding checks on one entry, in the order that decides which error is reported. */
  function Check(e: NonceEntry, client: ClientKey, source: Endpoint, now: i64): (r: Result<NonceEntry, ConsumeError>)
    ensures r.Ok? <==> !e.used && now <= e.expiresAt && e.client == client && e.source == source
    ensures r.Ok? ==> r.value == e
    ensures r == Err(AlreadyUsed) <==> e.used
    ensures r == Err(Expired) <==> !e.used && e.expiresAt < now
    ensures r == Err(ClientMismatch) <==> !e.used && now <= e.expiresAt && e.client != client
    ensures r == Err(EndpointMismatch) <==>
              !e.used && now <= e.expiresAt && e.client == client && e.source != source
  {
    if e.used then Err(AlreadyUsed)
    else if now > e.expiresAt then Err(Expired)
    else if e.client != client then Err(ClientMismatch)
    else if e.source != source then Err(EndpointMismatch)
    else Ok(e)
  }

  function Validated(m: Entries, nonce: Bytes, client: ClientKey, source: Endpoint, now: i64)
    : (r: Result<NonceEntry, ConsumeError>)
    ensures r == Err(Unknown) <==> nonce !in m
    ensures r == Err(AlreadyUsed) <==> nonce in m && m[nonce].used
    ensures r.Ok? <==>
              && nonce in m && !m[nonce].used && now <= m[nonce].expiresAt
              && m[nonce].client == client && m[nonce].source == source
    ensures r.Ok? ==> r.value == m[nonce]
  {
    if nonce !in m then Err(Unknown) else Check(m[nonce], client, source, now)
  }

  function AfterInsert(m: Entries, nonce: Bytes, client: ClientKey, source: Endpoint,
                       createdAt: i64, expiresAt: i64): Entries
  {
    m[nonce := NonceEntry(client, source, createdAt, expiresAt, false)]
  }

  function AfterConsume(m: Entries, nonce: Bytes, client: ClientKey, source: Endpoint, now: i64): Entries {
    if Validated(m, nonce, client, source, now).Ok? then m[nonce := m[nonce].(used := true)] else m
  }

  function AfterPurge(m: Entries, now: i64): Entries {
    map n | n in m && now <= m[n].expiresAt :: m[n]
  }

  class NonceStore {
    var entries: Entries

    constructor ()
      ensures entries == map[]
    {
      entries := map[];
    }

    /** Records a freshly issued nonce; `createdAt` is the clock reading taken inside the call. */
    method Insert(nonce: Bytes, client: ClientKey, source: Endpoint, createdAt: i64, expiresAt: i64)
      modifies this
      ensures entries == AfterInsert(old(entries), nonce, client, source, createdAt, expiresAt)
      ensures entries == old(entries)[nonce := NonceEntry(client, source, createdAt, expiresAt, false)]
    {
      var entry := NonceEntry(client, source, createdAt, expiresAt, false);
      entries := entries[nonce := entry];
    }

    /** Peeks: all checks, nothing marked. */
    method Validate(nonce: Bytes, client: ClientKey, source: Endpoint, now: i64)
      returns (r: Result<NonceEntry, ConsumeError>)
      ensures r == Validated(entries, nonce, client, source, now)
    {
      if nonce !in entries {
        return Err(Unknown);
      }
      return Check(entries[nonce], client, source, now);
    }

    /** The single-use gate: all checks, and on success the nonce is marked used. */
    method Consume(nonce: Bytes, client: ClientKey, source: Endpoint, now: i64)
      returns (r: Result<NonceEntry, ConsumeError>)
      modifies this
      ensures entries == AfterConsume(old(entries), nonce, client, source, now)
      ensures r.Ok? ==> nonce in old(entries) && entries == old(entries)[nonce := r.value]
                        && r.value == old(entries)[nonce].(used := true)
      ensures r.Err? ==> entries == old(entries)
      ensures r.Ok? == Validated(old(entries), nonce, client, source, now).Ok?
      ensures r.Err? ==> r == Validated(old(entries), nonce, client, source, now)
    {
      if nonce !in entries {
        return Err(Unknown);
      }
      var verdict := Check(entries[nonce], client, source, now);
      if verdict.Err? {
        return verdict;
      }
      entries := entries[nonce := entries[nonce].(used := true)];
      return Ok(entries[nonce]);
    }

    /** Drops expired entries, used or not; returns how many went. */
    method PurgeExpired(now: i64) returns (removed: nat)
      modifies this
      ensures entries == AfterPurge(old(entries), now)
      ensures forall n :: n in entries <==> n in old(entries) && now <= old(entries)[n].expiresAt
      ensures forall n :: n in entries ==> entries[n] == old(entries)[n]
      ensures removed == |old(entries)| - |entries|
    {
      Finite.SubsetCardinality(AfterPurge(entries, now).Keys, entries.Keys);
      var before := |entries|;
      entries := map n | n in entries && now <= entries[n].expiresAt :: entries[n];
      removed := before - |entries|;
    }
  }

  // ----- Runs of calls -----

  datatype Call =
    | Insert(nonce: Bytes, client: ClientKey, source: Endpoint, expiresAt: i64, now: i64)
    | Validate(nonce: Bytes, client: ClientKey, source: Endpoint, now: i64)
    | Consume(nonce: Bytes, client: ClientKey, source: Endpoint, now: i64)
    | Purge(now: i64)

  predicate Ordered(calls: seq<Call>, from: i64) {
    calls == [] || (from <= calls[0].now && Ordered(calls[1..], calls[0].now))
  }

  function After(m: Entries, call: Call): Entries {
    match call
    case Insert(n, c, src, expires, now) => AfterInsert(m, n, c, src, now, expires)
    case Validate(_, _, _, _) => m
    case Consume(n, c, src, now) => AfterConsume(m, n, c, src, now)
    case Purge(now) => AfterPurge(m, now)
  }

  predicate Succeeds(m: Entries, call: Call) {
    (call.Validate? || call.Consume?) && Validated(m, call.nonce, call.client, call.source, call.now).Ok?
  }

  // ----- Single use -----

  function InsertsOf(nonce: Bytes, calls: seq<Call>): nat {
    if calls == [] then 0
    else (if calls[0].Insert? && calls[0].nonce == nonce then 1 else 0) + InsertsOf(nonce, calls[1..])
  }

  /** How often consuming `nonce` succeeds when `calls` run from `m`. */
  function ConsumesOf(nonce: Bytes, m: Entries, calls: seq<Call>): nat
    decreases |calls|
  {
    if calls == [] then 0
    else
      (if calls[0].Consume? && calls[0].nonce == nonce && Succeeds(m, calls[0]) then 1 else 0)
      + ConsumesOf(nonce, After(m, calls[0]), calls[1..])
  }

  function Unspent(nonce: Bytes, m: Entries): nat {
    if nonce in m && !m[nonce].used then 1 else 0
  }

  lemma {:induction false} ConsumesBounded(nonce: Bytes, m: Entries, calls: seq<Call>)
    ensures ConsumesOf(nonce, m, calls) <= Unspent(nonce, m) + InsertsOf(nonce, calls)
    decreases |calls|
  {
    if calls != [] {
      ConsumesBounded(nonce, After(m, calls[0]), calls[1..]);
    }
  }

  /** In every run, with clocks and purges in any order, a nonce is consumed at most as
      often as it was issued: once, when the supply of nonces never repeats. */
  lemma ConsumedAtMostOncePerIssue(nonce: Bytes, calls: seq<Call>)
    ensures ConsumesOf(nonce, map[], calls) <= InsertsOf(nonce, calls)
  {
    ConsumesBounded(nonce, map[], calls);
  }

  /** Why the supply must not repeat: issuing a spent nonce again makes it spendable again. */
  lemma ReissuedNonceIsSpendableAgain()
    ensures var e := Endpoint(1, 1);
            var calls := [Insert([7], "c", e, 30, 0), Consume([7], "c", e, 0),
                          Insert([7], "c", e, 30, 0), Consume([7], "c", e, 0)];
            ConsumesOf([7], map[], calls) == 2
  {
    var e := Endpoint(1, 1);
    var issue, spend := Insert([7], "c", e, 30, 0), Consume([7], "c", e, 0);
    var fresh1, spent := After(map[], issue), After(After(map[], issue), spend);
    var again := After(spent, issue);
    assert Succeeds(fresh1, spend) && Succeeds(again, spend);
    assert ConsumesOf([7], again, [spend]) == 1;
    assert [issue, spend][1..] == [spend];
    assert ConsumesOf([7], spent, [issue, spend]) == 1;
    assert [spend, issue, spend][1..] == [issue, spend];
    assert ConsumesOf([7], fresh1, [spend, issue, spend]) == 2;
    assert [issue, spend, issue, spend][1..] == [spend, issue, spend];
  }

  // ----- Purging is invisible, up to the reason for a refusal -----

  /** The answers to the validates and consumes of `calls`; with `purging` off, purges are ignored. */
  function Answers(m: Entries, calls: seq<Call>, purging: bool): seq<Result<NonceEntry, ConsumeError>>
    decreases |calls|
  {
    if calls == [] then []
    else
      var call := calls[0];
      if call.Purge? then Answers(if purging then After(m, call) else m, calls[1..], purging)
      else if call.Insert? then Answers(After(m, call), calls[1..], purging)
      else [Validated(m, call.nonce, call.client, call.source, call.now)] + Answers(After(m, call), calls[1..], purging)
  }

  /** Same answer, or both refuse and only the purged store has forgotten the nonce. */
  predicate SameAnswer(purged: Result<NonceEntry, ConsumeError>, full: Result<NonceEntry, ConsumeError>) {
    purged == full || (purged == Err(Unknown) && (full == Err(AlreadyUsed) || full == Err(Expired)))
  }

  ghost predicate Shadows(purged: Entries, full: Entries, now: i64) {
    && (forall n :: n in purged ==> n in full && purged[n] == full[n])
    && (forall n :: n in full && n !in purged ==> full[n].expiresAt < now)
  }

  lemma {:induction false} ShadowAnswers(purged: Entries, full: Entries, calls: seq<Call>, from: i64)
    requires Ordered(calls, from) && Shadows(purged, full, from)
    ensures |Answers(purged, calls, true)| == |Answers(full, calls, false)|
    ensures forall i :: 0 <= i < |Answers(purged, calls, true)| ==>
              SameAnswer(Answers(purged, calls, true)[i], Answers(full, calls, false)[i])
    decreases |calls|
  {
    if calls != [] {
      var call := calls[0];
      ShadowAnswers(After(purged, call), if call.Purge? then full else After(full, call), calls[1..], call.now);
    }
  }

  /** A store purged at arbitrary times and one never purged accept and refuse the same
      calls and return the same entries; only the reason for a refusal may differ. */
  lemma PurgeTransparent(calls: seq<Call>, from: i64)
    requires Ordered(calls, from)
    ensures |Answers(map[], calls, true)| == |Answers(map[], calls, false)|
    ensures forall i :: 0 <= i < |Answers(map[], calls, true)| ==>
              SameAnswer(Answers(map[], calls, true)[i], Answers(map[], calls, false)[i])
  {
    ShadowAnswers(map[], map[], calls, from);
  }
}
