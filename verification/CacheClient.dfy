/** The cache client of one process (app/core/cache/client.py): index-based invalidation, purges that fail and are
    replayed, and the circuit breaker. Operations run one at a time; any Redis command may fail, and a failed
    command may still have taken effect. */
module CacheClient {
  import opened Common
  import opened CacheIndex
  import opened CacheKeys

  /** A stored value and the operation number at which it was stored. */
  datatype Entry = Entry(value: string, stamp: nat)

  type Data = map<string, Entry>

  const PENDING_MAX_KEYS := 5000
  const UNLINK_CHUNK := 1000
  const BREAKER_THRESHOLD := 3
  const BREAKER_OPEN_SECONDS := 5.0

  // ----- Keys and indexes as values -----

  function EpochKey(prefix: string): string {
    prefix + ":__epoch"
  }

  /** Keys are never named like an index set or like the epoch counter. */
  predicate DataKey(prefix: string, key: string) {
    !(prefix + ":__idx:" <= key) && key != EpochKey(prefix)
  }

  predicate IndexKey(prefix: string, key: string) {
    prefix + ":__idx:" <= key
  }

  predicate InPrefix(prefix: string, key: string) {
    prefix + ":" <= key
  }

  /** Every live key is in every index set it belongs to. */
  ghost predicate Indexed(prefix: string, data: Data, index: Index) {
    forall k, n :: k in data && n in IndexNames(prefix, k) ==> k in Members(index, n)
  }

  /** Index sets carry index names and list only data keys that belong to them. */
  ghost predicate Separate(prefix: string, data: Data, index: Index) {
    && (forall k :: k in data ==> DataKey(prefix, k))
    && (forall n :: n in index ==> IndexKey(prefix, n))
    && (forall n, k :: k in Members(index, n) ==> DataKey(prefix, k) && n in IndexNames(prefix, k))
  }

  /** `d` keeps a part of `c`, untouched. */
  ghost predicate Within(d: Data, c: Data) {
    forall k :: k in d ==> k in c && d[k] == c[k]
  }

  // ----- Purges -----

  /** One requested purge and the operation number of the request. */
  datatype Purge = Purge(namespaces: set<string>, keys: set<string>, flush: bool, at: nat)

  /** The keys a purge is about: all under the prefix, or those under its namespaces and its exact keys. */
  ghost predicate Hits(prefix: string, namespaces: set<string>, keys: set<string>, flush: bool, key: string) {
    (flush && InPrefix(prefix, key)) || key in keys || exists n :: n in namespaces && Under(prefix, n, key)
  }

  lemma UnderIsInPrefix(prefix: string, namespace: string, key: string)
    requires Under(prefix, namespace, key)
    ensures InPrefix(prefix, key)
  {
    assert (prefix + ":" + namespace + ":")[..|prefix| + 1] == prefix + ":";
  }

  /** A purge that covers `key` was requested after the value stamped `stamp` was stored. */
  ghost predicate Outdated(prefix: string, history: seq<Purge>, key: string, stamp: nat) {
    InPrefix(prefix, key) &&
    exists i :: 0 <= i < |history| && stamp < history[i].at &&
                Hits(prefix, history[i].namespaces, history[i].keys, history[i].flush, key)
  }

  // ----- _PendingPurges -----

  class PendingPurges {
    var namespaces: set<string>
    var keys: set<string>
    var flush: bool

    predicate Bounded()
      reads this
    {
      && |namespaces| + |keys| <= PENDING_MAX_KEYS
      && (flush ==> namespaces == {} && keys == {})
    }

    /** What is remembered as still to be purged. */
    ghost predicate Covers(prefix: string, key: string)
      reads this
    {
      Hits(prefix, namespaces, keys, flush, key)
    }

    constructor ()
      ensures Bounded() && namespaces == {} && keys == {} && !flush
    {
      namespaces, keys, flush := {}, {}, false;
    }

    predicate IsEmpty()
      reads this
    {
      !flush && namespaces == {} && keys == {}
    }

    /** What is remembered once `ns`, `ks` and `fl` are added to `ns0`, `ks0` and `fl0`. */
    predicate Holds(ns0: set<string>, ks0: set<string>, fl0: bool, ns: set<string>, ks: set<string>, fl: bool)
      reads this
    {
      && flush == (fl0 || fl || |ns0 + ns| + |ks0 + ks| > PENDING_MAX_KEYS)
      && namespaces == (if flush then {} else ns0 + ns)
      && keys == if flush then {} else ks0 + ks
    }

    twostate predicate Same()
      reads this
    {
      namespaces == old(namespaces) && keys == old(keys) && flush == old(flush)
    }

    method Add(ns: set<string>, ks: set<string>, fl: bool)
      modifies this
      ensures Bounded()
      ensures flush == (old(flush) || fl || |old(namespaces) + ns| + |old(keys) + ks| > PENDING_MAX_KEYS)
      ensures Holds(old(namespaces), old(keys), old(flush), ns, ks, fl)
      ensures forall p, k ::
                (Hits(p, old(namespaces), old(keys), old(flush), k) || Hits(p, ns, ks, fl, k)) && InPrefix(p, k) ==>
                  Covers(p, k)
    {
      flush := flush || fl;
      namespaces := namespaces + ns;
      keys := keys + ks;
      if |namespaces| + |keys| > PENDING_MAX_KEYS {
        flush := true;
      }
      if flush {
        namespaces, keys := {}, {};
      }
    }

    method Take() returns (ns: set<string>, ks: set<string>, fl: bool)
      modifies this
      ensures ns == old(namespaces) && ks == old(keys) && fl == old(flush)
      ensures IsEmpty() && Bounded()
    {
      ns, ks, fl := namespaces, keys, flush;
      namespaces, keys, flush := {}, {}, false;
    }
  }

  // ----- _CircuitBreaker -----

  /** How many of the last calls failed in a row. */
  ghost function Streak(outcomes: seq<bool>): nat {
    if outcomes == [] || !outcomes[|outcomes| - 1] then 0 else 1 + Streak(outcomes[..|outcomes| - 1])
  }

  lemma StreakSnoc(outcomes: seq<bool>, failed: bool)
    ensures Streak(outcomes + [failed]) == if failed then Streak(outcomes) + 1 else 0
  {
    assert (outcomes + [failed])[..|outcomes|] == outcomes;
  }

  lemma {:induction false} StreakIsSuffix(outcomes: seq<bool>, n: nat)
    ensures Streak(outcomes) >= n <==>
      n <= |outcomes| && forall i :: |outcomes| - n <= i < |outcomes| ==> outcomes[i]
    decreases n
  {
    if n > 0 && outcomes != [] {
      StreakIsSuffix(outcomes[..|outcomes| - 1], n - 1);
    }
  }

  class CircuitBreaker {
    var failures: nat
    var openedAt: Option<real>

    /** Of every call let through so far, whether it failed. */
    ghost var outcomes: seq<bool>

    /** Also between letting a call through and recording its outcome. */
    ghost predicate Consistent()
      reads this
    {
      && (openedAt.Some? ==> failures >= BREAKER_THRESHOLD)
      && (if Streak(outcomes) < BREAKER_THRESHOLD then failures == Streak(outcomes)
          else failures >= BREAKER_THRESHOLD - 1)
    }

    /** Open exactly if at least the last three calls let through have failed. */
    ghost predicate Settled()
      reads this
    {
      Consistent() && (openedAt.Some? <==> Streak(outcomes) >= BREAKER_THRESHOLD)
    }

    constructor ()
      ensures Settled() && failures == 0 && openedAt.None? && outcomes == []
    {
      failures, openedAt, outcomes := 0, None, [];
    }

    /** Closed, or open for at least the window. */
    predicate Allows(now: real)
      reads this
    {
      openedAt.None? || now - openedAt.value >= BREAKER_OPEN_SECONDS
    }

    /** What a call leaves behind. One that was not let through changes nothing. Otherwise a success closes the breaker
        and forgets all failures; a failure is counted, and the third opens it; a call that an open breaker let through
        is the third, but a purge, which does not ask, only adds to the count of an open one. */
    twostate predicate Records(asked: bool, failed: bool, now: real)
      reads this
    {
      var retried := asked && old(openedAt).Some?;
      if asked && !old(Allows(now)) then
        failures == old(failures) && openedAt == old(openedAt) && outcomes == old(outcomes)
      else
        && outcomes == old(outcomes) + [failed]
        && failures == (if !failed then 0 else if retried then BREAKER_THRESHOLD else old(failures) + 1)
        && openedAt == (if failures < BREAKER_THRESHOLD then None
                        else if retried || old(openedAt).None? then Some(now)
                        else old(openedAt))
    }

    /** When an open breaker lets a call through, the next failure opens it again. */
    method Allow(now: real) returns (allowed: bool)
      requires Consistent()
      modifies this`failures, this`openedAt
      ensures Consistent()
      ensures allowed <==> old(Allows(now))
      ensures allowed ==> openedAt.None? && (old(openedAt.Some?) ==> failures == BREAKER_THRESHOLD - 1)
      ensures !allowed || old(openedAt.None?) ==> openedAt == old(openedAt) && failures == old(failures)
    {
      if openedAt.None? {
        return true;
      }
      if now - openedAt.value >= BREAKER_OPEN_SECONDS {
        openedAt := None;
        failures := BREAKER_THRESHOLD - 1;
        return true;
      }
      return false;
    }

    method Success()
      modifies this
      ensures Settled() && failures == 0 && openedAt.None? && outcomes == old(outcomes) + [false]
    {
      StreakSnoc(outcomes, false);
      failures, openedAt := 0, None;
      outcomes := outcomes + [false];
    }

    method Failure(now: real) returns (tripped: bool)
      requires Consistent()
      modifies this
      ensures Settled() && failures == old(failures) + 1 && outcomes == old(outcomes) + [true]
      ensures tripped <==> old(openedAt.None?) && old(failures) + 1 >= BREAKER_THRESHOLD
      ensures openedAt == if tripped then Some(now) else old(openedAt)
    {
      StreakSnoc(outcomes, true);
      failures := failures + 1;
      tripped := failures >= BREAKER_THRESHOLD && openedAt.None?;
      if tripped {
        openedAt := Some(now);
      }
      outcomes := outcomes + [true];
    }
  }

  // ----- Redis -----

  class Redis {
    var data: Data
    var index: Index
    var epoch: nat

    /** How many commands have failed. */
    ghost var errors: nat

    constructor ()
      ensures data == map[] && index == map[] && epoch == 0
    {
      data, index, epoch, errors := map[], map[], 0, 0;
    }

    /** Whether a command is answered. */
    method Answers() returns (ok: bool)
      modifies this`errors
      ensures errors == old(errors) + if ok then 0 else 1
    {
      ok := *;
      if !ok {
        errors := errors + 1;
      }
    }

    /** INCR of the epoch key. */
    method Incr() returns (ok: bool)
      modifies this`epoch, this`errors
      ensures errors == old(errors) + if ok then 0 else 1
      ensures epoch == old(epoch) + 1 || (!ok && epoch == old(epoch))
    {
      ok := Answers();
      var applied: bool := *;
      if ok || applied {
        epoch := epoch + 1;
      }
    }

    method Smembers(name: string) returns (ok: bool, members: seq<string>)
      modifies this`errors
      ensures errors == old(errors) + if ok then 0 else 1
      ensures ok ==> forall k :: k in members <==> k in Members(index, name)
    {
      ok := Answers();
      members := [];
      var rest := Members(index, name);
      while rest != {}
        invariant forall k :: k in Members(index, name) <==> k in rest || k in members
        decreases rest
      {
        var k :| k in rest;
        rest := rest - {k};
        members := members + [k];
      }
    }

    method Unlink(names: set<string>) returns (ok: bool)
      modifies this`data, this`index, this`errors
      ensures errors == old(errors) + if ok then 0 else 1
      ensures ok ==> data == old(data) - names && index == old(index) - names
      ensures !ok ==>
          (data == old(data) && index == old(index)) || (data == old(data) - names && index == old(index) - names)
    {
      ok := Answers();
      var applied: bool := *;
      if ok || applied {
        data, index := data - names, index - names;
      }
    }

    method Srem(name: string, keys: set<string>) returns (ok: bool)
      modifies this`index, this`errors
      ensures errors == old(errors) + if ok then 0 else 1
      ensures forall n :: n != name ==> Members(index, n) == old(Members(index, n))
      ensures ok ==> Members(index, name) == old(Members(index, name)) - keys
      ensures !ok ==>
          Members(index, name) == old(Members(index, name)) || Members(index, name) == old(Members(index, name)) - keys
      ensures index.Keys == old(index.Keys)
    {
      ok := Answers();
      var applied: bool := *;
      if (ok || applied) && name in index {
        index := index[name := index[name] - keys];
      }
    }

    /** The transaction of `_drop_keys`: the keys leave the data and every index they belong to, or nothing happens. */
    method DropPipeline(prefix: string, keys: set<string>) returns (ok: bool)
      requires Separate(prefix, data, index)
      requires forall k :: k in keys ==> DataKey(prefix, k)
      modifies this`data, this`index, this`errors
      ensures errors == old(errors) + if ok then 0 else 1
      ensures ok ==> data == old(data) - keys && index == Unindexed(prefix, old(index), keys)
      ensures !ok ==> (data == old(data) && index == old(index)) ||
                      (data == old(data) - keys && index == Unindexed(prefix, old(index), keys))
    {
      ok := Answers();
      var applied: bool := *;
      if ok || applied {
        data, index := data - keys, Unindexed(prefix, index, keys);
      }
    }

    /** The transaction of `cache_set`: SET, SADD of every index, SCARD of the first and GET of the epoch. */
    method SetPipeline(prefix: string, key: string, entry: Entry) returns (ok: bool, size: nat, seen: nat)
      modifies this`data, this`index, this`errors
      ensures errors == old(errors) + if ok then 0 else 1
      ensures ok ==> data == old(data)[key := entry] && index == Added(old(index), IndexNames(prefix, key), key)
      ensures ok ==> seen == epoch &&
                     (IndexNames(prefix, key) != [] ==> size == |Members(index, IndexNames(prefix, key)[0])|)
      ensures !ok ==> (data == old(data) && index == old(index)) ||
                      (data == old(data)[key := entry] && index == Added(old(index), IndexNames(prefix, key), key))
    {
      ok := Answers();
      var applied: bool := *;
      if ok || applied {
        data, index := data[key := entry], Added(index, IndexNames(prefix, key), key);
      }
      size := if IndexNames(prefix, key) == [] then 0 else |Members(index, IndexNames(prefix, key)[0])|;
      seen := epoch;
    }

    method Get(key: string) returns (ok: bool, value: Option<Entry>)
      modifies this`errors
      ensures errors == old(errors) + if ok then 0 else 1
      ensures ok ==> value == if key in data then Some(data[key]) else None
    {
      ok := Answers();
      value := if key in data then Some(data[key]) else None;
    }

    method GetEpoch() returns (ok: bool, value: nat)
      modifies this`errors
      ensures errors == old(errors) + if ok then 0 else 1
      ensures ok ==> value == epoch
    {
      ok := Answers();
      value := epoch;
    }

    /** SCAN of every name under the prefix, in any order. */
    method Scan(prefix: string) returns (names: seq<string>)
      ensures forall n :: n in names <==>
          InPrefix(prefix, n) && (n in data || n in index || (n == EpochKey(prefix) && epoch > 0))
    {
      var present := data.Keys + index.Keys + if epoch > 0 then {EpochKey(prefix)} else {};
      var rest := set n | n in present && InPrefix(prefix, n);
      ghost var all := rest;
      names := [];
      while rest != {}
        invariant forall n :: n in all <==> n in rest || n in names
        decreases rest
      {
        var n :| n in rest;
        rest := rest - {n};
        names := names + [n];
      }
    }
  }

  // ----- The client -----

  /** The members that start with the given prefix; all of them without one. */
  function Matching(members: seq<string>, keyPrefix: Option<string>): (r: seq<string>)
    ensures forall k :: k in r <==> k in members && Matches(keyPrefix, k)
  {
    if members == [] then []
    else (if Matches(keyPrefix, members[0]) then [members[0]] else []) + Matching(members[1..], keyPrefix)
  }

  predicate Matches(keyPrefix: Option<string>, key: string) {
    keyPrefix.None? || keyPrefix.value <= key
  }

  function ToSet(s: seq<string>): set<string> {
    set k | k in s
  }

  lemma ToSetSplits(s: seq<string>, i: nat, j: nat)
    requires i <= j <= |s|
    ensures ToSet(s[..j]) == ToSet(s[..i]) + ToSet(s[i..j])
  {
    assert s[..j] == s[..i] + s[i..j];
  }

  /** SREM of dead keys keeps every live key indexed. */
  lemma DeadSremKeepsIndexed(prefix: string, data: Data, c: Index, d: Index, name: string, keys: set<string>)
    requires Indexed(prefix, data, c) && keys !! data.Keys
    requires forall n :: n != name ==> Members(d, n) == Members(c, n)
    requires Members(d, name) >= Members(c, name) - keys
    ensures Indexed(prefix, data, d)
  {
  }

  /** `gone` has left the data and the set `name`; the other sets are as they were. */
  ghost predicate Purged(d: Data, index: Index, name: string, gone: set<string>, d': Data, index': Index) {
    && d' == d - gone
    && Members(index', name) == Members(index, name) - gone
    && forall n :: n != name ==> Members(index', n) == Members(index, n)
  }

  lemma PurgedMore(d: Data, index: Index, name: string, gone: set<string>, d1: Data, index1: Index,
                   chunk: set<string>, d2: Data, index2: Index)
    requires Purged(d, index, name, gone, d1, index1) && Purged(d1, index1, name, chunk, d2, index2)
    ensures Purged(d, index, name, gone + chunk, d2, index2)
  {
  }

  lemma SeparateShrinks(prefix: string, d: Data, index: Index, names: set<string>)
    requires Separate(prefix, d, index)
    ensures Separate(prefix, d - names, index - names)
  {
    forall n, k | k in Members(index - names, n) ensures k in Members(index, n) {
    }
  }

  lemma UnindexedKeepsIndexed(prefix: string, d: Data, index: Index, keys: set<string>)
    requires Indexed(prefix, d, index)
    ensures Indexed(prefix, d - keys, Unindexed(prefix, index, keys))
  {
    var after := Unindexed(prefix, index, keys);
    forall k, n | k in d - keys && n in IndexNames(prefix, k) ensures k in Members(after, n) {
      assert k in Members(index, n);
    }
  }

  lemma UnindexedKeepsSeparate(prefix: string, d: Data, index: Index, keys: set<string>)
    requires Separate(prefix, d, index)
    ensures Separate(prefix, d - keys, Unindexed(prefix, index, keys))
  {
    var after := Unindexed(prefix, index, keys);
    forall n, k | k in Members(after, n) ensures DataKey(prefix, k) && n in IndexNames(prefix, k) {
      assert k in Members(index, n);
    }
  }

  lemma StoreKeepsIndexes(prefix: string, data: Data, index: Index, key: string, entry: Entry)
    requires Separate(prefix, data, index) && Indexed(prefix, data, index) && DataKey(prefix, key)
    ensures Separate(prefix, data[key := entry], Added(index, IndexNames(prefix, key), key))
    ensures Indexed(prefix, data[key := entry], Added(index, IndexNames(prefix, key), key))
  {
    NamesAreIndexKeys(prefix, key);
  }

  lemma OutdatedGrows(prefix: string, history: seq<Purge>, p: Purge)
    ensures forall k, stamp :: Outdated(prefix, history + [p], k, stamp) ==>
              Outdated(prefix, history, k, stamp) ||
              (InPrefix(prefix, k) && Hits(prefix, p.namespaces, p.keys, p.flush, k))
  {
  }

  lemma NamesAreIndexKeys(prefix: string, key: string)
    ensures forall n :: n in IndexNames(prefix, key) ==> IndexKey(prefix, n)
  {
  }

  /** The epoch counter lies under the prefix; it is neither an index set nor in one. */
  lemma EpochKeyStandsApart(prefix: string)
    ensures InPrefix(prefix, EpochKey(prefix)) && !IndexKey(prefix, EpochKey(prefix))
    ensures IndexNames(prefix, EpochKey(prefix)) == []
  {
    var key := EpochKey(prefix);
    assert key[..|prefix| + 1] == prefix + ":" && key[|prefix| + 1..] == "__epoch";
    assert (prefix + ":__idx:")[|prefix| + 3] == 'i' && key[|prefix| + 3] == 'e';
    SplitFirst("__epoch", "");
  }

  /** A scan of the prefix meets every index set. */
  lemma ScanMeetsIndexes(prefix: string, names: seq<string>, index: Index)
    requires forall n :: n in index ==> IndexKey(prefix, n)
    requires forall n :: InPrefix(prefix, n) && n in index ==> n in names
    ensures forall n :: n in index ==> n in names && n != EpochKey(prefix)
  {
    forall n | n in index ensures InPrefix(prefix, n) && n != EpochKey(prefix) {
      assert n[|prefix| + 1 .. |prefix| + 4] == "__i" && EpochKey(prefix)[|prefix| + 1 .. |prefix| + 4] == "__e";
      assert prefix + ":" == n[..|prefix| + 1];
    }
  }

  /** The data loses nothing but keys under the prefix. */
  ghost predicate LosesPrefixed(prefix: string, before: Data, after: Data) {
    Within(after, before) && forall k :: k in before && k !in after ==> InPrefix(prefix, k)
  }

  /** `gone` has been unlinked. */
  ghost predicate TakenAway(d: Data, index: Index, gone: set<string>, d': Data, index': Index) {
    d' == d - gone && index' == index - gone
  }

  lemma TakenAwayMore(prefix: string, d: Data, index: Index, gone: set<string>, d': Data, index': Index,
                  batch: set<string>)
    requires TakenAway(d, index, gone, d', index') && LosesPrefixed(prefix, d, d')
    requires forall n :: n in batch ==> InPrefix(prefix, n)
    ensures TakenAway(d, index, gone + batch, d' - batch, index' - batch)
    ensures LosesPrefixed(prefix, d, d' - batch)
  {
  }

  /** `taken` holds the names of a scan that a full flush deletes. */
  ghost predicate Gathered(prefix: string, names: seq<string>, taken: set<string>) {
    && (forall n :: n in taken ==> InPrefix(prefix, n))
    && forall n :: n in names ==> n == EpochKey(prefix) || n in taken
  }

  lemma GatheredNext(prefix: string, names: seq<string>, i: nat, taken: set<string>)
    requires i < |names| && Gathered(prefix, names[..i], taken) && InPrefix(prefix, names[i])
    ensures names[i] == EpochKey(prefix) ==> Gathered(prefix, names[..i + 1], taken)
    ensures Gathered(prefix, names[..i + 1], taken + {names[i]})
  {
    assert names[..i + 1] == names[..i] + [names[i]];
  }

  /** What is taken away then leaves nothing under the prefix, and no index set. */
  lemma ScanClears(prefix: string, names: seq<string>, d: Data, index: Index, taken: set<string>)
    requires Separate(prefix, d, index) && Gathered(prefix, names, taken)
    requires forall n :: InPrefix(prefix, n) && (n in d || n in index) ==> n in names
    ensures forall k :: k in d - taken ==> !InPrefix(prefix, k)
    ensures (index - taken).Keys == {}
  {
    ScanMeetsIndexes(prefix, names, index);
  }

  /** What a purge of `namespace` matches in its index are the live keys of the namespace, and dead ones. */
  lemma MatchedMembers(prefix: string, namespace: string, data: Data, index: Index, keyPrefix: Option<string>)
    requires Separate(prefix, data, index) && Indexed(prefix, data, index)
    requires keyPrefix == if |Split(namespace)| >= 3 then Some(prefix + ":" + namespace + ":") else None
    ensures forall k :: k in Members(index, PurgedIndex(prefix, namespace)) ==>
              (Matches(keyPrefix, k) <==> Under(prefix, namespace, k))
    ensures forall k :: k in data && Under(prefix, namespace, k) ==> k in Members(index, PurgedIndex(prefix, namespace))
  {
    forall k
      ensures PurgedIndex(prefix, namespace) in IndexNames(prefix, k) && Selected(prefix, namespace, k) <==>
              Under(prefix, namespace, k)
    {
      IndexSelectsNamespace(prefix, namespace, k);
    }
  }

  class Cache {
    const prefix: string
    const redis: Redis
    const pending: PendingPurges
    const breaker: CircuitBreaker
    const maxKeys: nat

    /** Operations so far (they stamp the values they store), and the purges requested by them. */
    var clock: nat
    ghost var history: seq<Purge>

    constructor (prefix: string, maxKeys: nat)
      ensures Valid() && fresh(redis) && fresh(pending) && fresh(breaker) && redis.data == map[] && history == []
      ensures this.prefix == prefix && this.maxKeys == maxKeys
    {
      this.prefix, this.maxKeys := prefix, maxKeys;
      redis := new Redis();
      pending := new PendingPurges();
      breaker := new CircuitBreaker();
      clock, history := 0, [];
    }

    /** A value that an earlier purge should have removed is remembered as still to be purged. */
    ghost predicate Remembered()
      reads this, redis, pending
    {
      forall k :: k in redis.data && Outdated(prefix, history, k, redis.data[k].stamp) ==> pending.Covers(prefix, k)
    }

    ghost predicate Valid()
      reads this, redis, pending, breaker
    {
      Sound() && breaker.Settled()
    }

    /** What also holds in the middle of an operation. */
    ghost predicate Sound()
      reads this, redis, pending, breaker
    {
      && pending.Bounded() && (forall k :: k in pending.keys ==> DataKey(prefix, k)) && breaker.Consistent()
      && Separate(prefix, redis.data, redis.index)
      && (pending.flush || Indexed(prefix, redis.data, redis.index))
      && Remembered()
      && (forall k :: k in redis.data ==> redis.data[k].stamp < clock)
      && (forall i :: 0 <= i < |history| ==> history[i].at < clock)
    }

    /** Nothing live is out of date. */
    ghost predicate Current()
      reads this, redis
    {
      forall k :: k in redis.data ==> !Outdated(prefix, history, k, redis.data[k].stamp)
    }

    /** The purge is complete and nothing older is left to do. */
    ghost predicate Cleared(namespaces: set<string>, keys: set<string>, flush: bool)
      reads this, redis, pending
    {
      pending.IsEmpty() &&
      forall k :: k in redis.data && InPrefix(prefix, k) ==> !Hits(prefix, namespaces, keys, flush, k)
    }

    /** One round of `_purge_index`: UNLINK of a chunk of members, then their SREM. */
    method PurgeChunk(name: string, chunk: set<string>) returns (ok: bool)
      requires Separate(prefix, redis.data, redis.index) && Indexed(prefix, redis.data, redis.index)
      requires forall k :: k in chunk ==> DataKey(prefix, k)
      modifies redis`data, redis`index, redis`errors
      ensures ok <==> redis.errors == old(redis.errors)
      ensures redis.errors >= old(redis.errors)
      ensures Separate(prefix, redis.data, redis.index) && Indexed(prefix, redis.data, redis.index)
      ensures ok ==> redis.data == old(redis.data) - chunk
      ensures !ok ==> redis.data == old(redis.data) || redis.data == old(redis.data) - chunk
      ensures ok ==> Members(redis.index, name) == old(Members(redis.index, name)) - chunk
      ensures forall n :: n != name ==> Members(redis.index, n) == old(Members(redis.index, n))
    {
      ghost var index := redis.index;
      assert chunk !! index.Keys;
      assert index - chunk == index;
      ok := redis.Unlink(chunk);
      if ok {
        ok := redis.Srem(name, chunk);
        DeadSremKeepsIndexed(prefix, redis.data, index, redis.index, name, chunk);
      }
    }

    /** `_purge_index`: exactly the selected members are deleted, chunk by chunk; on a failure some of them are. No live
        key loses an index entry. */
    method PurgeIndex(name: string, keyPrefix: Option<string>) returns (ok: bool, removed: set<string>)
      requires Separate(prefix, redis.data, redis.index) && Indexed(prefix, redis.data, redis.index)
      modifies redis`data, redis`index, redis`errors
      ensures ok <==> redis.errors == old(redis.errors)
      ensures redis.errors >= old(redis.errors)
      ensures Separate(prefix, redis.data, redis.index) && Indexed(prefix, redis.data, redis.index)
      ensures Within(redis.data, old(redis.data))
      ensures forall k :: k in old(redis.data) && k !in redis.data ==>
          k in old(Members(redis.index, name)) && Matches(keyPrefix, k)
      ensures ok ==> removed == set k | k in old(Members(redis.index, name)) && Matches(keyPrefix, k)
      ensures ok ==> redis.data == old(redis.data) - removed
      ensures ok ==> Members(redis.index, name) == old(Members(redis.index, name)) - removed
      ensures forall n :: n != name ==> Members(redis.index, n) == old(Members(redis.index, n))
    {
      var found, all := redis.Smembers(name);
      if !found {
        return false, {};
      }
      var members := Matching(all, keyPrefix);
      var start := 0;
      ghost var gone := {};
      assert forall k :: k in ToSet(members) ==>
        DataKey(prefix, k) && k in old(Members(redis.index, name)) && Matches(keyPrefix, k);
      while start < |members|
        invariant 0 <= start <= |members| && redis.errors == old(redis.errors)
        invariant Separate(prefix, redis.data, redis.index) && Indexed(prefix, redis.data, redis.index)
        invariant gone == ToSet(members[..start])
        invariant Purged(old(redis.data), old(redis.index), name, gone, redis.data, redis.index)
      {
        var stop := if start + UNLINK_CHUNK <= |members| then start + UNLINK_CHUNK else |members|;
        ToSetSplits(members, start, stop);
        ghost var chunk, data, index := ToSet(members[start..stop]), redis.data, redis.index;
        assert chunk <= ToSet(members);
        ok := PurgeChunk(name, ToSet(members[start..stop]));
        if !ok {
          return false, {};
        }
        PurgedMore(old(redis.data), old(redis.index), name, gone, data, index, chunk, redis.data, redis.index);
        start, gone := stop, gone + chunk;
      }
      assert members[..start] == members;
      return true, ToSet(members);
    }

    /** Whether a purge of `namespace` that starts from `index` takes `key` out of the set `name`. */
    predicate Unlists(namespace: string, name: string, key: string, index: Index) {
      && (name == PurgedIndex(prefix, namespace) || name in AlsoCleared(prefix, namespace))
      && key in Members(index, PurgedIndex(prefix, namespace)) && Under(prefix, namespace, key)
    }

    /** `_purge_namespace`: with its index complete, a purge deletes exactly the live keys that start with
        `<prefix>:<namespace>:`, whatever the depth of the namespace; a failed purge deletes only such keys. */
    method PurgeNamespace(namespace: string) returns (ok: bool)
      requires Separate(prefix, redis.data, redis.index) && Indexed(prefix, redis.data, redis.index)
      modifies redis`data, redis`index, redis`errors
      ensures ok <==> redis.errors == old(redis.errors)
      ensures redis.errors >= old(redis.errors)
      ensures Separate(prefix, redis.data, redis.index) && Indexed(prefix, redis.data, redis.index)
      ensures Within(redis.data, old(redis.data))
      ensures forall k :: k in old(redis.data) && k !in redis.data ==> Under(prefix, namespace, k)
      ensures ok ==> forall k :: k in redis.data ==> !Under(prefix, namespace, k)
      ensures ok ==> forall n, k :: k in Members(redis.index, n) <==>
                k in old(Members(redis.index, n)) && !Unlists(namespace, n, k, old(redis.index))
    {
      var segments := Split(namespace);
      var name := PurgedIndex(prefix, namespace);
      var keyPrefix := if |segments| >= 3 then Some(prefix + ":" + namespace + ":") else None;
      MatchedMembers(prefix, namespace, redis.data, redis.index, keyPrefix);
      var removed;
      ok, removed := PurgeIndex(name, keyPrefix);
      assert ok ==> forall k :: k in removed <==> k in old(Members(redis.index, name)) && Under(prefix, namespace, k);
      if ok && |segments| >= 2 && removed != {} {
        ghost var index := redis.index;
        ok := redis.Srem(TopIndex(prefix, segments[0]), removed);
        DeadSremKeepsIndexed(prefix, redis.data, index, redis.index, TopIndex(prefix, segments[0]), removed);
      }
      forall n, k | ok
        ensures k in Members(redis.index, n) <==>
            k in old(Members(redis.index, n)) && !Unlists(namespace, n, k, old(redis.index))
      {
        assert Unlists(namespace, n, k, old(redis.index)) <==>
          (n == name || (|segments| >= 2 && n == TopIndex(prefix, segments[0]))) && k in removed;
      }
    }

    /** One UNLINK of a full flush. */
    method UnlinkBatch(batch: set<string>) returns (ok: bool)
      requires Separate(prefix, redis.data, redis.index)
      modifies redis`data, redis`index, redis`errors
      ensures redis.errors == old(redis.errors) + if ok then 0 else 1
      ensures Separate(prefix, redis.data, redis.index)
      ensures redis.data == old(redis.data) || redis.data == old(redis.data) - batch
      ensures ok ==> redis.data == old(redis.data) - batch && redis.index == old(redis.index) - batch
    {
      SeparateShrinks(prefix, redis.data, redis.index, batch);
      ok := redis.Unlink(batch);
    }

    /** The names of a scan are unlinked in batches. */
    method UnlinkNames(names: seq<string>) returns (ok: bool)
      requires Separate(prefix, redis.data, redis.index) && forall n :: n in names ==> InPrefix(prefix, n)
      modifies redis`data, redis`index, redis`errors
      ensures redis.errors >= old(redis.errors) && (ok <==> redis.errors == old(redis.errors))
      ensures Separate(prefix, redis.data, redis.index) && LosesPrefixed(prefix, old(redis.data), redis.data)
      ensures ok ==> exists taken ::
                && Gathered(prefix, names, taken)
                && TakenAway(old(redis.data), old(redis.index), taken, redis.data, redis.index)
    {
      var batch: seq<string> := [];
      ghost var gone: set<string> := {};
      for i := 0 to |names|
        invariant Separate(prefix, redis.data, redis.index) && LosesPrefixed(prefix, old(redis.data), redis.data)
        invariant TakenAway(old(redis.data), old(redis.index), gone, redis.data, redis.index)
        invariant redis.errors == old(redis.errors)
        invariant Gathered(prefix, names[..i], gone + ToSet(batch))
      {
        ok := redis.Answers();
        if !ok {
          return;
        }
        GatheredNext(prefix, names, i, gone + ToSet(batch));
        if names[i] != EpochKey(prefix) {
          assert ToSet(batch + [names[i]]) == ToSet(batch) + {names[i]};
          batch := batch + [names[i]];
          if |batch| >= UNLINK_CHUNK {
            TakenAwayMore(prefix, old(redis.data), old(redis.index), gone, redis.data, redis.index, ToSet(batch));
            ok := UnlinkBatch(ToSet(batch));
            if !ok {
              return false;
            }
            gone := gone + ToSet(batch);
            batch := [];
          }
        }
      }
      ok := true;
      assert names[..|names|] == names;
      TakenAwayMore(prefix, old(redis.data), old(redis.index), gone, redis.data, redis.index, ToSet(batch));
      if batch != [] {
        ok := UnlinkBatch(ToSet(batch));
      }
      assert Gathered(prefix, names, gone + ToSet(batch));
    }

    /** `_scan_delete` of `<prefix>:*`: everything under the prefix goes, indexes included, except the epoch counter. */
    method ScanDelete() returns (ok: bool)
      requires Separate(prefix, redis.data, redis.index)
      modifies redis`data, redis`index, redis`errors
      ensures ok <==> redis.errors == old(redis.errors)
      ensures redis.errors >= old(redis.errors)
      ensures Separate(prefix, redis.data, redis.index) && Within(redis.data, old(redis.data))
      ensures forall k :: k in old(redis.data) && k !in redis.data ==> InPrefix(prefix, k)
      ensures ok ==> forall k :: k in redis.data ==> !InPrefix(prefix, k)
      ensures ok ==> redis.index.Keys == {}
    {
      ok := redis.Answers();
      if !ok {
        return;
      }
      var names := redis.Scan(prefix);
      ok := UnlinkNames(names);
      if ok {
        ghost var taken :|
          && Gathered(prefix, names, taken)
          && TakenAway(old(redis.data), old(redis.index), taken, redis.data, redis.index);
        ScanClears(prefix, names, old(redis.data), old(redis.index), taken);
      }
    }

    /** `_drop_keys` */
    method DropKeys(keys: set<string>) returns (ok: bool)
      requires Separate(prefix, redis.data, redis.index) && Indexed(prefix, redis.data, redis.index)
      requires forall k :: k in keys ==> DataKey(prefix, k)
      modifies redis`data, redis`index, redis`errors
      ensures ok <==> redis.errors == old(redis.errors)
      ensures redis.errors >= old(redis.errors)
      ensures Separate(prefix, redis.data, redis.index) && Indexed(prefix, redis.data, redis.index)
      ensures ok ==> redis.data == old(redis.data) - keys
      ensures ok ==> forall n, k :: k in Members(redis.index, n) <==>
                k in old(Members(redis.index, n)) && !(k in keys && n in IndexNames(prefix, k))
      ensures !ok ==> redis.data == old(redis.data) || redis.data == old(redis.data) - keys
    {
      ok := true;
      if keys != {} {
        UnindexedKeepsIndexed(prefix, redis.data, redis.index, keys);
        UnindexedKeepsSeparate(prefix, redis.data, redis.index, keys);
        ok := redis.DropPipeline(prefix, keys);
      }
    }

    /** `_apply_purge`: bump the epoch, then delete everything (`flush`) or the namespaces and the exact keys. */
    method ApplyPurge(namespaces: set<string>, keys: set<string>, flush: bool) returns (ok: bool)
      requires Separate(prefix, redis.data, redis.index) && (flush || Indexed(prefix, redis.data, redis.index))
      requires forall k :: k in keys ==> DataKey(prefix, k)
      modifies redis
      ensures ok <==> redis.errors == old(redis.errors)
      ensures redis.errors >= old(redis.errors)
      ensures Separate(prefix, redis.data, redis.index) && Within(redis.data, old(redis.data))
      ensures (flush && !ok) || Indexed(prefix, redis.data, redis.index)
      ensures ok ==> forall k :: k in redis.data && InPrefix(prefix, k) ==> !Hits(prefix, namespaces, keys, flush, k)
      ensures forall k :: k in old(redis.data) && k !in redis.data ==> Hits(prefix, namespaces, keys, flush, k)
      ensures ok ==> redis.epoch == old(redis.epoch) + 1
      ensures old(redis.epoch) <= redis.epoch <= old(redis.epoch) + 1
    {
      ok := redis.Incr();
      if !ok {
        return;
      }
      if flush {
        ok := ScanDelete();
        return;
      }
      var rest := namespaces;
      while rest != {}
        invariant rest <= namespaces
        invariant Separate(prefix, redis.data, redis.index) && Indexed(prefix, redis.data, redis.index)
        invariant Within(redis.data, old(redis.data)) && redis.epoch == old(redis.epoch) + 1
        invariant redis.errors == old(redis.errors)
        invariant forall k, n :: k in redis.data && n in namespaces - rest ==> !Under(prefix, n, k)
        invariant forall k :: k in old(redis.data) && k !in redis.data ==> Hits(prefix, namespaces, keys, flush, k)
        decreases rest
      {
        var n :| n in rest;
        ok := PurgeNamespace(n);
        if !ok {
          return;
        }
        rest := rest - {n};
      }
      ok := DropKeys(keys);
    }

    /** `_replay_pending`: afterwards nothing live is out of date, or everything that is stays remembered. */
    method ReplayPending() returns (ok: bool)
      requires Sound()
      modifies redis, pending
      ensures ok <==> redis.errors == old(redis.errors)
      ensures redis.errors >= old(redis.errors)
      ensures forall k :: k in old(redis.data) && k !in redis.data ==> old(pending.Covers(prefix, k))
      ensures Sound() && Within(redis.data, old(redis.data))
      ensures Replayed()
      ensures ok ==> pending.IsEmpty() && Current()
      ensures !ok ==> pending.Same()
    {
      if pending.IsEmpty() {
        return true;
      }
      var namespaces, keys, flush := pending.Take();
      ok := ApplyPurge(namespaces, keys, flush);
      if !ok {
        pending.Add(namespaces, keys, flush);
        GivenBack(namespaces, keys, flush);
      }
    }

    /** The body of `_purge`: replay older purges, apply this one; if Redis fails, remember it for a retry. */
    method PurgeOrRemember(namespaces: set<string>, keys: set<string>, flush: bool, now: real)
      requires Valid() && forall k :: k in keys ==> DataKey(prefix, k)
      modifies redis, pending, breaker
      ensures Valid() && Within(redis.data, old(redis.data))
      ensures forall k :: k in redis.data && InPrefix(prefix, k) && Hits(prefix, namespaces, keys, flush, k) ==>
                pending.Covers(prefix, k)
      ensures redis.errors == old(redis.errors) ==> Cleared(namespaces, keys, flush)
      ensures forall k :: k in old(redis.data) && k !in redis.data ==>
                old(pending.Covers(prefix, k)) || Hits(prefix, namespaces, keys, flush, k)
      ensures breaker.Records(false, redis.errors != old(redis.errors), now)
      ensures redis.errors != old(redis.errors) ==>
                || pending.Holds(old(pending.namespaces), old(pending.keys), old(pending.flush), namespaces, keys,
                                 flush)
                || pending.Holds({}, {}, false, namespaces, keys, flush)
    {
      var ok := ReplayPending();
      if ok {
        ok := ApplyPurge(namespaces, keys, flush);
      }
      if ok {
        breaker.Success();
      } else {
        pending.Add(namespaces, keys, flush);
        var _ := breaker.Failure(now);
      }
    }

    /** `_purge`, as called by `cache_delete_many` and `cache_flush_all`. Nothing is lost: whatever the purge was to
        remove is gone when it returns, or remembered. */
    method RunPurge(namespaces: set<string>, keys: set<string>, flush: bool, now: real)
      requires Valid() && forall k :: k in keys ==> DataKey(prefix, k)
      modifies this, redis, pending, breaker
      ensures Valid() && Within(redis.data, old(redis.data))
      ensures history == old(history) + [Purge(namespaces, keys, flush, old(clock))] && clock == old(clock) + 1
      ensures forall k :: k in redis.data && InPrefix(prefix, k) && Hits(prefix, namespaces, keys, flush, k) ==>
                pending.Covers(prefix, k)
      ensures redis.errors == old(redis.errors) ==> Cleared(namespaces, keys, flush)
      ensures forall k :: k in old(redis.data) && k !in redis.data ==>
                old(pending.Covers(prefix, k)) || Hits(prefix, namespaces, keys, flush, k)
      ensures breaker.Records(false, redis.errors != old(redis.errors), now)
      ensures redis.errors != old(redis.errors) ==>
                || pending.Holds(old(pending.namespaces), old(pending.keys), old(pending.flush), namespaces, keys,
                                 flush)
                || pending.Holds({}, {}, false, namespaces, keys, flush)
    {
      PurgeOrRemember(namespaces, keys, flush, now);
      OutdatedGrows(prefix, history, Purge(namespaces, keys, flush, clock));
      history := history + [Purge(namespaces, keys, flush, clock)];
      clock := clock + 1;
    }

    /** `cache_delete_many` */
    method DeleteMany(namespaces: set<string>, keys: set<string>, now: real)
      requires Valid() && forall k :: k in keys ==> DataKey(prefix, k)
      modifies this, redis, pending, breaker
      ensures Valid() && Within(redis.data, old(redis.data))
      ensures namespaces != {} || keys != {} ==> history == old(history) + [Purge(namespaces, keys, false, old(clock))]
      ensures namespaces == {} && keys == {} ==> history == old(history)
      ensures redis.errors == old(redis.errors) && (namespaces != {} || keys != {}) ==> Cleared(namespaces, keys, false)
      ensures forall k :: k in old(redis.data) && k !in redis.data ==>
                old(pending.Covers(prefix, k)) || Hits(prefix, namespaces, keys, false, k)
      ensures namespaces == {} && keys == {} ==> unchanged(this, redis, pending, breaker)
      ensures namespaces != {} || keys != {} ==> breaker.Records(false, redis.errors != old(redis.errors), now)
    {
      if namespaces != {} || keys != {} {
        RunPurge(namespaces, keys, false, now);
      }
    }

    /** `cache_flush_all` */
    method FlushAll(now: real)
      requires Valid()
      modifies this, redis, pending, breaker
      ensures Valid() && Within(redis.data, old(redis.data))
      ensures history == old(history) + [Purge({}, {}, true, old(clock))]
      ensures redis.errors == old(redis.errors) ==> Cleared({}, {}, true)
      ensures forall k :: k in old(redis.data) && k !in redis.data ==>
                old(pending.Covers(prefix, k)) || InPrefix(prefix, k)
      ensures redis.errors != old(redis.errors) ==> pending.flush
      ensures breaker.Records(false, redis.errors != old(redis.errors), now)
    {
      RunPurge({}, {}, true, now);
    }

    method TryReadEpoch() returns (ok: bool, epoch: nat)
      requires Sound()
      modifies redis, pending
      ensures ok <==> redis.errors == old(redis.errors)
      ensures redis.errors >= old(redis.errors)
      ensures Sound() && Within(redis.data, old(redis.data))
      ensures ok ==> epoch == redis.epoch && Current() && pending.IsEmpty()
      ensures forall k :: k in old(redis.data) && k !in redis.data ==> old(pending.Covers(prefix, k))
      ensures Replayed()
    {
      epoch := 0;
      ok := ReplayPending();
      if ok {
        ok, epoch := redis.GetEpoch();
      }
    }

    /** `cache_epoch` */
    method ReadEpoch(now: real) returns (epoch: Option<nat>)
      requires Valid()
      modifies this`clock, redis, pending, breaker
      ensures Valid() && Within(redis.data, old(redis.data))
      ensures epoch.Some? ==> epoch.value == redis.epoch && Current() && pending.IsEmpty()
      ensures epoch.Some? <==> old(breaker.Allows(now)) && redis.errors == old(redis.errors)
      ensures forall k :: k in old(redis.data) && k !in redis.data ==> old(pending.Covers(prefix, k))
      ensures breaker.Records(true, redis.errors != old(redis.errors), now)
      ensures clock == old(clock) + 1 && Replayed()
    {
      epoch := None;
      clock := clock + 1;
      var allowed := breaker.Allow(now);
      if allowed {
        var ok, value := TryReadEpoch();
        if ok {
          breaker.Success();
          epoch := Some(value);
        } else {
          var _ := breaker.Failure(now);
        }
      }
    }

    method TryGet(key: string) returns (ok: bool, value: Option<Entry>)
      requires Sound()
      modifies redis, pending
      ensures ok <==> redis.errors == old(redis.errors)
      ensures redis.errors >= old(redis.errors)
      ensures Sound() && Within(redis.data, old(redis.data))
      ensures ok ==> value == (if key in redis.data then Some(redis.data[key]) else None) && Current()
      ensures forall k :: k in old(redis.data) && k !in redis.data ==> old(pending.Covers(prefix, k))
      ensures Replayed()
    {
      value := None;
      ok := ReplayPending();
      if ok {
        ok, value := redis.Get(key);
      }
    }

    /** `cache_get`: a value is never returned once a purge that covers its key was requested after it was stored,
        although any Redis command of that purge or of this call may have failed. */
    method Get(key: string, now: real) returns (value: Option<Entry>)
      requires Valid()
      modifies this`clock, redis, pending, breaker
      ensures Valid() && Within(redis.data, old(redis.data)) && history == old(history)
      ensures value.Some? ==> key in old(redis.data) && value.value == old(redis.data[key])
      ensures value.Some? ==> !Outdated(prefix, history, key, value.value.stamp)
      ensures value.Some? <==> old(breaker.Allows(now)) && redis.errors == old(redis.errors) && key in redis.data
      ensures forall k :: k in old(redis.data) && k !in redis.data ==> old(pending.Covers(prefix, k))
      ensures breaker.Records(true, redis.errors != old(redis.errors), now)
      ensures clock == old(clock) + 1 && Replayed()
    {
      value := None;
      clock := clock + 1;
      var allowed := breaker.Allow(now);
      if allowed {
        var ok;
        ok, value := TryGet(key);
        if ok {
          breaker.Success();
        } else {
          value := None;
          var _ := breaker.Failure(now);
        }
      }
    }

    lemma GivenBack(ns: set<string>, ks: set<string>, fl: bool)
      requires pending.Holds({}, {}, false, ns, ks, fl)
      requires |ns| + |ks| <= PENDING_MAX_KEYS && (fl ==> ns == {} && ks == {})
      ensures pending.namespaces == ns && pending.keys == ks && pending.flush == fl
    {
      assert {} + ns == ns && {} + ks == ks;
    }

    /** Nothing new is remembered, and the epoch moves only if something was to be replayed. */
    twostate predicate Replayed()
      reads redis, pending
    {
      && (pending.Same() || pending.IsEmpty())
      && old(redis.epoch) <= redis.epoch <= old(redis.epoch) + if old(pending.IsEmpty()) then 0 else 1
    }

    /** Why a value just set may be gone: the epoch has moved on, or its whole top namespace was flushed. */
    ghost predicate Displaced(key: string, epoch: Option<nat>)
      reads this, redis
    {
      || (epoch.Some? && epoch.value != redis.epoch)
      || (IndexNames(prefix, key) != [] && forall k :: k in redis.data ==> !Siblings(key, k))
    }

    predicate Siblings(a: string, b: string) {
      IndexNames(prefix, a) != [] && IndexNames(prefix, a)[0] in IndexNames(prefix, b)
    }

    ghost predicate Overflows(index: Index, key: string) {
      var names := IndexNames(prefix, key);
      names != [] && |Members(index, names[0]) + {key}| > maxKeys
    }

    /** The keys that go: the one just set if the epoch has moved on, or all members of an overflowing index. */
    ghost function Removed(key: string, epoch: Option<nat>, seen: nat, size: nat, index: Index): set<string> {
      var names := IndexNames(prefix, key);
      if epoch.Some? && epoch.value != seen then {key}
      else if names != [] && size > maxKeys then Members(index, names[0])
      else {}
    }

    /** What `cache_set` does once the pipeline ran: drop the value again if a purge ran since `epoch` was read, or
        flush the namespace when its index has outgrown the cap. */
    method AfterSet(key: string, epoch: Option<nat>, size: nat, seen: nat) returns (ok: bool)
      requires Separate(prefix, redis.data, redis.index) && Indexed(prefix, redis.data, redis.index) &&
          DataKey(prefix, key)
      modifies redis`data, redis`index, redis`errors
      ensures ok <==> redis.errors == old(redis.errors)
      ensures redis.errors >= old(redis.errors)
      ensures Separate(prefix, redis.data, redis.index) && Indexed(prefix, redis.data, redis.index)
      ensures Within(redis.data, old(redis.data))
      ensures ok ==> redis.data == old(redis.data) - Removed(key, epoch, seen, size, old(redis.index))
      ensures forall k :: k in old(redis.data) && k !in redis.data && k != key ==> Siblings(key, k)
    {
      ok := true;
      var names := IndexNames(prefix, key);
      if epoch.Some? && epoch.value != seen {
        ok := DropKeys({key});
      } else if names != [] && size > maxKeys {
        var removed;
        ok, removed := PurgeIndex(names[0], None);
      }
    }

    method StorePipeline(key: string, entry: Entry) returns (ok: bool, size: nat, seen: nat)
      requires Sound() && DataKey(prefix, key) && pending.IsEmpty()
      requires entry.stamp < clock && forall i :: 0 <= i < |history| ==> history[i].at <= entry.stamp
      modifies redis`data, redis`index, redis`errors
      ensures ok <==> redis.errors == old(redis.errors)
      ensures redis.errors >= old(redis.errors)
      ensures Sound()
      ensures redis.data == old(redis.data)[key := entry] || (!ok && redis.data == old(redis.data))
      ensures ok ==> redis.index == Added(old(redis.index), IndexNames(prefix, key), key) && seen == redis.epoch
      ensures ok && IndexNames(prefix, key) != [] ==> size == |Members(redis.index, IndexNames(prefix, key)[0])|
    {
      StoreKeepsIndexes(prefix, redis.data, redis.index, key, entry);
      ok, size, seen := redis.SetPipeline(prefix, key, entry);
    }

    method StoreNew(key: string, entry: Entry, epoch: Option<nat>) returns (ok: bool)
      requires Sound() && DataKey(prefix, key) && pending.IsEmpty()
      requires entry.stamp < clock && forall i :: 0 <= i < |history| ==> history[i].at <= entry.stamp
      modifies redis`data, redis`index, redis`errors
      ensures ok <==> redis.errors == old(redis.errors)
      ensures redis.errors >= old(redis.errors)
      ensures Sound()
      ensures Within(redis.data, old(redis.data)[key := entry]) || (!ok && Within(redis.data, old(redis.data)))
      ensures ok ==> (key in redis.data <==>
                        (epoch.None? || epoch.value == redis.epoch) && !Overflows(old(redis.index), key))
      ensures ok ==> key in redis.data || Displaced(key, epoch)
      ensures forall k :: k in old(redis.data) && k !in redis.data && k != key ==> Siblings(key, k)
    {
      var size, seen;
      ok, size, seen := StorePipeline(key, entry);
      assert ok ==> key in redis.data;
      if ok {
        ok := AfterSet(key, epoch, size, seen);
      }
    }

    method TrySet(key: string, entry: Entry, epoch: Option<nat>) returns (ok: bool)
      requires Sound() && DataKey(prefix, key)
      requires entry.stamp < clock && forall i :: 0 <= i < |history| ==> history[i].at <= entry.stamp
      modifies redis, pending
      ensures ok <==> redis.errors == old(redis.errors)
      ensures redis.errors >= old(redis.errors)
      ensures Sound() && Within(redis.data - {key}, old(redis.data))
      ensures key in redis.data ==> redis.data[key] == entry ||
                                    (key in old(redis.data) && redis.data[key] == old(redis.data[key]))
      ensures ok ==>
                && pending.IsEmpty()
                && (if key in redis.data then redis.data[key] == entry else Displaced(key, epoch))
                && (epoch.Some? && epoch.value != redis.epoch ==> key !in redis.data)
      ensures forall k :: k in old(redis.data) && k !in redis.data ==>
                old(pending.Covers(prefix, k)) || k == key || Siblings(key, k)
      ensures Replayed()
    {
      ok := ReplayPending();
      if ok {
        ok := StoreNew(key, entry, epoch);
      }
    }

    /** `cache_set` */
    method Set(key: string, value: string, epoch: Option<nat>, now: real)
      requires Valid() && DataKey(prefix, key)
      modifies this`clock, redis, pending, breaker
      ensures Valid() && history == old(history)
      ensures Within(redis.data - {key}, old(redis.data))
      ensures key in redis.data ==> redis.data[key] == Entry(value, old(clock)) ||
                                    (key in old(redis.data) && redis.data[key] == old(redis.data[key]))
      ensures old(breaker.Allows(now)) && redis.errors == old(redis.errors) ==>
                && pending.IsEmpty()
                && (if key in redis.data then redis.data[key] == Entry(value, old(clock)) else Displaced(key, epoch))
                && (epoch.Some? && epoch.value != redis.epoch ==> key !in redis.data)
      ensures !old(breaker.Allows(now)) ==> unchanged(redis)
      ensures forall k :: k in old(redis.data) && k !in redis.data ==>
                old(pending.Covers(prefix, k)) || k == key || Siblings(key, k)
      ensures breaker.Records(true, redis.errors != old(redis.errors), now)
      ensures clock == old(clock) + 1 && Replayed()
    {
      var stamp := clock;
      clock := clock + 1;
      var allowed := breaker.Allow(now);
      if allowed {
        var ok := TrySet(key, Entry(value, stamp), epoch);
        if ok {
          breaker.Success();
        } else {
          var _ := breaker.Failure(now);
        }
      }
    }

    /** The breaker is open only after three failures in a row of calls let through. */
    lemma OpenAfterThreeFailures(now: real)
      requires Valid() && !breaker.Allows(now)
      ensures var o := breaker.outcomes; |o| >= 3 && o[|o| - 3] && o[|o| - 2] && o[|o| - 1]
    {
      StreakIsSuffix(breaker.outcomes, 3);
    }

    /** A client none of whose commands has failed is never refused. */
    lemma NeverRefusedWithoutFailures(now: real)
      requires Valid() && forall i :: 0 <= i < |breaker.outcomes| ==> !breaker.outcomes[i]
      ensures breaker.Allows(now)
    {
      StreakIsSuffix(breaker.outcomes, 1);
    }

    /** Expiry and eviction: data keys may vanish, index sets never do. */
    method Evict(keys: set<string>)
      requires Valid()
      modifies redis`data
      ensures Valid() && redis.data == old(redis.data) - keys
    {
      redis.data := redis.data - keys;
    }
  }
}
