/**
 * `core/cache_manager.rs`.  Every operation is one lock acquisition and reads the clock under the lock.
 * `HashMap::keys().next()` picks an unspecified key, so the evicted key is part of the log: what is
 * proved holds whichever key the hash order offers.
 */
module QueryCaching {
  import opened Wrappers
  import opened Digits

  datatype Entry<+V> = Entry(value: V, expiresAt: nat)

  datatype Op<+V> =
    | Get(key: string, at: nat)
    | Set(key: string, value: V, at: nat, victim: string)
    | Clear(at: nat)

  datatype Limits = Limits(maxSize: nat, ttl: nat)

  function GetStep<V>(store: map<string, Entry<V>>, key: string, now: nat): (map<string, Entry<V>>, Option<V>) {
    if key !in store then (store, None)
    else if now > store[key].expiresAt then (store - {key}, None)
    else (store, Some(store[key].value))
  }

  predicate Evicts<V>(limits: Limits, store: map<string, Entry<V>>, key: string) {
    |store| >= limits.maxSize && key !in store && |store| > 0
  }

  function SetStep<V>(limits: Limits, store: map<string, Entry<V>>, key: string, value: V, now: nat, victim: string)
    : map<string, Entry<V>>
  {
    var room := if Evicts(limits, store, key) then store - {victim} else store;
    room[key := Entry(value, now + limits.ttl)]
  }

  function Store<V>(limits: Limits, log: seq<Op<V>>): map<string, Entry<V>> {
    if log == [] then map[]
    else
      var store := Store(limits, log[..|log| - 1]);
      match log[|log| - 1]
      case Get(key, now) => GetStep(store, key, now).0
      case Set(key, value, now, victim) => SetStep(limits, store, key, value, now, victim)
      case Clear(_) => map[]
  }

  /** What `get(key)` answers at `now`, after `log`. */
  function Lookup<V>(limits: Limits, log: seq<Op<V>>, key: string, now: nat): Option<V> {
    GetStep(Store(limits, log), key, now).1
  }

  /** Every eviction removed a key that was there. */
  predicate LegalEvictions<V>(limits: Limits, log: seq<Op<V>>) {
    forall n :: 0 <= n < |log| && log[n].Set? && Evicts(limits, Store(limits, log[..n]), log[n].key) ==>
      log[n].victim in Store(limits, log[..n])
  }

  /** One more legal operation. */
  lemma LegalNext<V>(limits: Limits, before: seq<Op<V>>, op: Op<V>)
    requires LegalEvictions(limits, before)
    requires op.Set? && Evicts(limits, Store(limits, before), op.key) ==> op.victim in Store(limits, before)
    ensures LegalEvictions(limits, before + [op])
    ensures (before + [op])[..|before|] == before
  {
    hide Store, Evicts;
    var log := before + [op];
    assert log[..|before|] == before && log[|before|] == op;
    forall n | 0 <= n < |before| ensures log[..n] == before[..n] && log[n] == before[n] {}
  }

  // ----- the specification: an unbounded map with expiry

  /** The latest value set for `key` since the last clear, and when. */
  function LatestSet<V>(log: seq<Op<V>>, key: string): Option<(V, nat)> {
    if log == [] then None
    else match log[|log| - 1]
      case Clear(_) => None
      case Set(k, value, at, _) => if k == key then Some((value, at)) else LatestSet(log[..|log| - 1], key)
      case Get(_, _) => LatestSet(log[..|log| - 1], key)
  }

  function Ideal<V>(limits: Limits, log: seq<Op<V>>, key: string, now: nat): Option<V> {
    match LatestSet(log, key)
    case None => None
    case Some((value, at)) => if now <= at + limits.ttl then Some(value) else None
  }

  function KeysSinceClear<V>(log: seq<Op<V>>): set<string> {
    if log == [] then {}
    else match log[|log| - 1]
      case Clear(_) => {}
      case Set(key, _, _, _) => KeysSinceClear(log[..|log| - 1]) + {key}
      case Get(_, _) => KeysSinceClear(log[..|log| - 1])
  }

  /** How many entries the store can hold; a limit of 0 still holds one. */
  function Capacity(limits: Limits): nat {
    if limits.maxSize == 0 then 1 else limits.maxSize
  }

  predicate Monotone<V>(log: seq<Op<V>>, now: nat) {
    && (forall i, j :: 0 <= i < j < |log| ==> log[i].at <= log[j].at)
    && (forall i :: 0 <= i < |log| ==> log[i].at <= now)
  }

  lemma {:induction false} StoredIsLatest<V>(limits: Limits, log: seq<Op<V>>, key: string)
    requires key in Store(limits, log)
    ensures LatestSet(log, key).Some?
    ensures var (value, at) := LatestSet(log, key).value;
            Store(limits, log)[key] == Entry(value, at + limits.ttl)
  {
    var before := log[..|log| - 1];
    if key in Store(limits, before) {
      StoredIsLatest(limits, before, key);
    }
  }

  /** A hit is always the latest value set since the last clear, and never past its expiry. */
  lemma HitsAreSound<V>(limits: Limits, log: seq<Op<V>>, key: string, now: nat)
    ensures Lookup(limits, log, key, now).Some? ==>
      Lookup(limits, log, key, now) == Ideal(limits, log, key, now)
  {
    if key in Store(limits, log) {
      StoredIsLatest(limits, log, key);
    }
  }

  lemma RemovedKeyShrinks<V>(store: map<string, Entry<V>>, key: string)
    ensures key in store ==> |store - {key}| == |store| - 1
    ensures key !in store ==> store - {key} == store
  {
    assert (store - {key}).Keys == store.Keys - {key};
  }

  lemma AddedKeyGrows<V>(store: map<string, Entry<V>>, key: string, entry: Entry<V>)
    ensures |store[key := entry]| == |store| + if key in store then 0 else 1
  {
    assert store[key := entry].Keys == store.Keys + {key};
  }

  /** Whichever keys are evicted, the store never outgrows its limit; a limit of 0 still holds one entry. */
  lemma {:induction false} StoreIsBounded<V>(limits: Limits, log: seq<Op<V>>)
    requires LegalEvictions(limits, log)
    ensures |Store(limits, log)| <= Capacity(limits)
  {
    if log != [] {
      var before, op := log[..|log| - 1], log[|log| - 1];
      forall n | 0 <= n < |before| ensures before[..n] == log[..n] && before[n] == log[n] {}
      StoreIsBounded(limits, before);
      var store := Store(limits, before);
      match op
      case Clear(_) =>
      case Get(key, _) => RemovedKeyShrinks(store, key);
      case Set(key, value, now, victim) =>
        assert log[..|log| - 1] == before;
        RemovedKeyShrinks(store, victim);
        var room := if Evicts(limits, store, key) then store - {victim} else store;
        AddedKeyGrows(room, key, Entry(value, now + limits.ttl));
    }
  }

  lemma {:induction false} StoredKeysWereSet<V>(limits: Limits, log: seq<Op<V>>)
    ensures Store(limits, log).Keys <= KeysSinceClear(log)
  {
    if log != [] {
      StoredKeysWereSet(limits, log[..|log| - 1]);
    }
  }

  lemma SubsetIsSmaller<T>(small: set<T>, large: set<T>)
    requires small <= large
    ensures |small| <= |large|
  {
    assert large == small + (large - small);
  }

  /** With few enough keys nothing is evicted: a key that was set is in the store unless it has expired. */
  lemma {:induction false} MissingKeysHaveExpired<V>(limits: Limits, log: seq<Op<V>>, key: string, now: nat)
    requires Monotone(log, now) && |KeysSinceClear(log)| <= Capacity(limits)
    requires key !in Store(limits, log)
    ensures Ideal(limits, log, key, now) == None
  {
    if log != [] && !log[|log| - 1].Clear? {
      var before, op := log[..|log| - 1], log[|log| - 1];
      var store := Store(limits, before);
      SubsetIsSmaller(KeysSinceClear(before), KeysSinceClear(log));
      if op.Get? && key in store {
        StoredIsLatest(limits, before, key);
      } else {
        if op.Set? && Evicts(limits, store, op.key) {
          StoredKeysWereSet(limits, before);
          SubsetIsSmaller(store.Keys + {op.key}, KeysSinceClear(log));
          assert false;
        }
        MissingKeysHaveExpired(limits, before, key, now);
      }
    }
  }

  /** If no more distinct keys are set between clears than the store can hold, `get` agrees with the unbounded map. */
  lemma AgreesWithUnboundedMap<V>(limits: Limits, log: seq<Op<V>>, key: string, now: nat)
    requires Monotone(log, now) && |KeysSinceClear(log)| <= Capacity(limits)
    ensures Lookup(limits, log, key, now) == Ideal(limits, log, key, now)
  {
    if key in Store(limits, log) {
      StoredIsLatest(limits, log, key);
    } else {
      MissingKeysHaveExpired(limits, log, key, now);
    }
  }

  /** And no choice of victims helps beyond that: more live keys than entries means some live key misses. */
  lemma SomeLiveKeyMisses<V>(limits: Limits, log: seq<Op<V>>, live: set<string>, now: nat) returns (key: string)
    requires LegalEvictions(limits, log)
    requires forall k :: k in live ==> Ideal(limits, log, k, now).Some?
    requires |live| > Capacity(limits)
    ensures key in live && Lookup(limits, log, key, now) == None
  {
    StoreIsBounded(limits, log);
    if live <= Store(limits, log).Keys {
      SubsetIsSmaller(live, Store(limits, log).Keys);
      assert false;
    }
    key :| key in live && key !in Store(limits, log);
  }

  lemma NothingEvicted<V>(limits: Limits)
    ensures LegalEvictions<V>(limits, [])
  {}

  /** Some key that may be evicted, if one has to be. */
  ghost function LegalVictim<V>(limits: Limits, store: map<string, Entry<V>>, key: string): (victim: string)
    ensures Evicts(limits, store, key) ==> victim in store
  {
    if store.Keys == {} then key
    else
      var victim :| victim in store.Keys;
      victim
  }

  /** `n` distinct keys set at time 0, with some key that is there evicted whenever one has to go. */
  lemma {:induction false} CrowdedLog<V>(limits: Limits, n: nat, value: V) returns (log: seq<Op<V>>)
    ensures |log| == n && LegalEvictions(limits, log) && Monotone(log, 0)
    ensures forall i :: 0 <= i < n ==> log[i].Set? && log[i].key == Zeros(i) && log[i].value == value
  {
    hide LegalEvictions, Store, Evicts;
    log := [];
    if n == 0 {
      assert LegalEvictions<V>(limits, []) by { NothingEvicted<V>(limits); }
    } else {
      var before := CrowdedLog(limits, n - 1, value);
      var op := Set(Zeros(n - 1), value, 0, LegalVictim(limits, Store(limits, before), Zeros(n - 1)));
      LegalNext(limits, before, op);
      log := before + [op];
    }
  }

  /** All of those keys are live at time 0. */
  lemma {:induction false} CrowdedIsLive<V>(limits: Limits, log: seq<Op<V>>, value: V, i: nat)
    requires forall k :: 0 <= k < |log| ==> log[k].Set? && log[k].key == Zeros(k) && log[k].value == value
    requires i < |log| && Monotone(log, 0)
    ensures Ideal(limits, log, Zeros(i), 0) == Some(value)
  {
    var before := log[..|log| - 1];
    assert |Zeros(i)| == i && |Zeros(|log| - 1)| == |log| - 1;
    if i < |before| {
      CrowdedIsLive(limits, before, value, i);
    }
  }

  function FirstKeys(n: nat): (keys: set<string>)
    ensures |keys| == n && forall key :: key in keys <==> exists i :: 0 <= i < n && key == Zeros(i)
  {
    if n == 0 then {}
    else
      var keys := FirstKeys(n - 1);
      assert Zeros(n - 1) !in keys by {
        assert forall i :: 0 <= i < n - 1 ==> |Zeros(i)| == i;
        assert |Zeros(n - 1)| == n - 1;
      }
      keys + {Zeros(n - 1)}
  }

  lemma {:induction false} CrowdedKeys<V>(log: seq<Op<V>>)
    requires forall i :: 0 <= i < |log| ==> log[i].Set? && log[i].key == Zeros(i)
    ensures KeysSinceClear(log) == FirstKeys(|log|)
  {
    if log != [] {
      CrowdedKeys(log[..|log| - 1]);
    }
  }

  /** Every legal run with at most `keys` distinct keys between clears answers as the unbounded map. */
  ghost predicate AlwaysIdeal<V(!new)>(limits: Limits, keys: nat) {
    forall log: seq<Op<V>>, key, now :: BoundedRun(limits, log, keys, now) ==> AnswersIdeally(limits, log, key, now)
  }

  predicate BoundedRun<V>(limits: Limits, log: seq<Op<V>>, keys: nat, now: nat) {
    LegalEvictions(limits, log) && Monotone(log, now) && |KeysSinceClear(log)| <= keys
  }

  ghost predicate AnswersIdeally<V(!new)>(limits: Limits, log: seq<Op<V>>, key: string, now: nat) {
    Lookup(limits, log, key, now) == Ideal(limits, log, key, now)
  }

  /** The cache is as good as an unbounded one exactly up to as many keys as it can hold. */
  lemma IdealIffKeysFit<V(!new)>(limits: Limits, keys: nat, value: V)
    ensures AlwaysIdeal<V>(limits, keys) <==> keys <= Capacity(limits)
  {
    if keys <= Capacity(limits) {
      forall log: seq<Op<V>>, key, now | BoundedRun(limits, log, keys, now)
        ensures AnswersIdeally(limits, log, key, now)
      {
        AgreesWithUnboundedMap(limits, log, key, now);
      }
    } else {
      var n := Capacity(limits) + 1;
      var log := CrowdedLog(limits, n, value);
      CrowdedKeys(log);
      forall key | key in FirstKeys(n) ensures Ideal(limits, log, key, 0).Some? {
        var i :| 0 <= i < n && key == Zeros(i);
        CrowdedIsLive(limits, log, value, i);
      }
      var key := SomeLiveKeyMisses(limits, log, FirstKeys(n), 0);
      assert BoundedRun(limits, log, keys, 0) && !AnswersIdeally(limits, log, key, 0);
    }
  }

  /** Setting `key` removes nothing but the victim, and that only if the store is full and the key is new. */
  ghost predicate OnlyVictimLeaves<V>(
      limits: Limits, before: map<string, Entry<V>>, after: map<string, Entry<V>>, key: string, victim: string)
  {
    var full := |before| >= limits.maxSize && |before| > 0 && key !in before;
    && key in after
    && (forall k :: k in before && k != key && !(full && k == victim) ==> k in after)
    && (forall k :: k in after && k != key ==> k in before && !(full && k == victim) && after[k] == before[k])
  }

  lemma SetRemovesOnlyVictim<V>(
      limits: Limits, store: map<string, Entry<V>>, key: string, value: V, now: nat, victim: string)
    ensures OnlyVictimLeaves(limits, store, SetStep(limits, store, key, value, now, victim), key, victim)
  {}

  /** What one more set does to the log and the store. */
  lemma SetKeepsValid<V>(
      limits: Limits, log: seq<Op<V>>, store: map<string, Entry<V>>, key: string, value: V, now: nat, victim: string)
    requires store == Store(limits, log) && LegalEvictions(limits, log)
    requires |store| >= limits.maxSize && key !in store && |store| > 0 ==> victim in store
    ensures var room := if |store| >= limits.maxSize && key !in store && |store| > 0 then store - {victim} else store;
            var after := room[key := Entry(value, now + limits.ttl)];
            && after == Store(limits, log + [Op.Set(key, value, now, victim)])
            && OnlyVictimLeaves(limits, store, after, key, victim)
    ensures LegalEvictions(limits, log + [Op.Set(key, value, now, victim)])
    ensures LatestSet(log + [Op.Set(key, value, now, victim)], key) == Some((value, now))
  {
    hide LegalEvictions, OnlyVictimLeaves;
    LegalNext(limits, log, Op.Set(key, value, now, victim));
    SetRemovesOnlyVictim(limits, store, key, value, now, victim);
  }

  // ----- the object

  class QueryCache<V> {
    const limits: Limits
    var store: map<string, Entry<V>>
    /** The operations so far in lock order, for specification only. */
    ghost var log: seq<Op<V>>

    ghost predicate Valid()
      reads this
    {
      store == Store(limits, log) && LegalEvictions(limits, log)
    }

    constructor (maxSize: nat, ttl: nat)
      ensures Valid() && log == [] && limits == Limits(maxSize, ttl)
    {
      limits := Limits(maxSize, ttl);
      store, log := map[], [];
    }

    method Get(key: string, now: nat) returns (hit: Option<V>)
      requires Valid()
      modifies this
      ensures Valid() && log == old(log) + [Op.Get(key, now)]
      ensures hit == Lookup(limits, old(log), key, now)
      ensures forall k :: k in store ==> k in old(store) && store[k] == old(store)[k]
      ensures forall k :: k in old(store) && (k != key || now <= old(store)[key].expiresAt) ==> k in store
      ensures hit.Some? ==> hit == Ideal(limits, old(log), key, now)
      ensures Monotone(old(log), now) && |KeysSinceClear(old(log))| <= Capacity(limits) ==>
        hit == Ideal(limits, old(log), key, now)
    {
      HitsAreSound(limits, log, key, now);
      if Monotone(log, now) && |KeysSinceClear(log)| <= Capacity(limits) {
        AgreesWithUnboundedMap(limits, log, key, now);
      }
      LegalNext(limits, log, Op.Get(key, now));
      log := log + [Op.Get(key, now)];
      if key !in store {
        return None;
      }
      if now > store[key].expiresAt {
        store := store - {key};
        return None;
      }
      return Some(store[key].value);
    }

    method Set(key: string, value: V, now: nat)
      requires Valid()
      modifies this
      ensures Valid()
      ensures exists victim ::
                && log == old(log) + [Op.Set(key, value, now, victim)]
                && OnlyVictimLeaves(limits, old(store), store, key, victim)
      ensures LatestSet(log, key) == Some((value, now))
      ensures key in store && store[key] == Entry(value, now + limits.ttl)
      ensures |store| <= Capacity(limits)
    {
      hide LegalEvictions, Store, Evicts, OnlyVictimLeaves, LatestSet;
      var victim := key;
      if |store| >= limits.maxSize && key !in store && |store| > 0 {
        var oldest :| oldest in store;
        victim := oldest;
        store := store - {oldest};
      }
      store := store[key := Entry(value, now + limits.ttl)];
      SetKeepsValid(limits, old(log), old(store), key, value, now, victim);
      log := log + [Op.Set(key, value, now, victim)];
      StoreIsBounded(limits, log);
    }

    lemma Cleared(before: seq<Op<V>>, now: nat)
      ensures Store(limits, before + [Op.Clear(now)]) == map[]
      ensures KeysSinceClear(before + [Op.Clear(now)]) == {}
    {}

    method Clear(ghost now: nat)
      requires Valid()
      modifies this
      ensures Valid() && log == old(log) + [Op.Clear(now)]
      ensures store == map[] && KeysSinceClear(log) == {}
    {
      store := map[];
      LegalNext(limits, log, Op.Clear(now));
      Cleared(log, now);
      log := log + [Op.Clear(now)];
    }
  }
}
