/**
 * The process-wide get-or-build caches of `data/store.rs` and `services/sql_pool.rs`.  A caller looks
 * its key up under the lock, builds a handle with the lock released, and takes the lock again for
 * `entry().or_insert()`.  A run is any sequence of steps of any number of callers; a step that is not
 * enabled changes nothing.
 */
module GetOrBuilding {
  import opened Wrappers

  /** Where a caller stands. */
  datatype Progress =
    | Checking
    | Building
    | Inserting(built: nat)
    | Returned(handle: nat)
    | Failed

  datatype Caller = Caller(key: string, progress: Progress)

  /** Handles are identities; `nextHandle` is the first one not yet built. */
  datatype State = State(cache: map<string, nat>, callers: map<nat, Caller>, nextHandle: nat)

  datatype Step =
    | Arrive(id: nat, key: string)
    | Check(id: nat)
    | Build(id: nat, succeeds: bool)
    | Insert(id: nat)

  const INITIAL := State(map[], map[], 0)

  function Advance(s: State, id: nat, progress: Progress): State
    requires id in s.callers
  {
    s.(callers := s.callers[id := s.callers[id].(progress := progress)])
  }

  /** `*cache.entry(key).or_insert(built)`: the new cache and the handle found there afterwards. */
  function OrInsert(cache: map<string, nat>, key: string, built: nat): (map<string, nat>, nat) {
    if key in cache then (cache, cache[key]) else (cache[key := built], built)
  }

  function Next(s: State, step: Step): State {
    match step
    case Arrive(id, key) =>
      if id in s.callers then s else s.(callers := s.callers[id := Caller(key, Checking)])
    case Check(id) =>
      if id !in s.callers || s.callers[id].progress != Checking then s
      else if s.callers[id].key in s.cache then Advance(s, id, Returned(s.cache[s.callers[id].key]))
      else Advance(s, id, Building)
    case Build(id, succeeds) =>
      if id !in s.callers || s.callers[id].progress != Building then s
      else if succeeds then Advance(s, id, Inserting(s.nextHandle)).(nextHandle := s.nextHandle + 1)
      else Advance(s, id, Failed)
    case Insert(id) =>
      if id !in s.callers || !s.callers[id].progress.Inserting? then s
      else
        var (cache, handle) := OrInsert(s.cache, s.callers[id].key, s.callers[id].progress.built);
        Advance(s, id, Returned(handle)).(cache := cache)
  }

  function Run(s: State, steps: seq<Step>): State {
    if steps == [] then s else Next(Run(s, steps[..|steps| - 1]), steps[|steps| - 1])
  }

  /** The handle a caller has been given, if any. */
  function Given(s: State, id: nat): Option<nat> {
    if id in s.callers && s.callers[id].progress.Returned? then Some(s.callers[id].progress.handle) else None
  }

  /** Whoever has returned holds what the cache maps its key to, and nobody holds a handle not yet built. */
  predicate Inv(s: State) {
    && (forall id :: id in s.callers && s.callers[id].progress.Returned? ==>
          s.callers[id].key in s.cache && s.cache[s.callers[id].key] == s.callers[id].progress.handle)
    && (forall id :: id in s.callers && s.callers[id].progress.Inserting? ==>
          s.callers[id].progress.built < s.nextHandle)
    && (forall key :: key in s.cache ==> s.cache[key] < s.nextHandle)
  }

  lemma StepKeepsInv(s: State, step: Step)
    requires Inv(s)
    ensures Inv(Next(s, step))
    ensures forall key :: key in s.cache ==> key in Next(s, step).cache && Next(s, step).cache[key] == s.cache[key]
  {}

  lemma {:induction false} RunKeepsInv(s: State, steps: seq<Step>)
    requires Inv(s)
    ensures Inv(Run(s, steps))
    ensures forall key :: key in s.cache ==> key in Run(s, steps).cache && Run(s, steps).cache[key] == s.cache[key]
  {
    if steps != [] {
      RunKeepsInv(s, steps[..|steps| - 1]);
      StepKeepsInv(Run(s, steps[..|steps| - 1]), steps[|steps| - 1]);
    }
  }

  lemma {:induction false} RunAppend(s: State, first: seq<Step>, second: seq<Step>)
    ensures Run(s, first + second) == Run(Run(s, first), second)
  {
    if second == [] {
      assert first + second == first;
    } else {
      var steps := first + second;
      assert steps[..|steps| - 1] == first + second[..|second| - 1];
      RunAppend(s, first, second[..|second| - 1]);
    }
  }

  /** A caller's handle and key, once returned, stay as they are. */
  lemma {:induction false} ReturnIsFinal(s: State, steps: seq<Step>, id: nat)
    requires Given(s, id).Some?
    ensures Given(Run(s, steps), id) == Given(s, id) && Run(s, steps).callers[id].key == s.callers[id].key
  {
    if steps != [] {
      ReturnIsFinal(s, steps[..|steps| - 1], id);
    }
  }

  /**
   * All callers of one key get the same handle, however their steps interleave and however far apart
   * in the run they return: caller `a` by the end of `steps`, caller `b` by the end of `steps + more`.
   */
  lemma CallersAgree(steps: seq<Step>, more: seq<Step>, a: nat, b: nat)
    requires Given(Run(INITIAL, steps), a).Some? && Given(Run(INITIAL, steps + more), b).Some?
    requires Run(INITIAL, steps).callers[a].key == Run(INITIAL, steps + more).callers[b].key
    ensures Given(Run(INITIAL, steps), a) == Given(Run(INITIAL, steps + more), b)
  {
    var s := Run(INITIAL, steps);
    RunKeepsInv(INITIAL, steps);
    RunAppend(INITIAL, steps, more);
    RunKeepsInv(s, more);
  }

  /** An entry, once present, never changes. */
  lemma EntriesAreStable(steps: seq<Step>, more: seq<Step>, key: string)
    requires key in Run(INITIAL, steps).cache
    ensures key in Run(INITIAL, steps + more).cache
    ensures Run(INITIAL, steps + more).cache[key] == Run(INITIAL, steps).cache[key]
  {
    RunKeepsInv(INITIAL, steps);
    RunAppend(INITIAL, steps, more);
    RunKeepsInv(Run(INITIAL, steps), more);
  }

  // ----- the losers of a race

  /** No two live copies of one handle: pending builds differ from each other and from every entry. */
  predicate Unshared(s: State) {
    && (forall a, b :: a in s.callers && b in s.callers && a != b ==>
          s.callers[a].progress.Inserting? && s.callers[b].progress.Inserting? ==>
          s.callers[a].progress.built != s.callers[b].progress.built)
    && (forall a, key :: a in s.callers && s.callers[a].progress.Inserting? && key in s.cache ==>
          s.callers[a].progress.built != s.cache[key])
  }

  lemma StepKeepsUnshared(s: State, step: Step)
    requires Inv(s) && Unshared(s)
    ensures Unshared(Next(s, step))
  {
    if step.Insert? {
      InsertKeepsUnshared(s, step.id);
    }
  }

  lemma InsertKeepsUnshared(s: State, id: nat)
    requires Inv(s) && Unshared(s)
    ensures Unshared(Next(s, Insert(id)))
  {}

  lemma {:induction false} RunKeepsUnshared(steps: seq<Step>)
    ensures Inv(Run(INITIAL, steps)) && Unshared(Run(INITIAL, steps))
  {
    RunKeepsInv(INITIAL, steps);
    if steps != [] {
      RunKeepsUnshared(steps[..|steps| - 1]);
      StepKeepsUnshared(Run(INITIAL, steps[..|steps| - 1]), steps[|steps| - 1]);
    }
  }

  /** A handle that exists but is neither cached nor waiting to be inserted. */
  predicate Discarded(s: State, handle: nat) {
    && handle < s.nextHandle
    && (forall key :: key in s.cache ==> s.cache[key] != handle)
    && (forall id :: id in s.callers && s.callers[id].progress.Inserting? ==> s.callers[id].progress.built != handle)
  }

  lemma {:induction false} DiscardedForGood(s: State, steps: seq<Step>, handle: nat)
    requires Discarded(s, handle)
    ensures Discarded(Run(s, steps), handle)
  {
    if steps != [] {
      DiscardedForGood(s, steps[..|steps| - 1], handle);
    }
  }

  /**
   * A builder that finds its key taken when it inserts has lost the race: it returns the winner's handle,
   * and its own handle is given to no caller at any later point of any run.
   */
  lemma LosersHandleIsNeverReturned(steps: seq<Step>, loser: nat, more: seq<Step>, id: nat)
    requires loser in Run(INITIAL, steps).callers && Run(INITIAL, steps).callers[loser].progress.Inserting?
    requires Run(INITIAL, steps).callers[loser].key in Run(INITIAL, steps).cache
    ensures var s := Run(INITIAL, steps);
            && Given(Run(INITIAL, steps + [Insert(loser)]), loser) == Some(s.cache[s.callers[loser].key])
            && Given(Run(INITIAL, steps + [Insert(loser)] + more), id) != Some(s.callers[loser].progress.built)
  {
    var s, lost := Run(INITIAL, steps), steps + [Insert(loser)];
    RunKeepsUnshared(steps);
    assert lost[..|lost| - 1] == steps;
    var handle := s.callers[loser].progress.built;
    RunAppend(INITIAL, lost, more);
    DiscardedForGood(Run(INITIAL, lost), more, handle);
    RunKeepsInv(INITIAL, lost + more);
  }

  // ----- what each step gives

  /** An insert always leaves the key cached and returns what is cached; the first one caches its own handle. */
  lemma InsertReturnsEntry(s: State, id: nat)
    requires id in s.callers && s.callers[id].progress.Inserting?
    ensures var t, key, built := Next(s, Insert(id)), s.callers[id].key, s.callers[id].progress.built;
            && key in t.cache && Given(t, id) == Some(t.cache[key])
            && t.cache == (if key in s.cache then s.cache else s.cache[key := built])
            && t.nextHandle == s.nextHandle && Others(s, t, id)
  {}

  /** A check returns a cached handle at once, and otherwise goes on to build. */
  lemma CheckReturnsEntry(s: State, id: nat)
    requires id in s.callers && s.callers[id].progress.Checking?
    ensures var t, key := Next(s, Check(id)), s.callers[id].key;
            && Given(t, id) == (if key in s.cache then Some(s.cache[key]) else None)
            && (key !in s.cache ==> t.callers[id].progress.Building?)
            && t.cache == s.cache && t.nextHandle == s.nextHandle && Others(s, t, id)
  {}

  /** A build yields a handle never seen before, or fails for good. */
  lemma BuildYieldsNewHandle(s: State, id: nat, succeeds: bool)
    requires id in s.callers && s.callers[id].progress.Building?
    ensures var t := Next(s, Build(id, succeeds));
            && t.callers[id].progress == (if succeeds then Inserting(s.nextHandle) else Failed)
            && t.nextHandle == (if succeeds then s.nextHandle + 1 else s.nextHandle)
            && t.cache == s.cache && Others(s, t, id)
  {}

  /** No other caller is touched, and this one keeps its key. */
  predicate Others(s: State, t: State, id: nat) {
    && t.callers.Keys == s.callers.Keys
    && (forall other :: other in s.callers && other != id ==> t.callers[other] == s.callers[other])
    && (id in s.callers ==> t.callers[id].key == s.callers[id].key)
  }

  lemma RunOfFour(s: State, a: Step, b: Step, c: Step, d: Step)
    ensures Run(s, [a, b, c, d]) == Next(Next(Next(Next(s, a), b), c), d)
  {
    hide Next;
    assert [a, b, c, d][..3] == [a, b, c] && [a, b, c][..2] == [a, b] && [a, b][..1] == [a] && [a][..0] == [];
    assert Run(s, [a]) == Next(Run(s, []), a);
    assert Run(s, [a, b]) == Next(Run(s, [a]), b);
    assert Run(s, [a, b, c]) == Next(Run(s, [a, b]), c);
  }

  /**
   * The steps of one call in a row, from any state: the call returns what is cached for its key before,
   * or else what it built, which is then cached; nothing is returned or cached if the build fails.
   */
  lemma UninterruptedCall(s: State, id: nat, key: string, succeeds: bool)
    requires id !in s.callers
    ensures var t := Run(s, [Arrive(id, key), Check(id), Build(id, succeeds), Insert(id)]);
            var built := if succeeds then Some(s.nextHandle) else None;
            && (key in s.cache ==> Given(t, id) == Some(s.cache[key]) && t.cache == s.cache)
            && (key !in s.cache ==>
                  && Given(t, id) == built
                  && t.cache == if built.Some? then s.cache[key := built.value] else s.cache)
  {
    var arrived := Next(s, Arrive(id, key));
    var checked := Next(arrived, Check(id));
    var ready := Next(checked, Build(id, succeeds));
    RunOfFour(s, Arrive(id, key), Check(id), Build(id, succeeds), Insert(id));
    CheckReturnsEntry(arrived, id);
    if key !in s.cache {
      BuildYieldsNewHandle(checked, id, succeeds);
      if succeeds {
        InsertReturnsEntry(ready, id);
      }
    }
  }

  /** Wherever a caller stands, three more steps of its own bring it a handle, unless its build has failed. */
  lemma CallersFinish(s: State, id: nat)
    requires id in s.callers && !s.callers[id].progress.Failed?
    ensures Given(Run(s, [Check(id), Build(id, true), Insert(id)]), id).Some?
  {
    RunOfThree(s, Check(id), Build(id, true), Insert(id));
  }

  lemma RunOfThree(s: State, a: Step, b: Step, c: Step)
    ensures Run(s, [a, b, c]) == Next(Next(Next(s, a), b), c)
  {
    hide Next;
    assert [a, b, c][..2] == [a, b] && [a, b][..1] == [a] && [a][..0] == [];
    assert Run(s, [a]) == Next(Run(s, []), a);
    assert Run(s, [a, b]) == Next(Run(s, [a]), b);
  }

  // ----- the object

  /** The static map and the two critical sections around the build. */
  class HandleCache {
    var cache: map<string, nat>

    constructor ()
      ensures cache == map[]
    {
      cache := map[];
    }

    method Lookup(key: string) returns (hit: Option<nat>)
      ensures hit == if key in cache then Some(cache[key]) else None
    {
      if key in cache {
        return Some(cache[key]);
      }
      return None;
    }

    method InsertIfAbsent(key: string, built: nat) returns (handle: nat)
      modifies this
      ensures (cache, handle) == OrInsert(old(cache), key, built)
      ensures forall k :: k in old(cache) ==> k in cache && cache[k] == old(cache)[k]
      ensures key in cache && cache[key] == handle
    {
      if key !in cache {
        cache := cache[key := built];
      }
      handle := cache[key];
    }

    /** A call no other caller interrupts; `built` is what the build yields, `None` when it fails. */
    method GetOrBuild(key: string, built: Option<nat>) returns (result: Option<nat>)
      modifies this
      ensures key in old(cache) ==> result == Some(old(cache)[key]) && cache == old(cache)
      ensures key !in old(cache) ==>
        result == built && cache == if built.Some? then old(cache)[key := built.value] else old(cache)
    {
      result := Lookup(key);
      if result.None? && built.Some? {
        var handle := InsertIfAbsent(key, built.value);
        result := Some(handle);
      }
    }
  }
}
