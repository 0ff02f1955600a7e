/** The state store under concurrency: `Fire` inserts its row and then updates the cache, `Resolve` takes the
    cache entry and then updates the row, and these steps of any number of callers interleave. */
module AlertInterleaving {
  import opened AlertStore

  /** A caller between its two steps, holding the row id it works on. */
  datatype Pending = Inserted(key: Key, id: int) | Taken(key: Key, id: int)

  datatype State = State(
    rows: map<int, (Key, RowState)>,
    nextId: int,
    active: map<Key, int>,
    callers: map<nat, Pending>,
    claims: seq<int>) // row ids taken by the Resolve calls of this process, in order
  {
    predicate Firing(id: int, key: Key) {
      id in rows && rows[id] == (key, RowState.Firing)
    }

    ghost predicate FiringKey(key: Key) {
      exists id :: Firing(id, key)
    }
  }

  datatype Step =
    | FireInsert(caller: nat, key: Key)
    | FireInsertFails(caller: nat)
    | FireCache(caller: nat)
    | ResolveTake(caller: nat, key: Key)
    | ResolveUpdate(caller: nat)
    | ResolveUpdateFails(caller: nat)
    | Crash(rebuilt: map<Key, int>) // every caller is lost and the cache is rebuilt from the table

  ghost predicate Enabled(s: State, step: Step) {
    match step
    case FireInsert(c, _) => c !in s.callers
    case FireInsertFails(c) => c !in s.callers
    case FireCache(c) => c in s.callers && s.callers[c].Inserted?
    case ResolveTake(c, _) => c !in s.callers
    case ResolveUpdate(c) => c in s.callers && s.callers[c].Taken?
    case ResolveUpdateFails(c) => c in s.callers && s.callers[c].Taken?
    case Crash(rebuilt) => IsScan(s, rebuilt)
  }

  ghost predicate IsScan(s: State, cache: map<Key, int>) {
    && (forall k | k in cache :: s.Firing(cache[k], k))
    && (forall id, k | s.Firing(id, k) :: k in cache)
  }

  function Next(s: State, step: Step): State
    requires !step.Crash? ==> Enabled(s, step)
  {
    match step
    case FireInsert(c, key) =>
      s.(rows := s.rows[s.nextId := (key, RowState.Firing)],
         nextId := s.nextId + 1,
         callers := s.callers[c := Inserted(key, s.nextId)])
    case FireInsertFails(c) => s
    case FireCache(c) =>
      var p := s.callers[c];
      s.(active := s.active[p.key := p.id], callers := s.callers - {c})
    case ResolveTake(c, key) =>
      if key !in s.active then s
      else
        var id := s.active[key];
        s.(active := s.active - {key}, callers := s.callers[c := Taken(key, id)], claims := s.claims + [id])
    case ResolveUpdate(c) =>
      var p := s.callers[c];
      s.(rows := if p.id in s.rows then s.rows[p.id := (s.rows[p.id].0, RowState.Resolved)] else s.rows,
         callers := s.callers - {c})
    case ResolveUpdateFails(c) => s.(callers := s.callers - {c})
    case Crash(rebuilt) => s.(active := rebuilt, callers := map[], claims := [])
  }

  /** Every row id that is cached or held by a caller names a firing row of its key, and has one holder. */
  ghost predicate Inv(s: State) {
    && (forall id | id in s.rows :: id < s.nextId)
    && (forall k | k in s.active :: s.Firing(s.active[k], k))
    && (forall c | c in s.callers :: s.Firing(s.callers[c].id, s.callers[c].key))
    && (forall c, k | c in s.callers && k in s.active :: s.callers[c].id != s.active[k])
    && (forall c, d | c in s.callers && d in s.callers && c != d :: s.callers[c].id != s.callers[d].id)
  }

  /** A claimed row is not claimed again and is out of reach of the cache; the rows held by a Resolve call are claimed. */
  ghost predicate ClaimedOnce(s: State) {
    && (forall i, j | 0 <= i < j < |s.claims| :: s.claims[i] != s.claims[j])
    && (forall i | 0 <= i < |s.claims| :: s.claims[i] < s.nextId)
    && (forall k | k in s.active :: s.active[k] !in s.claims)
    && (forall c | c in s.callers :: s.callers[c].Taken? <==> s.callers[c].id in s.claims)
  }

  lemma InvKept(s: State, step: Step)
    requires Inv(s) && Enabled(s, step)
    ensures Inv(Next(s, step))
  {
  }

  lemma ClaimedOnceKept(s: State, step: Step)
    requires Inv(s) && ClaimedOnce(s) && Enabled(s, step)
    ensures ClaimedOnce(Next(s, step))
  {
    var s' := Next(s, step);
    if step.ResolveTake? && step.key in s.active {
      assert forall k | k in s'.active :: s.Firing(s.active[k], k);
      assert s'.claims == s.claims + [s.active[step.key]];
    }
  }

  const EMPTY := State(map[], 1, map[], map[], [])

  /** The state after a list of steps; a step that is not enabled does nothing. */
  ghost function After(steps: seq<Step>): State {
    if steps == [] then EMPTY
    else
      var s := After(steps[..|steps| - 1]);
      var last := steps[|steps| - 1];
      if Enabled(s, last) then Next(s, last) else s
  }

  /** In every interleaving with any failures and crashes, a cached entry names a row that is still firing
      under the same key, and no row is claimed by two Resolve calls of one process. */
  lemma {:induction false} CachedRowsFire(steps: seq<Step>)
    ensures Inv(After(steps)) && ClaimedOnce(After(steps))
    ensures var s := After(steps); forall k | k in s.active :: s.Firing(s.active[k], k)
    ensures var s := After(steps); forall i, j | 0 <= i < j < |s.claims| :: s.claims[i] != s.claims[j]
    ensures var s := After(steps); forall c | c in s.callers && s.callers[c].Taken? :: s.callers[c].id in s.claims
  {
    if steps != [] {
      var s := After(steps[..|steps| - 1]);
      CachedRowsFire(steps[..|steps| - 1]);
      if Enabled(s, steps[|steps| - 1]) {
        InvKept(s, steps[|steps| - 1]);
        ClaimedOnceKept(s, steps[|steps| - 1]);
      }
    }
  }

  // ----- the engine as the only writer -----

  /** A step of the engine goroutine without failures: it fires only keys that it found inactive. */
  ghost predicate WriterStep(s: State, step: Step) {
    && Enabled(s, step)
    && match step
       case FireInsert(c, key) => c == 0 && key !in s.active
       case FireCache(c) => true
       case ResolveTake(c, _) => c == 0
       case ResolveUpdate(c) => true
       case Crash(_) => true
       case _ => false
  }

  ghost predicate WriterRun(steps: seq<Step>) {
    steps != [] ==> WriterRun(steps[..|steps| - 1]) && WriterStep(After(steps[..|steps| - 1]), steps[|steps| - 1])
  }

  /** The firing rows are the cached rows plus the row in flight. */
  ghost predicate WriterInv(s: State) {
    && s.callers.Keys <= {0}
    && (forall c | c in s.callers :: s.callers[c].key !in s.active)
    && (forall id, k | s.Firing(id, k) :: (k in s.active && s.active[k] == id) || (0 in s.callers && s.callers[0].id == id))
  }

  lemma WriterInvKept(s: State, step: Step)
    requires Inv(s) && WriterInv(s) && WriterStep(s, step)
    ensures WriterInv(Next(s, step))
  {
    var s' := Next(s, step);
    if step.Crash? {
      forall id, k | s'.Firing(id, k)
        ensures k in step.rebuilt && step.rebuilt[k] == id
      {
        assert s.Firing(id, k);
        assert s.Firing(step.rebuilt[k], k);
      }
    } else {
      forall id, k | s'.Firing(id, k) && !(step.FireInsert? && id == s.nextId)
        ensures s.Firing(id, k)
      {
      }
    }
  }

  /** With the engine as the only writer and no failures, the cached and the firing keys differ by at most the
      key in flight, and every key has at most one firing row. */
  lemma {:induction false} CacheLagsByOneKey(steps: seq<Step>)
    requires WriterRun(steps)
    ensures WriterInv(After(steps))
    ensures var s := After(steps); forall k | (k in s.active) != s.FiringKey(k) :: 0 in s.callers && s.callers[0].key == k
    ensures var s := After(steps); forall i, j, k | s.Firing(i, k) && s.Firing(j, k) :: i == j
  {
    CachedRowsFire(steps);
    if steps != [] {
      var s := After(steps[..|steps| - 1]);
      CachedRowsFire(steps[..|steps| - 1]);
      CacheLagsByOneKey(steps[..|steps| - 1]);
      WriterInvKept(s, steps[|steps| - 1]);
    }
  }
}
