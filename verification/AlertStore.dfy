/** The alert state store: the `alerts` table and the in-memory cache of firing alerts.
    Every database call may fail: `outcome` says beforehand which calls succeed. */
module AlertStore {
  import opened Common
  import opened AlertRules

  datatype Key = Key(ruleName: string, nodeID: string, sensor: string, labelsJSON: string)

  datatype RowState = Firing | Resolved

  datatype Row = Row(key: Key, severity: string, state: RowState, lastValue: real, threshold: Threshold)

  /** A state change of one table row. */
  datatype Transition = Fired(key: Key, id: int) | Cleared(key: Key, id: int)

  datatype Phase = Off | On(id: int) | Broken

  /** The life of one key along a list of transitions: it alternates between off and on, and is cleared
      by the row that it was fired with; anything else is `Broken` for good. */
  function PhaseOf(trace: seq<Transition>, key: Key): Phase {
    if trace == [] then Off
    else
      var before := PhaseOf(trace[..|trace| - 1], key);
      var last := trace[|trace| - 1];
      if last.key != key then before
      else match (before, last)
        case (Off, Fired(_, id)) => On(id)
        case (On(open), Cleared(_, id)) => if open == id then Off else Broken
        case _ => Broken
  }

  /** The store as a value. */
  datatype StoreView = StoreView(
    rows: map<int, Row>,
    nextId: int,
    active: map<Key, int>,
    failures: nat, // database calls that failed so far
    trace: seq<Transition>)
  {
    ghost predicate IsFiring(id: int) {
      id in rows && rows[id].state == Firing
    }

    /** Row ids are below the next id, and every cached entry names a firing row of the same key. */
    ghost predicate Coherent() {
      && (forall id | id in rows :: id < nextId)
      && (forall k | k in active :: IsFiring(active[k]) && rows[active[k]].key == k)
    }

    /** Every firing row is the cached row of its key, so a key has at most one firing row. */
    ghost predicate Exact() {
      forall id | IsFiring(id) :: rows[id].key in active && active[rows[id].key] == id
    }

    /** The transitions of every key strictly alternate, and the cache holds the keys that are on. */
    ghost predicate Alternating() {
      forall k :: PhaseOf(trace, k) == if k in active then On(active[k]) else Off
    }

    /** What holds as long as no database call has failed. */
    ghost predicate Sound() {
      failures == 0 ==> Exact() && Alternating()
    }

    ghost predicate Valid() {
      Coherent() && Sound()
    }
  }

  /** A cache that a scan of the table can produce: every entry names a firing row of its key, and every
      firing row has its key cached. With several firing rows of one key, any of them may win. */
  ghost predicate IsCacheOf(rows: map<int, Row>, cache: map<Key, int>) {
    && (forall k | k in cache :: cache[k] in rows && rows[cache[k]].state == Firing && rows[cache[k]].key == k)
    && (forall id | id in rows && rows[id].state == Firing :: rows[id].key in cache)
  }

  /** The scan of the firing rows, in any order; the last row of a key wins. */
  method ScanFiring(table: map<int, Row>) returns (loaded: map<Key, int>)
    ensures IsCacheOf(table, loaded)
  {
    loaded := map[];
    var todo := set id | id in table && table[id].state == Firing;
    ghost var firing := todo;
    while exists id :: id in todo
      invariant todo <= firing
      invariant forall k | k in loaded :: loaded[k] in firing - todo && table[loaded[k]].key == k
      invariant forall id | id in firing - todo :: table[id].key in loaded
      decreases |todo|
    {
      var id :| id in todo;
      todo := todo - {id};
      loaded := loaded[table[id].key := id];
    }
  }

  /** Whatever the scan order, a scan rebuilds exactly the cache of a failure-free store. */
  lemma CacheIsDeterminedByTable(v: StoreView, cache: map<Key, int>)
    requires v.Coherent() && v.Exact() && IsCacheOf(v.rows, cache)
    ensures cache == v.active
  {
    forall k
      ensures k in cache <==> k in v.active
      ensures k in cache ==> cache[k] == v.active[k]
    {
      if k in cache {
        assert v.IsFiring(cache[k]);
      }
      if k in v.active {
        assert v.IsFiring(v.active[k]);
      }
    }
  }

  lemma TakenKeyIsFiring(v: StoreView, key: Key)
    requires v.Coherent() && key in v.active
    ensures v.IsFiring(v.active[key]) && v.rows[v.active[key]].key == key
  {
  }

  /** The key that `Fire` gives an alert: the labels are encoded again. */
  function FireKeyOf(codec: Codec, r: Rule, nodeID: string, labels: Labels): Key {
    Key(r.name, nodeID, r.sensor, codec.ToJSON(labels))
  }

  /** The store after `Fire` inserted a row and cached it. */
  ghost function FiredView(v: StoreView, codec: Codec, r: Rule, nodeID: string, labels: Labels, lastValue: real): StoreView {
    var key := FireKeyOf(codec, r, nodeID, labels);
    v.(rows := v.rows[v.nextId := Row(key, r.severity, Firing, lastValue, r.threshold)],
       nextId := v.nextId + 1,
       active := v.active[key := v.nextId],
       trace := v.trace + [Fired(key, v.nextId)])
  }

  /** Firing keeps the store coherent, and valid if the key was inactive. */
  lemma FireKeepsValid(v: StoreView, codec: Codec, r: Rule, nodeID: string, labels: Labels, lastValue: real)
    requires v.Coherent()
    ensures var fired := FiredView(v, codec, r, nodeID, labels, lastValue);
      fired.Coherent() && (v.Valid() && FireKeyOf(codec, r, nodeID, labels) !in v.active ==> fired.Valid())
    ensures forall n: nat | n > 0 :: v.(failures := n).Valid()
  {
    var key := FireKeyOf(codec, r, nodeID, labels);
    assert (v.trace + [Fired(key, v.nextId)])[..|v.trace|] == v.trace;
  }

  /** Taking a key out of the cache keeps the store valid when its row is resolved, or when a call failed. */
  lemma TakeKeepsValid(v: StoreView, key: Key, lastValue: real)
    requires v.Valid() && key in v.active && v.active[key] in v.rows
    ensures var id := v.active[key];
      var taken := v.(active := v.active - {key});
      var resolved := taken.(rows := v.rows[id := v.rows[id].(state := Resolved, lastValue := lastValue)],
                             trace := v.trace + [Cleared(key, id)]);
      && resolved.Valid()
      && forall n: nat | n > 0 :: taken.(failures := n).Valid() && resolved.(failures := n).Valid()
  {
    assert (v.trace + [Cleared(key, v.active[key])])[..|v.trace|] == v.trace;
  }

  datatype Alert = Alert(id: int, key: Key, labels: Labels, severity: string, state: RowState, lastValue: real, threshold: Threshold)

  datatype ResolveResult = NotActive | ResolveError | ResolvedAlert(alert: Alert)

  class StateStore {
    var rows: map<int, Row>
    var nextId: int
    var active: map<Key, int>
    const outcome: nat -> bool // which database calls succeed
    var calls: nat
    ghost var trace: seq<Transition>
    const codec: Codec

    ghost function View(): StoreView
      reads this
    {
      StoreView(rows, nextId, active, Failures(), trace)
    }

    ghost function Failures(): nat
      reads this`calls
    {
      CountFailures(outcome, calls)
    }

    /** A fresh database. */
    constructor (codec: Codec, outcome: nat -> bool)
      ensures View() == StoreView(map[], 1, map[], 0, [])
      ensures View().Valid() && this.codec == codec && this.outcome == outcome
    {
      this.codec, this.outcome := codec, outcome;
      rows, nextId, active, calls, trace := map[], 1, map[], 0, [];
    }

    method DbCall() returns (ok: bool)
      modifies this`calls
      ensures ok == outcome(old(calls)) && calls == old(calls) + 1
      ensures Failures() == old(Failures()) + if ok then 0 else 1
    {
      ok := outcome(calls);
      calls := calls + 1;
    }

    /** Rebuilds the cache from the firing rows, in any row order. */
    method LoadActive() returns (ok: bool)
      modifies this`active, this`calls
      ensures ok == outcome(old(calls)) && calls == old(calls) + 1
      ensures Failures() == old(Failures()) + if ok then 0 else 1
      ensures !ok ==> active == old(active)
      ensures ok ==> IsCacheOf(rows, active)
    {
      ok := DbCall();
      if !ok {
        return;
      }
      var loaded := ScanFiring(rows);
      active := loaded;
    }

    /** A server restart: the cache is lost and rebuilt from the table. */
    method Restart() returns (ok: bool)
      requires View().Valid()
      modifies this`active, this`calls
      ensures ok == outcome(old(calls)) && calls == old(calls) + 1
      ensures Failures() == old(Failures()) + if ok then 0 else 1
      ensures View().Valid()
      ensures Failures() == 0 ==> active == old(active)
    {
      ghost var before := View();
      active := map[];
      ok := LoadActive();
      if before.failures == 0 && ok {
        CacheIsDeterminedByTable(before, active);
      }
    }

    predicate IsActive(key: Key)
      reads this
    {
      key in active
    }

    /** Inserts a firing row, then caches it under the re-encoded labels. */
    method Fire(r: Rule, nodeID: string, labels: Labels, lastValue: real) returns (alert: Option<Alert>)
      requires View().Coherent()
      modifies this
      ensures (alert.Some? <==> outcome(old(calls))) && calls == old(calls) + 1
      ensures alert == None ==> View() == old(View()).(failures := old(Failures()) + 1)
      ensures alert.Some? ==>
        && alert.value == Alert(old(nextId), FireKeyOf(codec, r, nodeID, labels), labels, r.severity, Firing, lastValue, r.threshold)
        && View() == FiredView(old(View()), codec, r, nodeID, labels, lastValue)
      ensures View().Coherent()
      ensures old(View()).Valid() && old(!IsActive(FireKeyOf(codec, r, nodeID, labels))) ==> View().Valid()
    {
      hide StoreView.Coherent, StoreView.Sound, CountFailures;
      FireKeepsValid(View(), codec, r, nodeID, labels, lastValue);
      var key := FireKeyOf(codec, r, nodeID, labels);
      var ok := DbCall();
      if !ok {
        return None;
      }
      var id := nextId;
      rows, nextId := rows[id := Row(key, r.severity, Firing, lastValue, r.threshold)], nextId + 1;
      trace := trace + [Fired(key, id)];
      active := active[key := id];
      return Some(Alert(id, key, labels, r.severity, Firing, lastValue, r.threshold));
    }

    /** Takes the key out of the cache, then resolves its row and reads it back. */
    method Resolve(key: Key, lastValue: real) returns (res: ResolveResult)
      requires View().Valid()
      modifies this
      ensures View().Valid()
      ensures Failures() == old(Failures()) + if res == ResolveError then 1 else 0
      ensures res.ResolvedAlert? <==> old(IsActive(key)) && outcome(old(calls)) && outcome(old(calls) + 1)
      ensures res == NotActive <==> old(!IsActive(key))
      ensures res == NotActive ==> View() == old(View())
      ensures old(IsActive(key)) ==> active == old(active) - {key}
      ensures nextId == old(nextId) && rows.Keys == old(rows).Keys
      ensures forall id | id in rows && rows[id] != old(rows)[id] ::
                rows[id] == old(rows)[id].(state := Resolved, lastValue := lastValue)
      ensures res.ResolvedAlert? ==>
        var id := old(active)[key];
        var row := old(rows)[id];
        res.alert == Alert(id, key, codec.FromJSON(key.labelsJSON), row.severity, Resolved, lastValue, row.threshold)
      ensures if old(IsActive(key)) && outcome(old(calls)) then
          var id := old(active)[key];
          && rows == old(rows)[id := old(rows)[id].(state := Resolved, lastValue := lastValue)]
          && trace == old(trace) + [Cleared(key, id)]
        else
          rows == old(rows) && trace == old(trace)
    {
      if key !in active {
        return NotActive;
      }
      hide StoreView.Coherent, StoreView.Sound, CountFailures;
      var id := active[key];
      TakenKeyIsFiring(View(), key);
      TakeKeepsValid(View(), key, lastValue);
      active := active - {key};
      var ok := DbCall();
      if !ok {
        return ResolveError;
      }
      rows := rows[id := rows[id].(state := Resolved, lastValue := lastValue)];
      trace := trace + [Cleared(key, id)];
      ok := DbCall();
      if !ok {
        return ResolveError;
      }
      var row := rows[id];
      return ResolvedAlert(Alert(id, row.key, codec.FromJSON(row.key.labelsJSON), row.severity, row.state, row.lastValue, row.threshold));
    }

    /** Best effort: the error is ignored and no state changes. */
    method UpdateLastValue(key: Key, lastValue: real)
      requires View().Valid()
      modifies this`rows, this`calls
      ensures View().Valid()
      ensures old(Failures()) <= Failures()
      ensures IsActive(key) ==> active[key] in old(rows) && old(rows)[active[key]].state == Firing
      ensures rows == if IsActive(key) && outcome(old(calls))
                      then old(rows)[active[key] := old(rows)[active[key]].(lastValue := lastValue)] else old(rows)
    {
      if key !in active {
        return;
      }
      var id := active[key];
      var ok := DbCall();
      if ok {
        rows := rows[id := rows[id].(lastValue := lastValue)];
      }
    }

    /** A snapshot of the cached keys. */
    method ActiveKeys() returns (keys: set<Key>)
      ensures forall k :: k in keys <==> IsActive(k)
    {
      keys := active.Keys;
    }
  }
}
