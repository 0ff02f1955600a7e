/** The reactive config observer: the plugin registry with its watch index, and the order in which the plugins of a
    batch are rendered. Plugins are named by their registration number. */
module ObserverRegistry {
  import opened Common

  datatype Metadata = Metadata(priority: int, dangerous: bool, dangerReason: string, backupPaths: Option<seq<string>>) {
    predicate Valid() {
      && 0 <= priority <= 1000
      && (dangerous <==> dangerReason != "")
      && (backupPaths.Some? ==> backupPaths.value != [])
    }

    /** Zero is the unset sentinel and means 100. */
    function EffectivePriority(): int {
      if priority == 0 then 100 else priority
    }
  }

  datatype Plugin = Plugin(name: string, watched: seq<string>, meta: Metadata)

  /** The linear scan: the plugins that watch one of the changed keys. */
  function AffectedBy(plugins: seq<Plugin>, changed: seq<string>): set<nat> {
    set q | 0 <= q < |plugins| && IsAffected(plugins, changed, q)
  }

  predicate IsAffected(plugins: seq<Plugin>, changed: seq<string>, q: nat) {
    exists key | key in changed :: Watches(plugins, key, q)
  }

  lemma AffectedMeans(plugins: seq<Plugin>, changed: seq<string>)
    ensures forall q: nat :: q in AffectedBy(plugins, changed) <==> q < |plugins| && exists key | key in changed :: key in plugins[q].watched
  {
    forall q: nat
      ensures q in AffectedBy(plugins, changed) <==> q < |plugins| && exists key | key in changed :: key in plugins[q].watched
    {
      if q < |plugins| {
        if key :| key in changed && key in plugins[q].watched {
          assert Watches(plugins, key, q);
        }
      }
    }
  }

  lemma AffectedGrows(plugins: seq<Plugin>, changed: seq<string>, i: nat)
    requires i < |changed|
    ensures forall q: nat :: q in AffectedBy(plugins, changed[..i + 1])
                             <==> q in AffectedBy(plugins, changed[..i]) || Watches(plugins, changed[i], q)
  {
  }

  predicate Watches(plugins: seq<Plugin>, key: string, q: nat) {
    q < |plugins| && key in plugins[q].watched
  }

  predicate Indexed(index: map<string, seq<nat>>, key: string, q: nat) {
    q in IndexAt(index, key)
  }

  function IndexAt(index: map<string, seq<nat>>, key: string): seq<nat> {
    if key in index then index[key] else []
  }

  class Registry {
    var plugins: seq<Plugin>
    var byName: map<string, nat>
    var watchIndex: map<string, seq<nat>>

    ghost predicate Valid()
      reads this
    {
      && (forall q | 0 <= q < |plugins| :: plugins[q].name in byName && byName[plugins[q].name] == q)
      && (forall n | n in byName :: byName[n] < |plugins| && plugins[byName[n]].name == n)
      && (forall key, q: nat :: Indexed(watchIndex, key, q) <==> Watches(plugins, key, q))
    }

    constructor ()
      ensures Valid() && plugins == []
    {
      plugins, byName, watchIndex := [], map[], map[];
      new;
      assert forall key :: IndexAt(watchIndex, key) == [];
    }

    /** A duplicate name or invalid metadata is refused (a panic at start-up) and changes nothing. */
    method Register(p: Plugin) returns (ok: bool)
      requires Valid()
      modifies this
      ensures Valid()
      ensures ok <==>
              && 0 <= p.meta.priority <= 1000
              && (p.meta.dangerous <==> p.meta.dangerReason != "")
              && (p.meta.backupPaths == None || p.meta.backupPaths.value != [])
              && forall q | 0 <= q < |old(plugins)| :: old(plugins)[q].name != p.name
      ensures plugins == if ok then old(plugins) + [p] else old(plugins)
    {
      if p.name in byName || !p.meta.Valid() {
        return false;
      }
      ok := true;
      var q := |plugins|;
      plugins := plugins + [p];
      byName := byName[p.name := q];
      ghost var before := watchIndex;
      watchIndex := IndexPlugin(watchIndex, p.watched, q);
      forall key, n: nat
        ensures Indexed(watchIndex, key, n) <==> Watches(plugins, key, n)
      {
        assert Indexed(before, key, n) <==> Watches(old(plugins), key, n);
      }
    }

    /** The fan-out of a notification: the watch index agrees with the linear scan, each plugin once. */
    method Affected(changed: seq<string>) returns (affected: seq<nat>)
      requires Valid()
      ensures forall q :: q in affected <==> q in AffectedBy(plugins, changed)
      ensures forall q: nat :: q in affected <==> q < |plugins| && exists key | key in changed :: key in plugins[q].watched
      ensures forall i, j | 0 <= i < j < |affected| :: affected[i] != affected[j]
    {
      AffectedMeans(plugins, changed);
      affected := [];
      var seen: set<nat> := {};
      for i := 0 to |changed|
        invariant forall q :: q in seen <==> q in AffectedBy(plugins, changed[..i])
        invariant forall q :: q in affected <==> q in seen
        invariant forall a, b | 0 <= a < b < |affected| :: affected[a] != affected[b]
      {
        affected, seen := AddUnseen(IndexAt(watchIndex, changed[i]), affected, seen);
        AffectedGrows(plugins, changed, i);
        assert forall q: nat :: Indexed(watchIndex, changed[i], q) <==> Watches(plugins, changed[i], q);
      }
      assert changed[..|changed|] == changed;
    }
  }

  method IndexPlugin(index: map<string, seq<nat>>, watched: seq<string>, q: nat) returns (extended: map<string, seq<nat>>)
    ensures forall key, n: nat :: Indexed(extended, key, n) <==> Indexed(index, key, n) || (n == q && key in watched)
  {
    extended := index;
    for i := 0 to |watched|
      invariant forall key, n: nat :: Indexed(extended, key, n) <==> Indexed(index, key, n) || (n == q && key in watched[..i])
    {
      ghost var before := extended;
      extended := extended[watched[i] := IndexAt(extended, watched[i]) + [q]];
      assert watched[..i + 1] == watched[..i] + [watched[i]];
      forall key, n: nat
        ensures Indexed(extended, key, n) <==> Indexed(before, key, n) || (n == q && key == watched[i])
      {
        assert IndexAt(extended, key) == IndexAt(before, key) + if key == watched[i] then [q] else [];
      }
    }
    assert watched[..|watched|] == watched;
  }

  method AddUnseen(found: seq<nat>, affected: seq<nat>, seen: set<nat>) returns (affected': seq<nat>, seen': set<nat>)
    requires forall q :: q in affected <==> q in seen
    requires forall a, b | 0 <= a < b < |affected| :: affected[a] != affected[b]
    ensures forall q :: q in affected' <==> q in seen'
    ensures forall q: nat :: q in seen' <==> q in seen || q in found
    ensures forall a, b | 0 <= a < b < |affected'| :: affected'[a] != affected'[b]
  {
    affected', seen' := affected, seen;
    for i := 0 to |found|
      invariant forall q :: q in affected' <==> q in seen'
      invariant forall q: nat :: q in seen' <==> q in seen || q in found[..i]
      invariant forall a, b | 0 <= a < b < |affected'| :: affected'[a] != affected'[b]
    {
      if found[i] !in seen' {
        affected', seen' := affected' + [found[i]], seen' + {found[i]};
      }
    }
    assert found[..|found|] == found;
  }

  // ----- dispatch order -----

  /** Ascending effective priority, then registration order. */
  predicate Before(plugins: seq<Plugin>, a: nat, b: nat)
    requires a < |plugins| && b < |plugins|
  {
    var pa, pb := plugins[a].meta.EffectivePriority(), plugins[b].meta.EffectivePriority();
    pa < pb || (pa == pb && a < b)
  }

  ghost predicate IsDispatchOrder(plugins: seq<Plugin>, queues: set<nat>, order: seq<nat>) {
    && (forall q: nat :: q in order <==> q in queues)
    && (forall i | 0 <= i < |order| :: order[i] < |plugins|)
    && (forall i, j | 0 <= i < j < |order| :: Before(plugins, order[i], order[j]))
  }

  /** The order of a batch is determined by its plugins, however the batch was collected. */
  lemma {:induction false} DispatchOrderIsUnique(plugins: seq<Plugin>, queues: set<nat>, s: seq<nat>, t: seq<nat>)
    requires IsDispatchOrder(plugins, queues, s) && IsDispatchOrder(plugins, queues, t)
    ensures s == t
    decreases |s|
  {
    if s == [] || t == [] {
      EmptyOrder(plugins, queues, s, t);
      EmptyOrder(plugins, queues, t, s);
    } else {
      assert s[0] in queues && t[0] in queues;
      assert s[0] == t[0] by {
        var i :| 0 <= i < |t| && t[i] == s[0];
        var j :| 0 <= j < |s| && s[j] == t[0];
      }
      TailOrder(plugins, queues, s);
      TailOrder(plugins, queues, t);
      DispatchOrderIsUnique(plugins, queues - {s[0]}, s[1..], t[1..]);
      assert s == [s[0]] + s[1..] && t == [t[0]] + t[1..];
    }
  }

  lemma EmptyOrder(plugins: seq<Plugin>, queues: set<nat>, s: seq<nat>, t: seq<nat>)
    requires IsDispatchOrder(plugins, queues, s) && IsDispatchOrder(plugins, queues, t)
    ensures |s| > 0 ==> |t| > 0
  {
    if |s| > 0 {
      assert s[0] in s;
      assert s[0] in queues;
      assert s[0] in t;
    }
  }

  lemma TailOrder(plugins: seq<Plugin>, queues: set<nat>, s: seq<nat>)
    requires IsDispatchOrder(plugins, queues, s) && s != []
    ensures IsDispatchOrder(plugins, queues - {s[0]}, s[1..])
  {
  }

  /** Low priority values come first, 100 standing for an unset one, and among equals the plugin registered first. */
  ghost predicate RunsBefore(plugins: seq<Plugin>, q: nat, q': nat)
    requires q < |plugins| && q' < |plugins|
  {
    var p := if plugins[q].meta.priority == 0 then 100 else plugins[q].meta.priority;
    var p' := if plugins[q'].meta.priority == 0 then 100 else plugins[q'].meta.priority;
    p < p' || (p == p' && q < q')
  }

  lemma RunsBeforeMeans(plugins: seq<Plugin>, q: nat, q': nat)
    requires q < |plugins| && q' < |plugins|
    ensures RunsBefore(plugins, q, q') <==> Before(plugins, q, q')
  {
  }

  lemma DispatchOrderMeans(plugins: seq<Plugin>, queues: set<nat>, order: seq<nat>)
    requires IsDispatchOrder(plugins, queues, order)
    ensures forall i, j | 0 <= i < j < |order| ::
              order[i] < |plugins| && order[j] < |plugins| && RunsBefore(plugins, order[i], order[j])
  {
    forall i, j | 0 <= i < j < |order|
      ensures order[i] < |plugins| && order[j] < |plugins| && RunsBefore(plugins, order[i], order[j])
    {
      RunsBeforeMeans(plugins, order[i], order[j]);
    }
  }

  /** `fireBatch` collects the plugins in any order and sorts them. */
  method SortedByPriority(plugins: seq<Plugin>, queues: set<nat>) returns (order: seq<nat>)
    requires forall q | q in queues :: q < |plugins|
    ensures IsDispatchOrder(plugins, queues, order)
    ensures forall q: nat :: q in order <==> q in queues
    ensures forall i, j | 0 <= i < j < |order| ::
              order[i] < |plugins| && order[j] < |plugins| && RunsBefore(plugins, order[i], order[j])
  {
    order := [];
    var todo := queues;
    while exists q :: q in todo
      invariant todo <= queues
      invariant IsDispatchOrder(plugins, queues - todo, order)
      decreases |todo|
    {
      var q :| q in todo;
      ghost var done := queues - todo;
      todo := todo - {q};
      order := InsertByPriority(plugins, done, order, q);
      assert queues - todo == done + {q};
    }
    assert queues - todo == queues;
    DispatchOrderMeans(plugins, queues, order);
  }

  method InsertByPriority(plugins: seq<Plugin>, ghost queues: set<nat>, order: seq<nat>, q: nat) returns (longer: seq<nat>)
    requires IsDispatchOrder(plugins, queues, order) && q < |plugins| && q !in queues
    ensures IsDispatchOrder(plugins, queues + {q}, longer)
  {
    var i := 0;
    while i < |order| && Before(plugins, order[i], q)
      invariant 0 <= i <= |order|
      invariant forall j | 0 <= j < i :: Before(plugins, order[j], q)
    {
      i := i + 1;
    }
    longer := order[..i] + [q] + order[i..];
    InsertedAt(plugins, queues, order, q, i);
  }

  lemma InsertedAt(plugins: seq<Plugin>, queues: set<nat>, order: seq<nat>, q: nat, i: nat)
    requires IsDispatchOrder(plugins, queues, order) && q < |plugins| && q !in queues && i <= |order|
    requires forall j | 0 <= j < i :: Before(plugins, order[j], q)
    requires i < |order| ==> !Before(plugins, order[i], q)
    ensures IsDispatchOrder(plugins, queues + {q}, order[..i] + [q] + order[i..])
  {
  }
}
