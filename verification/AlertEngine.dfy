/** The alert engine: one tick evaluates every rule over every node and label group, moves keys between
    inactive and firing, and notifies on transitions. Nodes and groups are visited in any order. */
module AlertEngine {
  import opened Common
  import opened AlertRules
  import opened AlertStore

  /** A call of the dispatcher. */
  datatype Notice = FiringNotice(id: int, key: Key) | ResolvedNotice(id: int, key: Key)

  /** What the silence checks of one tick see. A key is checked at most once in a tick, so the view is
      given per key. */
  datatype Silencer = Silencer(views: Key -> SilenceView) {
    predicate Quiet(key: Key) {
      views(key).IsSilenced(key.ruleName, key.nodeID)
    }
  }

  /** What the queries made for one rule in one tick return. */
  datatype Observation = Observation(
    nodes: set<string>,
    samples: map<string, seq<Sample>>,
    lapsed: set<string>,    // nodes whose last heartbeat is too old
    neverSeen: set<string>) // nodes without any heartbeat
  {
    function Offline(): set<string> {
      lapsed + neverSeen
    }

    function RowsOf(node: string): seq<Sample> {
      if node in samples then samples[node] else []
    }
  }

  /** The observation of a rule when all its queries read the same tables. */
  function Observe(db: StatsTables, r: Rule, now: int): Observation {
    var nodes := db.NodesInWindow(r, now);
    Observation(nodes, map n | n in nodes :: db.NodeSamples(r, now, n), db.Lapsed(r, now), db.NeverSeen())
  }

  // ----- label groups -----

  function GroupKeys(codec: Codec, rows: seq<Sample>): set<string> {
    set s | s in rows :: codec.ToJSON(s.labels)
  }

  function GroupOf(codec: Codec, rows: seq<Sample>, group: string): seq<Sample> {
    if rows == [] then []
    else
      var init := GroupOf(codec, rows[..|rows| - 1], group);
      var last := rows[|rows| - 1];
      if codec.ToJSON(last.labels) == group then init + [last] else init
  }

  /** A group holds exactly the rows with its label encoding. */
  lemma {:induction false} GroupOfMembers(codec: Codec, rows: seq<Sample>, group: string)
    ensures forall s :: s in GroupOf(codec, rows, group) <==> s in rows && codec.ToJSON(s.labels) == group
  {
    if rows != [] {
      GroupOfMembers(codec, rows[..|rows| - 1], group);
      assert rows == rows[..|rows| - 1] + [rows[|rows| - 1]];
    }
  }

  /** The non-empty groups of the rows, by encoding. */
  ghost predicate Grouping(codec: Codec, rows: seq<Sample>, groups: map<string, seq<Sample>>) {
    && groups.Keys == GroupKeys(codec, rows)
    && forall g :: if g in groups then groups[g] == GroupOf(codec, rows, g) != [] else GroupOf(codec, rows, g) == []
  }

  lemma GroupingGrows(codec: Codec, rows: seq<Sample>, row: Sample, groups: map<string, seq<Sample>>)
    requires Grouping(codec, rows, groups)
    ensures var key := codec.ToJSON(row.labels);
      Grouping(codec, rows + [row], groups[key := (if key in groups then groups[key] else []) + [row]])
  {
    assert (rows + [row])[..|rows|] == rows;
  }

  predicate AllSatisfy(r: Rule, rows: seq<Sample>) {
    forall s | s in rows :: r.threshold.Evaluate(s.value)
  }

  function KeyOf(r: Rule, node: string, group: string): Key {
    Key(r.name, node, r.sensor, group)
  }

  /** The keys of some label groups of a node that the rule decides, and those that it wants firing. */
  function GroupsScope(codec: Codec, r: Rule, node: string, groups: set<string>): set<Key> {
    set g | g in groups && r.MatchesLabels(codec.FromJSON(g)) :: KeyOf(r, node, g)
  }

  function GroupsWant(codec: Codec, r: Rule, node: string, rows: seq<Sample>, groups: set<string>): set<Key> {
    set g | g in groups && r.MatchesLabels(codec.FromJSON(g)) && AllSatisfy(r, GroupOf(codec, rows, g)) :: KeyOf(r, node, g)
  }

  lemma GroupsGrow(codec: Codec, r: Rule, node: string, rows: seq<Sample>, groups: set<string>, g: string)
    requires g !in groups
    ensures var one := if r.MatchesLabels(codec.FromJSON(g)) then {KeyOf(r, node, g)} else {};
      && GroupsScope(codec, r, node, groups + {g}) == GroupsScope(codec, r, node, groups) + one
      && GroupsWant(codec, r, node, rows, groups + {g})
         == GroupsWant(codec, r, node, rows, groups) + (if AllSatisfy(r, GroupOf(codec, rows, g)) then one else {})
      && GroupsScope(codec, r, node, groups) !! one
      && GroupsWant(codec, r, node, rows, groups) <= GroupsScope(codec, r, node, groups)
  {
    hide GroupOf, AllSatisfy;
  }

  lemma StableGroup(codec: Codec, rows: seq<Sample>, g: string)
    requires codec.Stable() && g in GroupKeys(codec, rows)
    ensures codec.ToJSON(codec.FromJSON(g)) == g
  {
  }

  lemma NoGroups(codec: Codec, r: Rule, node: string, rows: seq<Sample>)
    ensures GroupsScope(codec, r, node, {}) == {} && GroupsWant(codec, r, node, rows, {}) == {}
  {
  }

  /** The same for all groups of a node. */
  function NodeScope(codec: Codec, r: Rule, node: string, rows: seq<Sample>): set<Key> {
    GroupsScope(codec, r, node, GroupKeys(codec, rows))
  }

  function NodeWant(codec: Codec, r: Rule, node: string, rows: seq<Sample>): set<Key> {
    GroupsWant(codec, r, node, rows, GroupKeys(codec, rows))
  }

  lemma NoRows(codec: Codec, r: Rule, node: string)
    ensures NodeScope(codec, r, node, []) == {} && NodeWant(codec, r, node, []) == {}
  {
  }

  function NodesScope(codec: Codec, r: Rule, obs: Observation, nodes: set<string>): set<Key> {
    set n, k | n in nodes && k in NodeScope(codec, r, n, obs.RowsOf(n)) :: k
  }

  function NodesWant(codec: Codec, r: Rule, obs: Observation, nodes: set<string>): set<Key> {
    set n, k | n in nodes && k in NodeWant(codec, r, n, obs.RowsOf(n)) :: k
  }

  lemma NodesGrow(codec: Codec, r: Rule, obs: Observation, nodes: set<string>, node: string)
    requires node !in nodes
    ensures var rows := obs.RowsOf(node);
      && NodesScope(codec, r, obs, nodes + {node}) == NodesScope(codec, r, obs, nodes) + NodeScope(codec, r, node, rows)
      && NodesWant(codec, r, obs, nodes + {node}) == NodesWant(codec, r, obs, nodes) + NodeWant(codec, r, node, rows)
      && NodesScope(codec, r, obs, nodes) !! NodeScope(codec, r, node, rows)
      && NodeWant(codec, r, node, rows) <= NodeScope(codec, r, node, rows)
  {
  }

  lemma WantWithinScope(codec: Codec, r: Rule, obs: Observation, nodes: set<string>)
    ensures NodesWant(codec, r, obs, nodes) <= NodesScope(codec, r, obs, nodes)
    ensures forall k | k in NodesScope(codec, r, obs, nodes) :: k.ruleName == r.name && k.nodeID in nodes
  {
    forall n, k | n in nodes && k in NodeWant(codec, r, n, obs.RowsOf(n))
      ensures k in NodeScope(codec, r, n, obs.RowsOf(n))
    {
    }
  }

  lemma ScopeOfRows(codec: Codec, r: Rule, obs: Observation, seen: Observation, nodes: set<string>)
    requires forall n | n in nodes :: obs.RowsOf(n) == seen.RowsOf(n)
    ensures NodesWant(codec, r, obs, nodes) == NodesWant(codec, r, seen, nodes)
    ensures NodesScope(codec, r, obs, nodes) == NodesScope(codec, r, seen, nodes)
  {
  }

  lemma NoNodes(codec: Codec, r: Rule, obs: Observation)
    ensures NodesScope(codec, r, obs, {}) == {} && NodesWant(codec, r, obs, {}) == {}
  {
  }

  lemma SeenAll(obs: Observation)
    ensures SeenPart(obs, Some(obs)) && obs.samples.Keys - obs.samples.Keys == {}
  {
  }

  lemma OneMoreLost(all: set<string>, kept: set<string>, node: string)
    ensures |all - (kept - {node})| <= |all - kept| + 1
  {
    assert all - (kept - {node}) <= (all - kept) + {node};
    SubsetSize(all - (kept - {node}), (all - kept) + {node});
  }

  lemma SubsetSize(a: set<string>, b: set<string>)
    requires a <= b
    ensures |a| <= |b|
  {
    assert |b - a| == |b| - |a|;
  }

  lemma NothingLost(obs: Observation, part: Observation)
    requires SeenPart(obs, Some(part)) && |obs.samples.Keys - part.samples.Keys| == 0
    ensures part.samples == obs.samples
  {
    assert obs.samples.Keys - part.samples.Keys == {};
    assert obs.samples.Keys <= part.samples.Keys;
  }

  /** The samples that are left when the query of one more node succeeds or fails. */
  function SeenAfter(seen: Observation, node: string, ok: bool): Observation {
    if ok then seen else seen.(samples := seen.samples - {node})
  }

  lemma SeenShrinks(obs: Observation, seen: Observation, node: string, ok: bool)
    requires seen == obs.(samples := seen.samples) && SeenPart(obs, Some(seen))
    ensures var after := SeenAfter(seen, node, ok);
      && after == obs.(samples := after.samples) && SeenPart(obs, Some(after))
      && |obs.samples.Keys - after.samples.Keys| <= |obs.samples.Keys - seen.samples.Keys| + (if ok then 0 else 1)
      && (forall n | n != node :: after.RowsOf(n) == seen.RowsOf(n))
      && after.RowsOf(node) == if ok then seen.RowsOf(node) else []
  {
    OneMoreLost(obs.samples.Keys, seen.samples.Keys, node);
    assert (seen.samples - {node}).Keys == seen.samples.Keys - {node};
  }

  lemma NodesStep(codec: Codec, r: Rule, seen: Observation, done: set<string>, node: string, ok: bool)
    requires node !in done
    requires forall n | n != node :: SeenAfter(seen, node, ok).RowsOf(n) == seen.RowsOf(n)
    ensures var after := SeenAfter(seen, node, ok);
      var rows, scope, want := after.RowsOf(node), NodesScope(codec, r, seen, done), NodesWant(codec, r, seen, done);
      && NodesScope(codec, r, after, done + {node}) == scope + NodeScope(codec, r, node, rows)
      && NodesWant(codec, r, after, done + {node}) == want + NodeWant(codec, r, node, rows)
      && scope !! NodeScope(codec, r, node, rows)
      && want <= scope && NodeWant(codec, r, node, rows) <= NodeScope(codec, r, node, rows)
  {
    var after := SeenAfter(seen, node, ok);
    ScopeOfRows(codec, r, seen, after, done);
    NodesGrow(codec, r, after, done, node);
    WantWithinScope(codec, r, seen, done);
  }

  /** The cached keys of the rule on nodes outside `live`. */
  function Stale(r: Rule, live: set<string>, active: map<Key, int>): set<Key> {
    set k | k in active && k.ruleName == r.name && k.nodeID !in live
  }

  lemma NoneOffline(r: Rule)
    ensures OfflineKeys(r, {}) == {}
  {
  }

  lemma OfflineGrows(r: Rule, offline: set<string>, node: string)
    requires node !in offline
    ensures OfflineKeys(r, offline + {node}) == OfflineKeys(r, offline) + {KeyOf(r, node, "")}
    ensures KeyOf(r, node, "") !in OfflineKeys(r, offline)
  {
  }

  function OfflineKeys(r: Rule, offline: set<string>): set<Key> {
    set n | n in offline :: KeyOf(r, n, "")
  }

  /** The keys that one evaluation of a rule decides, given the cache it starts from ... */
  function RuleScope(codec: Codec, r: Rule, obs: Observation, active: map<Key, int>): set<Key> {
    if !r.IsOfflineMeta() then
      NodesScope(codec, r, obs, obs.nodes) + Stale(r, obs.nodes, active)
    else if r.AppliesToRole(CLUSTER_NODE) then
      OfflineKeys(r, obs.Offline()) + Stale(r, obs.Offline(), active)
    else {}
  }

  /** ... and those that it wants firing. */
  function RuleWant(codec: Codec, r: Rule, obs: Observation): set<Key> {
    if !r.IsOfflineMeta() then
      NodesWant(codec, r, obs, obs.nodes)
    else if r.AppliesToRole(CLUSTER_NODE) then
      OfflineKeys(r, obs.Offline())
    else {}
  }

  /** What the queries of one rule delivered: nothing if the first one failed, else part of the observation. */
  ghost predicate SeenPart(obs: Observation, seen: Option<Observation>) {
    seen.Some? ==>
      && seen.value.nodes <= obs.nodes && seen.value.lapsed <= obs.lapsed && seen.value.neverSeen <= obs.neverSeen
      && forall n | n in seen.value.samples :: n in obs.samples && seen.value.samples[n] == obs.samples[n]
  }

  function SeenScope(codec: Codec, r: Rule, seen: Option<Observation>, active: map<Key, int>): set<Key> {
    if seen.Some? then RuleScope(codec, r, seen.value, active) else {}
  }

  function SeenWant(codec: Codec, r: Rule, seen: Option<Observation>): set<Key> {
    if seen.Some? then RuleWant(codec, r, seen.value) else {}
  }

  // ----- effect of an evaluation -----

  datatype World = World(store: StoreView, notices: seq<Notice>) {
    ghost predicate Active(key: Key) {
      key in store.active
    }
  }

  /** What happens to a key: outside the scope nothing; an unwanted key of the scope ends inactive whatever fails; a
      wanted key stays active, and one that was inactive fires unless a call fails. */
  ghost predicate KeyOutcome(w0: World, w: World, inScope: bool, wanted: bool, k: Key) {
    if !inScope then w.Active(k) <==> w0.Active(k)
    else if !wanted then !w.Active(k)
    else (w0.Active(k) ==> w.Active(k)) && (w.store.failures == w0.store.failures ==> w.Active(k))
  }

  /** The cache change; a key that stays cached keeps its row. */
  ghost predicate CacheMoved(w0: World, w: World, scope: set<Key>, want: set<Key>) {
    && w0.store.failures <= w.store.failures
    && (forall k :: KeyOutcome(w0, w, k in scope, k in want, k))
    && (forall k :: w0.Active(k) && w.Active(k) ==> w.store.active[k] == w0.store.active[k])
  }

  /** The table change: ids only grow, no row is removed, a resolved row stays resolved, and a key that
      started firing has a row that did not exist before. */
  ghost predicate TableMoved(w0: World, w: World) {
    && w0.store.nextId <= w.store.nextId
    && (forall id | id in w0.store.rows && w0.store.rows[id].state == Resolved :: id in w.store.rows && w.store.rows[id].state == Resolved)
    && (forall k :: w.Active(k) && !w0.Active(k) ==> w0.store.nextId <= w.store.active[k])
  }

  /** A notice that reports a transition between two worlds. */
  ghost predicate Reports(w0: World, w: World, n: Notice) {
    match n
    case FiringNotice(id, k) => !w0.Active(k) && w.Active(k) && w.store.active[k] == id
    case ResolvedNotice(id, k) =>
      && w0.Active(k) && !w.Active(k) && w0.store.active[k] == id
      && id in w.store.rows && w.store.rows[id].state == Resolved
  }

  /** The notices sent: every one reports a transition and no key is reported twice; whatever fails, a key that started
      firing is reported unless a silence covers it; without failures in between, a silenced one is not reported and
      every resolution is. */
  ghost predicate Announced(w0: World, w: World, hush: Silencer, sent: seq<Notice>) {
    && (forall n | n in sent :: Reports(w0, w, n))
    && (forall i, j | 0 <= i < j < |sent| :: sent[i].key != sent[j].key)
    && (forall k | !w0.Active(k) && w.Active(k) && !hush.Quiet(k) :: FiringNotice(w.store.active[k], k) in sent)
    && (w.store.failures == w0.store.failures ==>
          && (forall k | !w0.Active(k) && w.Active(k) && hush.Quiet(k) :: FiringNotice(w.store.active[k], k) !in sent)
          && (forall k | w0.Active(k) && !w.Active(k) :: ResolvedNotice(w0.store.active[k], k) in sent))
  }

  ghost predicate Moved(w0: World, w: World, hush: Silencer, scope: set<Key>, want: set<Key>) {
    && CacheMoved(w0, w, scope, want)
    && TableMoved(w0, w)
    && |w0.notices| <= |w.notices| && w.notices[..|w0.notices|] == w0.notices
    && Announced(w0, w, hush, w.notices[|w0.notices|..])
  }

  /** Evaluations of disjoint scopes compose. */
  lemma MovedCompose(w0: World, w1: World, w2: World, hush: Silencer,
                     scope1: set<Key>, want1: set<Key>, scope2: set<Key>, want2: set<Key>)
    requires want1 <= scope1 && want2 <= scope2 && scope1 !! scope2
    requires Moved(w0, w1, hush, scope1, want1) && Moved(w1, w2, hush, scope2, want2)
    ensures Moved(w0, w2, hush, scope1 + scope2, want1 + want2)
  {
    var s1, s2 := w1.notices[|w0.notices|..], w2.notices[|w1.notices|..];
    assert w2.notices[|w0.notices|..] == s1 + s2;
    forall k
      ensures (w0.Active(k) <==> w1.Active(k)) || (w1.Active(k) <==> w2.Active(k))
      ensures KeyOutcome(w0, w2, k in scope1 + scope2, k in want1 + want2, k)
      ensures w0.Active(k) && w2.Active(k) ==> w2.store.active[k] == w0.store.active[k]
    {
      assert KeyOutcome(w0, w1, k in scope1, k in want1, k) && KeyOutcome(w1, w2, k in scope2, k in want2, k);
    }
    AnnouncedCompose(w0, w1, w2, hush, s1, s2);
  }

  lemma AnnouncedCompose(w0: World, w1: World, w2: World, hush: Silencer, s1: seq<Notice>, s2: seq<Notice>)
    requires w0.store.failures <= w1.store.failures <= w2.store.failures
    requires Announced(w0, w1, hush, s1) && Announced(w1, w2, hush, s2)
    requires TableMoved(w1, w2)
    requires forall k :: (w0.Active(k) <==> w1.Active(k)) || (w1.Active(k) <==> w2.Active(k))
    requires forall k :: w0.Active(k) && w1.Active(k) ==> w0.store.active[k] == w1.store.active[k]
    requires forall k :: w1.Active(k) && w2.Active(k) ==> w1.store.active[k] == w2.store.active[k]
    ensures Announced(w0, w2, hush, s1 + s2)
  {
    var s := s1 + s2;
    forall i, j | 0 <= i < j < |s|
      ensures s[i].key != s[j].key
    {
      if i < |s1| <= j {
        assert Reports(w0, w1, s1[i]) && Reports(w1, w2, s2[j - |s1|]);
      }
    }
    if w2.store.failures == w0.store.failures {
      forall k | !w0.Active(k) && w2.Active(k) && hush.Quiet(k)
        ensures FiringNotice(w2.store.active[k], k) !in s
      {
        var n := FiringNotice(w2.store.active[k], k);
        assert !Reports(w0, w1, n) || !Reports(w1, w2, n);
      }
    }
  }

  /** Nothing moved. */
  lemma MovedNothing(w0: World, w: World, hush: Silencer, scope: set<Key>, want: set<Key>)
    requires w.store.rows == w0.store.rows && w.store.nextId == w0.store.nextId
    requires w.store.active == w0.store.active && w.notices == w0.notices
    requires w0.store.failures <= w.store.failures
    requires scope == want && (scope == {} || w0.store.failures < w.store.failures)
    ensures Moved(w0, w, hush, scope, want)
  {
  }

  lemma StaleUnmoved(w0: World, w: World, hush: Silencer, scope: set<Key>, want: set<Key>, r: Rule, live: set<string>)
    requires Moved(w0, w, hush, scope, want)
    requires want <= scope && forall k | k in scope :: k.nodeID in live
    ensures Stale(r, live, w.store.active) == Stale(r, live, w0.store.active)
  {
  }

  lemma OfflineScope(codec: Codec, r: Rule, seen: Observation, w0: World, w: World, hush: Silencer)
    requires r.IsOfflineMeta() && r.AppliesToRole(CLUSTER_NODE)
    requires var scope := OfflineKeys(r, seen.Offline()); Moved(w0, w, hush, scope, scope)
    ensures var scope, stale := OfflineKeys(r, seen.Offline()), Stale(r, seen.Offline(), w.store.active);
      && scope !! stale
      && scope + stale == SeenScope(codec, r, Some(seen), w0.store.active) && scope == SeenWant(codec, r, Some(seen))
  {
    hide Moved;
    var scope := OfflineKeys(r, seen.Offline());
    StaleUnmoved(w0, w, hush, scope, scope, r, seen.Offline());
  }

  lemma OfflinePart(obs: Observation, lapsed: set<string>, neverSeen: set<string>)
    requires lapsed <= obs.lapsed && neverSeen <= obs.neverSeen
    ensures SeenPart(obs, Some(obs.(lapsed := lapsed, neverSeen := neverSeen)))
  {
  }

  lemma NodesPart(obs: Observation, part: Observation, nodes: set<string>)
    requires SeenPart(obs, Some(part)) && nodes <= obs.nodes
    ensures SeenPart(obs, Some(part.(nodes := nodes)))
  {
  }

  lemma NothingSeen(codec: Codec, r: Rule, active: map<Key, int>)
    ensures SeenScope(codec, r, None, active) == {} && SeenWant(codec, r, None) == {}
    ensures forall obs :: SeenPart(obs, None)
  {
  }

  lemma NodesAndStale(codec: Codec, r: Rule, part: Observation, nodes: set<string>, w0: World, w: World, hush: Silencer)
    requires !r.IsOfflineMeta()
    requires Moved(w0, w, hush, NodesScope(codec, r, part, nodes), NodesWant(codec, r, part, nodes))
    ensures var seen, stale := Some(part.(nodes := nodes)), Stale(r, nodes, w.store.active);
      var scope, want := NodesScope(codec, r, part, nodes), NodesWant(codec, r, part, nodes);
      && scope !! stale && want <= scope
      && scope + stale == SeenScope(codec, r, seen, w0.store.active) && want == SeenWant(codec, r, seen)
  {
    hide Moved;
    WantWithinScope(codec, r, part, nodes);
    ScopeOfRows(codec, r, part, part.(nodes := nodes), nodes);
    StaleUnmoved(w0, w, hush, NodesScope(codec, r, part, nodes), NodesWant(codec, r, part, nodes), r, nodes);
  }

  lemma KeptActive(w0: World, w: World, hush: Silencer, key: Key)
    requires w0.Active(key) && w.store.active == w0.store.active && w.notices == w0.notices
    requires w.store.nextId == w0.store.nextId && w0.store.failures <= w.store.failures
    requires forall id | id in w0.store.rows :: id in w.store.rows && w.store.rows[id].state == w0.store.rows[id].state
    ensures Moved(w0, w, hush, {key}, {key})
  {
  }

  /** One key was inserted into the cache. */
  lemma FiringMoves(w0: World, w: World, hush: Silencer, key: Key, id: int, silenced: bool)
    requires !w0.Active(key) && w.store.active == w0.store.active[key := id]
    requires w0.store.Coherent() && id == w0.store.nextId < w.store.nextId
    requires id in w.store.rows && w.store.rows == w0.store.rows[id := w.store.rows[id]]
    requires w0.store.failures <= w.store.failures
    requires if silenced then hush.Quiet(key) else w.store.failures == w0.store.failures ==> !hush.Quiet(key)
    requires w.notices == w0.notices + if silenced then [] else [FiringNotice(id, key)]
    ensures Moved(w0, w, hush, {key}, {key})
  {
  }

  lemma StayedInactive(w: World, hush: Silencer, key: Key)
    requires !w.Active(key)
    ensures Moved(w, w, hush, {key}, {})
  {
  }

  /** One key was taken out of the cache. */
  lemma ResolvingMoves(w0: World, w: World, hush: Silencer, key: Key, complete: bool)
    requires w0.Active(key) && w.store.active == w0.store.active - {key} && w.store.nextId == w0.store.nextId
    requires w.store.rows.Keys == w0.store.rows.Keys
    requires forall id | id in w.store.rows && w.store.rows[id] != w0.store.rows[id] :: w.store.rows[id].state == Resolved
    requires w0.store.failures <= w.store.failures && (w0.store.failures == w.store.failures ==> complete)
    requires complete ==> w0.store.active[key] in w.store.rows && w.store.rows[w0.store.active[key]].state == Resolved
    requires w.notices == w0.notices + if complete then [ResolvedNotice(w0.store.active[key], key)] else []
    ensures Moved(w0, w, hush, {key}, {})
  {
  }

  ghost predicate MovedSomehow(w0: World, w: World, hush: Silencer) {
    exists scope, want :: Moved(w0, w, hush, scope, want)
  }

  // ----- what a tick does -----

  ghost predicate UniqueNames(rules: seq<Rule>) {
    forall i, j | 0 <= i < j < |rules| :: rules[i].name != rules[j].name
  }

  ghost predicate Named(rules: seq<Rule>, name: string) {
    exists i | 0 <= i < |rules| :: rules[i].name == name
  }

  /** The state of a key after one failure-free evaluation of a rule. */
  ghost predicate RuleExpected(codec: Codec, r: Rule, obs: Observation, w0: World, k: Key) {
    if k in RuleScope(codec, r, obs, w0.store.active) then k in RuleWant(codec, r, obs) else w0.Active(k)
  }

  /** What a tick does to a key, whatever fails: its rule decides, from what its queries delivered, and only its rule. */
  ghost predicate TickMoved(codec: Codec, rules: seq<Rule>, seen: seq<Option<Observation>>, w0: World, w: World, k: Key)
    requires |seen| == |rules|
  {
    if Named(rules, k.ruleName)
    then exists i | 0 <= i < |rules| :: rules[i].name == k.ruleName && RuleMoved(codec, rules[i], seen[i], w0, w, k)
    else w.Active(k) <==> w0.Active(k)
  }

  ghost predicate RuleMoved(codec: Codec, r: Rule, seen: Option<Observation>, w0: World, w: World, k: Key) {
    KeyOutcome(w0, w, k in SeenScope(codec, r, seen, w0.store.active), k in SeenWant(codec, r, seen), k)
  }

  /** The state of a key after one failure-free tick: its rule decides, and only its rule. */
  ghost predicate TickExpected(codec: Codec, rules: seq<Rule>, tick: string -> Observation, w0: World, k: Key) {
    if Named(rules, k.ruleName)
    then exists i | 0 <= i < |rules| :: rules[i].name == k.ruleName && RuleExpected(codec, rules[i], tick(rules[i].name), w0, k)
    else w0.Active(k)
  }

  ghost predicate ScopeAgrees(codec: Codec, r: Rule, seen: Option<Observation>, w0: World, scope: set<Key>, want: set<Key>, k: Key) {
    && (k in scope <==> k in SeenScope(codec, r, seen, w0.store.active))
    && (k in want <==> k in SeenWant(codec, r, seen))
  }

  /** A rule decides only its own keys, and the evaluation of other rules does not change which. */
  lemma RuleScopeFacts(codec: Codec, r: Rule, seen: Option<Observation>, w0: World, w1: World, hush: Silencer, scope: set<Key>, want: set<Key>)
    requires Moved(w0, w1, hush, scope, want) && want <= scope
    requires forall k | k in scope :: k.ruleName != r.name
    ensures forall k | k in SeenScope(codec, r, seen, w1.store.active) :: k.ruleName == r.name
    ensures SeenWant(codec, r, seen) <= SeenScope(codec, r, seen, w1.store.active)
    ensures SeenScope(codec, r, seen, w1.store.active) == SeenScope(codec, r, seen, w0.store.active)
  {
    if seen.Some? {
      var obs := seen.value;
      WantWithinScope(codec, r, obs, obs.nodes);
      forall k: Key | k.ruleName == r.name
        ensures w1.Active(k) <==> w0.Active(k)
      {
        assert KeyOutcome(w0, w1, k in scope, k in want, k);
      }
      assert Stale(r, obs.nodes, w1.store.active) == Stale(r, obs.nodes, w0.store.active);
      assert Stale(r, obs.Offline(), w1.store.active) == Stale(r, obs.Offline(), w0.store.active);
    }
  }

  lemma TickOutcome(codec: Codec, rules: seq<Rule>, seen: seq<Option<Observation>>, w0: World, w: World, hush: Silencer,
                    scope: set<Key>, want: set<Key>)
    requires UniqueNames(rules) && |seen| == |rules| && want <= scope && Moved(w0, w, hush, scope, want)
    requires forall k | k in scope :: Named(rules, k.ruleName)
    requires forall j, k: Key | 0 <= j < |rules| && k.ruleName == rules[j].name :: ScopeAgrees(codec, rules[j], seen[j], w0, scope, want, k)
    ensures forall k :: TickMoved(codec, rules, seen, w0, w, k)
  {
    forall k
      ensures TickMoved(codec, rules, seen, w0, w, k)
    {
      assert KeyOutcome(w0, w, k in scope, k in want, k);
      if i :| 0 <= i < |rules| && rules[i].name == k.ruleName {
        assert ScopeAgrees(codec, rules[i], seen[i], w0, scope, want, k);
        assert RuleMoved(codec, rules[i], seen[i], w0, w, k);
      }
    }
  }

  /** If nothing failed, every rule saw its whole observation, and the tick does exactly what is expected. */
  lemma CleanTick(codec: Codec, rules: seq<Rule>, seen: seq<Option<Observation>>, tick: string -> Observation, w0: World, w: World)
    requires UniqueNames(rules) && |seen| == |rules| && w.store.failures == w0.store.failures
    requires forall j | 0 <= j < |rules| :: seen[j] == Some(tick(rules[j].name))
    requires forall k :: TickMoved(codec, rules, seen, w0, w, k)
    ensures forall k :: w.Active(k) <==> TickExpected(codec, rules, tick, w0, k)
  {
    forall k
      ensures w.Active(k) <==> TickExpected(codec, rules, tick, w0, k)
    {
      assert TickMoved(codec, rules, seen, w0, w, k);
      if Named(rules, k.ruleName) {
        var i :| 0 <= i < |rules| && rules[i].name == k.ruleName && RuleMoved(codec, rules[i], seen[i], w0, w, k);
        RuleWantInScope(codec, rules[i], tick(rules[i].name), w0);
        assert w.Active(k) <==> RuleExpected(codec, rules[i], tick(rules[i].name), w0, k);
      }
    }
  }

  lemma RuleWantInScope(codec: Codec, r: Rule, obs: Observation, w0: World)
    ensures RuleWant(codec, r, obs) <= RuleScope(codec, r, obs, w0.store.active)
  {
    WantWithinScope(codec, r, obs, obs.nodes);
  }

  /** No row is announced twice as firing or twice as resolved. */
  ghost predicate OncePerRow(w: World) {
    && (forall i | 0 <= i < |w.notices| :: NoticeOf(w, w.notices[i]))
    && (forall i, j | 0 <= i < j < |w.notices| :: !SameRow(w.notices[i], w.notices[j]))
  }

  ghost predicate NoticeOf(w: World, n: Notice) {
    match n
    case FiringNotice(id, _) => id < w.store.nextId
    case ResolvedNotice(id, _) => id in w.store.rows && w.store.rows[id].state == Resolved
  }

  ghost predicate SameRow(m: Notice, n: Notice) {
    m.id == n.id && (m.FiringNotice? <==> n.FiringNotice?)
  }

  lemma OncePerRowKept(w0: World, w: World, hush: Silencer)
    requires w0.store.Coherent() && w.store.Coherent()
    requires MovedSomehow(w0, w, hush) && OncePerRow(w0)
    ensures OncePerRow(w)
  {
    var scope, want :| Moved(w0, w, hush, scope, want);
    var n0, sent := |w0.notices|, w.notices[|w0.notices|..];
    forall i | 0 <= i < |w.notices|
      ensures NoticeOf(w, w.notices[i])
    {
      if i < n0 {
        assert w.notices[i] == w0.notices[i];
      } else {
        assert w.notices[i] == sent[i - n0] && Reports(w0, w, sent[i - n0]);
      }
    }
    forall i, j | 0 <= i < j < |w.notices|
      ensures !SameRow(w.notices[i], w.notices[j])
    {
      if j < n0 {
        assert w.notices[i] == w0.notices[i] && w.notices[j] == w0.notices[j];
      } else {
        assert w.notices[j] == sent[j - n0] && Reports(w0, w, sent[j - n0]);
        if i < n0 {
          assert w.notices[i] == w0.notices[i] && NoticeOf(w0, w0.notices[i]);
        } else {
          assert w.notices[i] == sent[i - n0] && Reports(w0, w, sent[i - n0]);
          assert sent[i - n0].key != sent[j - n0].key;
        }
      }
    }
  }

  lemma OncePerRowOfTable(w0: World, w: World)
    requires OncePerRow(w0)
    requires w.notices == w0.notices && w.store.rows == w0.store.rows && w.store.nextId == w0.store.nextId
    ensures OncePerRow(w)
  {
  }

  // ----- rule files -----

  /** A rule file of the rules directory, with its rules unless it is malformed. */
  datatype RuleFile = RuleFile(path: string, mtime: int, rules: Option<seq<Rule>>)

  function Mtimes(files: seq<RuleFile>): map<string, int> {
    if files == [] then map[]
    else Mtimes(files[..|files| - 1])[files[|files| - 1].path := files[|files| - 1].mtime]
  }

  predicate DistinctPaths(files: seq<RuleFile>) {
    forall i, j | 0 <= i < j < |files| :: files[i].path != files[j].path
  }

  /** The files are those recorded, with their recorded times. */
  ghost predicate SameTimes(files: seq<RuleFile>, known: map<string, int>) {
    && (forall i | 0 <= i < |files| :: files[i].path in known && known[files[i].path] == files[i].mtime)
    && (forall path | path in known :: exists i | 0 <= i < |files| :: files[i].path == path)
  }

  lemma {:induction false} MtimesMean(files: seq<RuleFile>, known: map<string, int>)
    requires DistinctPaths(files)
    ensures Mtimes(files) == known <==> SameTimes(files, known)
  {
    TimesOfFiles(files);
  }

  lemma {:induction false} TimesOfFiles(files: seq<RuleFile>)
    requires DistinctPaths(files)
    ensures SameTimes(files, Mtimes(files))
  {
    if files != [] {
      var front, last := files[..|files| - 1], files[|files| - 1];
      TimesOfFiles(front);
      OneMoreFile(front, last, Mtimes(front));
      assert files == front + [last];
    }
  }

  lemma OneMoreFile(files: seq<RuleFile>, file: RuleFile, known: map<string, int>)
    requires SameTimes(files, known) && DistinctPaths(files + [file])
    ensures SameTimes(files + [file], known[file.path := file.mtime])
  {
    var all := files + [file];
    assert all[|files|] == file;
    forall path | path in known.Keys + {file.path}
      ensures exists i | 0 <= i < |all| :: all[i].path == path
    {
      if path != file.path {
        var i :| 0 <= i < |files| && files[i].path == path;
        assert all[i].path == path;
      } else {
        assert all[|files|].path == path;
      }
    }
    forall i | 0 <= i < |files|
      ensures all[i].path in known && known[all[i].path] == all[i].mtime && all[i].path != file.path
    {
      assert all[i] == files[i];
    }
  }

  function AllRules(files: seq<RuleFile>): seq<Rule> {
    if files == [] then []
    else
      var last := files[|files| - 1];
      AllRules(files[..|files| - 1]) + if last.rules.Some? then last.rules.value else []
  }

  function NamesOf(rs: seq<Rule>): set<string> {
    set i | 0 <= i < |rs| :: rs[i].name
  }

  lemma NamesGrow(rs: seq<Rule>, r: Rule)
    ensures Named(rs, r.name) <==> r.name in NamesOf(rs)
    ensures NamesOf(rs + [r]) == NamesOf(rs) + {r.name}
  {
    forall name
      ensures name in NamesOf(rs + [r]) <==> name in NamesOf(rs) + {r.name}
    {
      assert (rs + [r])[|rs|].name == r.name;
      if i :| 0 <= i < |rs| && rs[i].name == name {
        assert (rs + [r])[i].name == name;
      }
    }
  }

  /** One more rule is kept exactly when its name is new. */
  lemma KeepOneMore(before: seq<Rule>, rs: seq<Rule>, j: nat)
    requires j < |rs|
    ensures var kept, r := KeepFirst(before + rs[..j]), rs[j];
      && KeepFirst(before + rs[..j + 1]) == (if r.name in NamesOf(kept) then kept else kept + [r])
      && NamesOf(kept + [r]) == NamesOf(kept) + {r.name}
  {
    hide Named, NamesOf;
    NamesGrow(KeepFirst(before + rs[..j]), rs[j]);
    assert (before + rs[..j + 1])[..|before| + j] == before + rs[..j];
  }

  /** The first rule of every name. */
  ghost function KeepFirst(rs: seq<Rule>): seq<Rule> {
    if rs == [] then []
    else
      var init, last := KeepFirst(rs[..|rs| - 1]), rs[|rs| - 1];
      if Named(init, last.name) then init else init + [last]
  }

  /** The i-th rule is the first one of its name. */
  ghost predicate FirstAt(rs: seq<Rule>, r: Rule, i: int) {
    0 <= i < |rs| && rs[i] == r && forall j | 0 <= j < i :: rs[j].name != r.name
  }

  /** A rule is loaded exactly if no rule before it has its name. */
  lemma {:induction false} KeepFirstMeans(rs: seq<Rule>, r: Rule)
    ensures r in KeepFirst(rs) <==> exists i :: FirstAt(rs, r, i)
  {
    if rs != [] {
      var front, last := rs[..|rs| - 1], rs[|rs| - 1];
      KeepFirstMeans(front, r);
      KeepFirstIsUnique(front);
      forall i
        ensures FirstAt(rs, r, i) <==> FirstAt(front, r, i) || (i == |front| && r == last && !Named(front, last.name))
      {
        NamedMeans(front, last.name);
      }
      hide FirstAt, Named;
      var init := KeepFirst(front);
      assert Named(init, last.name) <==> Named(front, last.name);
      assert r in KeepFirst(rs) <==> r in init || (r == last && !Named(front, last.name));
      if i :| FirstAt(front, r, i) {
        assert FirstAt(rs, r, i);
      }
      if r == last && !Named(front, last.name) {
        assert FirstAt(rs, r, |front|);
      }
    }
  }

  lemma NamedMeans(rs: seq<Rule>, name: string)
    ensures Named(rs, name) <==> !forall j | 0 <= j < |rs| :: rs[j].name != name
  {
  }

  /** The loaded rules are in the order of the files. */
  lemma {:induction false} KeepFirstKeepsOrder(rs: seq<Rule>, n: nat)
    requires n <= |rs|
    ensures KeepFirst(rs[..n]) <= KeepFirst(rs)
  {
    if n == |rs| {
      assert rs[..n] == rs;
    } else {
      assert rs[..|rs| - 1][..n] == rs[..n];
      KeepFirstKeepsOrder(rs[..|rs| - 1], n);
    }
  }

  /** Loaded rule names are unique, and every name found in the files is loaded. */
  lemma {:induction false} KeepFirstIsUnique(rs: seq<Rule>)
    ensures UniqueNames(KeepFirst(rs))
    ensures forall name :: Named(rs, name) <==> Named(KeepFirst(rs), name)
    ensures forall r | r in KeepFirst(rs) :: r in rs
  {
    if rs != [] {
      var front, last := rs[..|rs| - 1], rs[|rs| - 1];
      KeepFirstIsUnique(front);
      assert rs == front + [last];
      forall name
        ensures Named(rs, name) <==> Named(front, name) || name == last.name
      {
        if Named(front, name) {
          var i :| 0 <= i < |front| && front[i].name == name;
          assert rs[i].name == name;
        }
        assert rs[|rs| - 1].name == last.name;
      }
      var init := KeepFirst(front);
      if !Named(init, last.name) {
        forall name
          ensures Named(init + [last], name) <==> Named(init, name) || name == last.name
        {
          if Named(init, name) {
            var i :| 0 <= i < |init| && init[i].name == name;
            assert (init + [last])[i].name == name;
          }
          assert (init + [last])[|init|].name == last.name;
        }
      }
    }
  }

  datatype Command = Tick(tick: string -> Observation, hush: Silencer) | ReloadRules(listing: Option<seq<RuleFile>>) | Restart

  // ----- the engine -----

  class Engine {
    const store: StateStore
    var rules: seq<Rule>
    var mtimes: map<string, int>
    var notices: seq<Notice>

    constructor (store: StateStore)
      requires store.View().Valid() && store.codec.Stable()
      ensures Valid() && this.store == store && rules == [] && mtimes == map[] && notices == []
    {
      this.store := store;
      rules, mtimes, notices := [], map[], [];
    }

    ghost function Now(): World
      reads this, store
    {
      World(store.View(), notices)
    }

    ghost predicate Valid()
      reads this, store
    {
      store.View().Valid() && store.codec.Stable()
    }

    /** The present world is `w0` up to failures. */
    ghost predicate MatchesWorld(w0: World)
      reads this, store
    {
      store.View() == w0.store.(failures := store.Failures()) && notices == w0.notices && w0.store.failures <= store.Failures()
    }

    /** Only a successful check silences; a failed one counts as not silenced. */
    method CheckSilence(hush: Silencer, key: Key) returns (silenced: bool)
      requires Valid()
      modifies store`calls
      ensures Valid() && store.Failures() == old(store.Failures()) + if store.outcome(old(store.calls)) then 0 else 1
      ensures silenced == (store.outcome(old(store.calls)) && hush.Quiet(key)) && store.calls == old(store.calls) + 1
    {
      var ok := store.DbCall();
      silenced := ok && hush.Quiet(key);
    }

    /** Fires an inactive key and notifies unless a successful check finds it silenced. */
    method FireKey(r: Rule, hush: Silencer, nodeID: string, labels: Labels, lastValue: real)
      requires Valid() && !store.IsActive(KeyOf(r, nodeID, store.codec.ToJSON(labels)))
      modifies this`notices, store
      ensures Valid() && old(store.Failures()) <= store.Failures()
      ensures var key := KeyOf(r, nodeID, store.codec.ToJSON(labels)); Moved(old(Now()), Now(), hush, {key}, {key})
      ensures var key, call := KeyOf(r, nodeID, store.codec.ToJSON(labels)), old(store.calls);
        && (store.IsActive(key) <==> store.outcome(call))
        && notices == old(notices)
                      + (if store.outcome(call) && !(store.outcome(call + 1) && hush.Quiet(key))
                         then [FiringNotice(old(store.nextId), key)] else [])
        && (store.outcome(call) ==> store.active[key] in store.rows && store.rows[store.active[key]].lastValue == lastValue)
    {
      hide Moved, StoreView.Coherent, StoreView.Sound, CountFailures, Codec.Stable;
      ghost var w0 := Now();
      var alert := store.Fire(r, nodeID, labels, lastValue);
      if alert.Some? {
        var silenced := CheckSilence(hush, alert.value.key);
        if !silenced {
          notices := notices + [FiringNotice(alert.value.id, alert.value.key)];
        }
        FiringMoves(w0, Now(), hush, alert.value.key, alert.value.id, silenced);
      } else {
        MovedNothing(w0, Now(), hush, {KeyOf(r, nodeID, store.codec.ToJSON(labels))}, {KeyOf(r, nodeID, store.codec.ToJSON(labels))});
      }
    }

    /** Resolves a key if it is active and notifies, silenced or not. */
    method ResolveKey(hush: Silencer, key: Key, lastValue: real)
      requires Valid()
      modifies this`notices, store
      ensures Valid() && old(store.Failures()) <= store.Failures()
      ensures Moved(old(Now()), Now(), hush, {key}, {})
      ensures old(store.IsActive(key)) ==>
        var call := old(store.calls);
        && !store.IsActive(key)
        && notices == old(notices)
                      + (if store.outcome(call) && store.outcome(call + 1) then [ResolvedNotice(old(store.active)[key], key)] else [])
        && (store.outcome(call) ==>
              old(store.active)[key] in store.rows && store.rows[old(store.active)[key]].lastValue == lastValue)
    {
      hide Moved, StoreView.Coherent, StoreView.Sound, CountFailures;
      ghost var w0 := Now();
      var res := store.Resolve(key, lastValue);
      if res.ResolvedAlert? {
        notices := notices + [ResolvedNotice(res.alert.id, res.alert.key)];
      }
      if res == NotActive {
        StayedInactive(w0, hush, key);
      } else {
        ResolvingMoves(w0, Now(), hush, key, res.ResolvedAlert?);
      }
    }

    /** One label group of one node. The alert's row records the last sample, unless the first call fails. */
    method EvaluateGroup(r: Rule, hush: Silencer, nodeID: string, group: string, rows: seq<Sample>)
      requires Valid() && rows != []
      requires store.codec.ToJSON(store.codec.FromJSON(group)) == group
      modifies this`notices, store
      ensures Valid() && old(store.Failures()) <= store.Failures()
      ensures !r.MatchesLabels(store.codec.FromJSON(group)) ==> Now() == old(Now())
      ensures r.MatchesLabels(store.codec.FromJSON(group)) ==>
        var key := KeyOf(r, nodeID, group);
        && Moved(old(Now()), Now(), hush, {key}, if AllSatisfy(r, rows) then {key} else {})
        && (store.outcome(old(store.calls)) ==>
              var cache := if AllSatisfy(r, rows) then store.active else old(store.active);
              AllSatisfy(r, rows) || key in cache ==>
                key in cache && cache[key] in store.rows && store.rows[cache[key]].lastValue == rows[|rows| - 1].value)
    {
      hide Moved, StoreView.Coherent, StoreView.Sound, AllSatisfy, CountFailures, Rule.MatchesLabels;
      var labels := store.codec.FromJSON(group);
      if !r.MatchesLabels(labels) {
        return;
      }
      var allSatisfy := CheckAll(r, rows);
      ghost var w0 := Now();
      var lastValue := rows[|rows| - 1].value;
      var key := KeyOf(r, nodeID, group);
      if allSatisfy {
        if !store.IsActive(key) {
          FireKey(r, hush, nodeID, labels, lastValue);
        } else {
          store.UpdateLastValue(key, lastValue);
          KeptActive(w0, Now(), hush, key);
        }
      } else if store.IsActive(key) {
        ResolveKey(hush, key, lastValue);
      } else {
        StayedInactive(w0, hush, key);
      }
    }

    /** One node that reported in the window; a failed query changes nothing. */
    method EvaluateNode(r: Rule, obs: Observation, hush: Silencer, nodeID: string)
      requires Valid()
      modifies this`notices, store
      ensures Valid()
      ensures store.Failures() >= old(store.Failures()) + if store.outcome(old(store.calls)) then 0 else 1
      ensures !store.outcome(old(store.calls)) ==> MatchesWorld(old(Now()))
      ensures var rows := if store.outcome(old(store.calls)) then obs.RowsOf(nodeID) else [];
        Moved(old(Now()), Now(), hush, NodeScope(store.codec, r, nodeID, rows), NodeWant(store.codec, r, nodeID, rows))
    {
      hide Moved, StoreView.Valid, CountFailures;
      ghost var w0 := Now();
      NoRows(store.codec, r, nodeID);
      var ok := Query();
      var rows := obs.RowsOf(nodeID);
      if !ok || rows == [] {
        MovedNothing(w0, Now(), hush, {}, {});
        return;
      }
      EvaluateGroups(r, hush, nodeID, rows, w0);
    }

    /** The groups of a node, in any order. */
    method EvaluateGroups(r: Rule, hush: Silencer, nodeID: string, rows: seq<Sample>, ghost w0: World)
      requires Valid() && MatchesWorld(w0)
      modifies this`notices, store
      ensures Valid() && old(store.Failures()) <= store.Failures()
      ensures Moved(w0, Now(), hush, NodeScope(store.codec, r, nodeID, rows), NodeWant(store.codec, r, nodeID, rows))
    {
      hide Moved, StoreView.Valid, GroupsScope, GroupsWant, GroupOf, AllSatisfy, GroupKeys, Codec.Stable, CountFailures,
           Rule.MatchesLabels, Codec.FromJSON, Codec.ToJSON;
      var groups := GroupByLabels(store.codec, rows);
      ghost var scope, want: set<Key> := {}, {};
      NoGroups(store.codec, r, nodeID, rows);
      MovedNothing(w0, Now(), hush, scope, want);
      var todo := groups.Keys;
      assert groups.Keys - todo == {};
      while todo != {}
        invariant Valid() && todo <= groups.Keys && old(store.Failures()) <= store.Failures()
        invariant scope == GroupsScope(store.codec, r, nodeID, groups.Keys - todo)
        invariant want == GroupsWant(store.codec, r, nodeID, rows, groups.Keys - todo)
        invariant Moved(w0, Now(), hush, scope, want)
        decreases |todo|
      {
        var group :| group in todo;
        ghost var w1, done := Now(), groups.Keys - todo;
        todo := todo - {group};
        StableGroup(store.codec, rows, group);
        EvaluateGroup(r, hush, nodeID, group, groups[group]);
        GroupsGrow(store.codec, r, nodeID, rows, done, group);
        assert groups.Keys - todo == done + {group};
        ghost var one := if r.MatchesLabels(store.codec.FromJSON(group)) then {KeyOf(r, nodeID, group)} else {};
        ghost var wanted := if AllSatisfy(r, groups[group]) then one else {};
        if one == {} {
          MovedNothing(w1, Now(), hush, one, wanted);
        }
        MovedCompose(w0, w1, Now(), hush, scope, want, one, wanted);
        scope, want := scope + one, want + wanted;
      }
      assert groups.Keys - todo == groups.Keys;
    }

    /** A query made by the engine itself. */
    method Query() returns (ok: bool)
      requires Valid()
      modifies store`calls
      ensures Valid() && store.Failures() == old(store.Failures()) + if ok then 0 else 1
      ensures ok == store.outcome(old(store.calls)) && store.calls == old(store.calls) + 1
    {
      ok := store.DbCall();
    }

    /** Reads an id column; a read error loses rows. */
    method ScanIds(ids: set<string>) returns (got: set<string>)
      requires Valid()
      modifies store`calls
      ensures Valid() && store.Failures() == old(store.Failures()) + if store.outcome(old(store.calls)) then 0 else 1
      ensures store.calls == old(store.calls) + 1
      ensures got <= ids && (store.outcome(old(store.calls)) ==> got == ids)
    {
      var ok := Query();
      got := ids;
      if !ok {
        var lost: set<string> := *;
        got := ids - lost;
      }
    }

    /** Resolves the rule's active keys on nodes outside `live`. */
    method ResolveStale(r: Rule, hush: Silencer, live: set<string>)
      requires Valid()
      modifies this`notices, store
      ensures Valid() && old(store.Failures()) <= store.Failures()
      ensures Moved(old(Now()), Now(), hush, Stale(r, live, old(store.active)), {})
    {
      var keys := store.ActiveKeys();
      var toResolve := set k | k in keys && k.ruleName == r.name && k.nodeID !in live;
      assert toResolve == Stale(r, live, store.active);
      ResolveAll(hush, toResolve);
    }

    method ResolveAll(hush: Silencer, keys: set<Key>)
      requires Valid()
      modifies this`notices, store
      ensures Valid() && old(store.Failures()) <= store.Failures()
      ensures Moved(old(Now()), Now(), hush, keys, {})
    {
      hide Moved, Valid, CountFailures;
      ghost var w0 := Now();
      ghost var none: set<Key> := {};
      MovedNothing(w0, w0, hush, none, none);
      var todo := keys;
      assert keys - todo == none;
      while todo != {}
        invariant Valid() && todo <= keys && old(store.Failures()) <= store.Failures()
        invariant Moved(w0, Now(), hush, keys - todo, none)
        decreases |todo|
      {
        var key :| key in todo;
        ghost var w1, done := Now(), keys - todo;
        todo := todo - {key};
        ResolveKey(hush, key, 0.0);
        MovedCompose(w0, w1, Now(), hush, done, none, {key}, none);
        assert keys - todo == done + {key} && none + none == none;
      }
      assert keys - todo == keys;
    }

    /** Every listed node. `seen` is without the samples of the nodes whose query failed. */
    method EvaluateNodes(r: Rule, obs: Observation, hush: Silencer, nodes: set<string>, ghost w0: World) returns (ghost seen: Observation)
      requires Valid() && MatchesWorld(w0)
      modifies this`notices, store
      ensures Valid() && old(store.Failures()) <= store.Failures()
      ensures seen == obs.(samples := seen.samples) && SeenPart(obs, Some(seen))
      ensures |obs.samples.Keys - seen.samples.Keys| <= store.Failures() - old(store.Failures())
      ensures Moved(w0, Now(), hush, NodesScope(store.codec, r, seen, nodes), NodesWant(store.codec, r, seen, nodes))
    {
      hide Moved, Valid, NodeScope, NodeWant, NodesScope, NodesWant, CountFailures, SeenPart, SeenAfter, Observation.RowsOf;
      seen := obs;
      SeenAll(obs);
      NoNodes(store.codec, r, seen);
      ghost var scope, want := {}, {};
      MovedNothing(w0, Now(), hush, scope, want);
      var todo := nodes;
      assert nodes - todo == {};
      while todo != {}
        invariant Valid() && todo <= nodes
        invariant seen == obs.(samples := seen.samples) && SeenPart(obs, Some(seen))
        invariant forall n | n in todo :: seen.RowsOf(n) == obs.RowsOf(n)
        invariant |obs.samples.Keys - seen.samples.Keys| <= store.Failures() - old(store.Failures())
        invariant scope == NodesScope(store.codec, r, seen, nodes - todo)
        invariant want == NodesWant(store.codec, r, seen, nodes - todo)
        invariant Moved(w0, Now(), hush, scope, want)
        decreases |todo|
      {
        var node :| node in todo;
        ghost var w1, done, before, call := Now(), nodes - todo, seen, store.calls;
        todo := todo - {node};
        EvaluateNode(r, obs, hush, node);
        ghost var ok := store.outcome(call);
        SeenShrinks(obs, before, node, ok);
        NodesStep(store.codec, r, before, done, node, ok);
        seen := SeenAfter(before, node, ok);
        assert nodes - todo == done + {node};
        ghost var rows := seen.RowsOf(node);
        MovedCompose(w0, w1, Now(), hush, scope, want, NodeScope(store.codec, r, node, rows), NodeWant(store.codec, r, node, rows));
        scope, want := scope + NodeScope(store.codec, r, node, rows), want + NodeWant(store.codec, r, node, rows);
      }
      assert nodes - todo == nodes;
    }

    /** A rule over samples. `seen` is what the queries delivered: if the first one fails, nothing, and nothing changes. */
    method EvaluateRuleAllNodes(r: Rule, obs: Observation, hush: Silencer) returns (ghost seen: Option<Observation>)
      requires Valid() && !r.IsOfflineMeta()
      modifies this`notices, store
      ensures Valid() && old(store.Failures()) <= store.Failures()
      ensures store.Failures() == old(store.Failures()) ==> seen == Some(obs)
      ensures seen == None <==> !store.outcome(old(store.calls))
      ensures seen == None ==> MatchesWorld(old(Now()))
      ensures SeenPart(obs, seen)
      ensures seen.Some? ==>
        && (store.outcome(old(store.calls) + 1) ==> seen.value.nodes == obs.nodes)
        && |obs.samples.Keys - seen.value.samples.Keys| <= store.Failures() - old(store.Failures())
      ensures Moved(old(Now()), Now(), hush, SeenScope(store.codec, r, seen, old(store.active)), SeenWant(store.codec, r, seen))
    {
      hide Moved, Valid, CountFailures, SeenScope, SeenWant, SeenPart;
      NothingSeen(store.codec, r, store.active);
      ghost var w0 := Now();
      var ok := Query();
      if !ok {
        MovedNothing(w0, Now(), hush, {}, {});
        return None;
      }
      var nodes := ScanIds(obs.nodes);
      ghost var part := EvaluateListed(r, obs, hush, nodes, w0);
      seen := Some(part);
    }

    /** The listed nodes, then the alerts of all others. */
    method EvaluateListed(r: Rule, obs: Observation, hush: Silencer, nodes: set<string>, ghost w0: World) returns (ghost seen: Observation)
      requires Valid() && !r.IsOfflineMeta() && MatchesWorld(w0) && nodes <= obs.nodes
      modifies this`notices, store
      ensures Valid() && old(store.Failures()) <= store.Failures()
      ensures store.Failures() == old(store.Failures()) ==> seen == obs.(nodes := nodes)
      ensures seen.nodes == nodes && SeenPart(obs, Some(seen))
      ensures |obs.samples.Keys - seen.samples.Keys| <= store.Failures() - old(store.Failures())
      ensures Moved(w0, Now(), hush, SeenScope(store.codec, r, Some(seen), w0.store.active), SeenWant(store.codec, r, Some(seen)))
    {
      hide Moved, Valid, NodesScope, NodesWant, CountFailures, SeenScope, SeenWant, Stale, SeenPart;
      ghost var part := EvaluateNodes(r, obs, hush, nodes, w0);
      NodesPart(obs, part, nodes);
      seen := part.(nodes := nodes);
      ghost var scope, want := NodesScope(store.codec, r, part, nodes), NodesWant(store.codec, r, part, nodes);
      ghost var w1 := Now();
      NodesAndStale(store.codec, r, part, nodes, w0, w1, hush);
      ResolveStale(r, hush, nodes);
      MovedCompose(w0, w1, Now(), hush, scope, want, Stale(r, nodes, w1.store.active), {});
      assert want + {} == want;
      if store.Failures() == old(store.Failures()) {
        NothingLost(obs, part);
      }
    }

    /** Fires the offline key of every listed node that is not active yet. */
    method FireOffline(r: Rule, hush: Silencer, offline: set<string>, ghost w0: World)
      requires Valid() && MatchesWorld(w0)
      modifies this`notices, store
      ensures Valid() && old(store.Failures()) <= store.Failures()
      ensures Moved(w0, Now(), hush, OfflineKeys(r, offline), OfflineKeys(r, offline))
    {
      hide Moved, Valid, OfflineKeys, CountFailures;
      ghost var scope := {};
      NoneOffline(r);
      MovedNothing(w0, Now(), hush, scope, scope);
      var todo := offline;
      assert offline - todo == {};
      while todo != {}
        invariant Valid() && todo <= offline && old(store.Failures()) <= store.Failures()
        invariant scope == OfflineKeys(r, offline - todo)
        invariant Moved(w0, Now(), hush, scope, scope)
        decreases |todo|
      {
        var node :| node in todo;
        ghost var done := offline - todo;
        OfflineGrows(r, done, node);
        todo := todo - {node};
        assert offline - todo == done + {node};
        var key := KeyOf(r, node, "");
        ghost var w1 := Now();
        if !store.IsActive(key) {
          FireKey(r, hush, node, map[], 0.0);
        } else {
          KeptActive(w1, w1, hush, key);
        }
        MovedCompose(w0, w1, Now(), hush, scope, scope, {key}, {key});
        scope := scope + {key};
      }
      assert offline - todo == offline;
    }

    /** The node-offline rule. If the first query fails nothing changes; if the second one fails no node counts as never
        seen. */
    method EvaluateOfflineRule(r: Rule, obs: Observation, hush: Silencer) returns (ghost seen: Option<Observation>)
      requires Valid() && r.IsOfflineMeta() && r.AppliesToRole(CLUSTER_NODE)
      modifies this`notices, store
      ensures Valid() && old(store.Failures()) <= store.Failures()
      ensures store.Failures() == old(store.Failures()) ==> seen == Some(obs)
      ensures seen == None <==> !store.outcome(old(store.calls))
      ensures seen == None ==> MatchesWorld(old(Now()))
      ensures SeenPart(obs, seen)
      ensures seen.Some? ==>
        var call := old(store.calls);
        && (store.outcome(call + 1) ==> seen.value.lapsed == obs.lapsed)
        && (!store.outcome(call + 2) ==> seen.value.neverSeen == {})
        && (store.outcome(call + 2) && store.outcome(call + 3) ==> seen.value.neverSeen == obs.neverSeen)
      ensures Moved(old(Now()), Now(), hush, SeenScope(store.codec, r, seen, old(store.active)), SeenWant(store.codec, r, seen))
    {
      hide Moved, Valid, CountFailures, SeenPart, SeenScope, SeenWant;
      NothingSeen(store.codec, r, store.active);
      ghost var w0 := Now();
      var ok := Query();
      if !ok {
        MovedNothing(w0, Now(), hush, {}, {});
        return None;
      }
      var lapsed := ScanIds(obs.lapsed);
      var neverSeen := {};
      ok := Query();
      if ok {
        neverSeen := ScanIds(obs.neverSeen);
      }
      seen := Some(obs.(lapsed := lapsed, neverSeen := neverSeen));
      OfflinePart(obs, lapsed, neverSeen);
      EvaluateOffline(r, hush, lapsed + neverSeen, seen.value, w0);
    }

    /** Fires for the offline nodes, then resolves the alerts of all others. */
    method EvaluateOffline(r: Rule, hush: Silencer, offline: set<string>, ghost seen: Observation, ghost w0: World)
      requires Valid() && r.IsOfflineMeta() && r.AppliesToRole(CLUSTER_NODE) && MatchesWorld(w0) && offline == seen.Offline()
      modifies this`notices, store
      ensures Valid() && old(store.Failures()) <= store.Failures()
      ensures Moved(w0, Now(), hush, SeenScope(store.codec, r, Some(seen), w0.store.active), SeenWant(store.codec, r, Some(seen)))
    {
      hide Moved, Valid, Stale, OfflineKeys, RuleScope, RuleWant, CountFailures, SeenScope, SeenWant;
      FireOffline(r, hush, offline, w0);
      ghost var scope := OfflineKeys(r, offline);
      ghost var w1 := Now();
      ResolveStale(r, hush, offline);
      ghost var stale := Stale(r, offline, w1.store.active);
      OfflineScope(store.codec, r, seen, w0, w1, hush);
      MovedCompose(w0, w1, Now(), hush, scope, scope, stale, {});
      assert scope + {} == scope;
    }

    method EvaluateRule(r: Rule, obs: Observation, hush: Silencer) returns (ghost seen: Option<Observation>)
      requires Valid()
      modifies this`notices, store
      ensures Valid() && old(store.Failures()) <= store.Failures()
      ensures store.Failures() == old(store.Failures()) ==> seen == Some(obs)
      ensures var queries := !r.IsOfflineMeta() || r.AppliesToRole(CLUSTER_NODE);
        && (seen == None <==> queries && !store.outcome(old(store.calls)))
        && (!queries ==> Now() == old(Now()))
      ensures seen == None ==> MatchesWorld(old(Now()))
      ensures SeenPart(obs, seen)
      ensures Moved(old(Now()), Now(), hush, SeenScope(store.codec, r, seen, old(store.active)), SeenWant(store.codec, r, seen))
    {
      hide Moved, Valid, CountFailures;
      if !r.IsOfflineMeta() {
        seen := EvaluateRuleAllNodes(r, obs, hush);
      } else if r.AppliesToRole(CLUSTER_NODE) {
        seen := EvaluateOfflineRule(r, obs, hush);
      } else {
        seen := Some(obs);
        MovedNothing(Now(), Now(), hush, {}, {});
      }
    }

    /** One tick. `tick` gives what the queries made for each rule return, and `seen` what they delivered. */
    method Evaluate(tick: string -> Observation, hush: Silencer) returns (ghost seen: seq<Option<Observation>>)
      requires Valid() && UniqueNames(rules)
      modifies this`notices, store
      ensures Valid() && old(store.Failures()) <= store.Failures()
      ensures MovedSomehow(old(Now()), Now(), hush)
      ensures |seen| == |rules| && forall i | 0 <= i < |rules| :: SeenPart(tick(rules[i].name), seen[i])
      ensures forall k :: TickMoved(store.codec, rules, seen, old(Now()), Now(), k)
      ensures store.Failures() == old(store.Failures()) ==> forall k :: Now().Active(k) <==> TickExpected(store.codec, rules, tick, old(Now()), k)
    {
      hide Moved, Valid, SeenScope, SeenWant, SeenPart, CountFailures, KeyOutcome;
      ghost var w0, scope, want := Now(), {}, {};
      seen := [];
      MovedNothing(w0, w0, hush, scope, want);
      for i := 0 to |rules|
        invariant Valid() && old(store.Failures()) <= store.Failures()
        invariant |seen| == i && forall j | 0 <= j < i :: SeenPart(tick(rules[j].name), seen[j])
        invariant store.Failures() == w0.store.failures ==> forall j | 0 <= j < i :: seen[j] == Some(tick(rules[j].name))
        invariant want <= scope && forall k | k in scope :: Named(rules[..i], k.ruleName)
        invariant Moved(w0, Now(), hush, scope, want)
        invariant forall j, k: Key | 0 <= j < i && k.ruleName == rules[j].name ::
                    ScopeAgrees(store.codec, rules[j], seen[j], w0, scope, want, k)
      {
        var r := rules[i];
        ghost var w1 := Now();
        ghost var part := EvaluateRule(r, tick(r.name), hush);
        ghost var scope1, want1 := SeenScope(store.codec, r, part, w1.store.active), SeenWant(store.codec, r, part);
        forall k: Key | k in scope
          ensures k.ruleName != r.name
        {
          var j :| 0 <= j < i && rules[..i][j].name == k.ruleName;
        }
        RuleScopeFacts(store.codec, r, part, w0, w1, hush, scope, want);
        MovedCompose(w0, w1, Now(), hush, scope, want, scope1, want1);
        forall k: Key | k in scope + scope1
          ensures Named(rules[..i + 1], k.ruleName)
        {
          if k in scope {
            var j :| 0 <= j < i && rules[..i][j].name == k.ruleName;
            assert rules[..i + 1][j].name == k.ruleName;
          } else {
            assert rules[..i + 1][i].name == k.ruleName;
          }
        }
        scope, want, seen := scope + scope1, want + want1, seen + [part];
      }
      assert rules[..|rules|] == rules;
      TickOutcome(store.codec, rules, seen, w0, Now(), hush, scope, want);
      if store.Failures() == w0.store.failures {
        CleanTick(store.codec, rules, seen, tick, w0, Now());
      }
    }

    /** Reloads the rule files when some modification time changed. An unreadable directory changes nothing. */
    method Reload(listing: Option<seq<RuleFile>>)
      requires UniqueNames(rules)
      modifies this`rules, this`mtimes
      ensures UniqueNames(rules)
      ensures listing == None || Mtimes(listing.value) == old(mtimes) ==> rules == old(rules) && mtimes == old(mtimes)
      ensures listing.Some? && Mtimes(listing.value) != old(mtimes) ==>
        rules == KeepFirst(AllRules(listing.value)) && mtimes == Mtimes(listing.value)
      ensures listing.Some? && DistinctPaths(listing.value) ==>
        var files := listing.value;
        && (rules == if SameTimes(files, old(mtimes)) then old(rules) else KeepFirst(AllRules(files)))
        && SameTimes(files, mtimes)
    {
      if listing.Some? && DistinctPaths(listing.value) {
        MtimesMean(listing.value, mtimes);
        MtimesMean(listing.value, Mtimes(listing.value));
      }
      if listing == None || Mtimes(listing.value) == mtimes {
        return;
      }
      var files := listing.value;
      var loaded := LoadRules(files);
      KeepFirstIsUnique(AllRules(files));
      rules, mtimes := loaded, Mtimes(files);
    }

    /** Any run of ticks, reloads and restarts: whatever fails, every cached entry names a firing row of its
        key and no row is announced twice; as long as nothing fails, every key has at most one firing row, the
        cache is exactly the firing keys with their rows, and the transitions of every key alternate. */
    method Run(commands: seq<Command>)
      requires Valid() && UniqueNames(rules) && OncePerRow(Now())
      modifies this, store
      ensures Valid() && UniqueNames(rules) && OncePerRow(Now())
      ensures old(store.Failures()) <= store.Failures()
      ensures store.Failures() == 0 ==> store.View().Exact() && store.View().Alternating()
    {
      for i := 0 to |commands|
        invariant Valid() && UniqueNames(rules) && OncePerRow(Now())
        invariant old(store.Failures()) <= store.Failures()
      {
        hide Moved, OncePerRow;
        ghost var w0 := Now();
        match commands[i] {
          case Tick(tick, hush) =>
            ghost var seen := Evaluate(tick, hush);
            OncePerRowKept(w0, Now(), hush);
          case ReloadRules(listing) =>
            Reload(listing);
          case Restart =>
            var ok := store.Restart();
            OncePerRowOfTable(w0, Now());
        }
      }
    }
  }

  /** Loads the files in order; malformed files and rules with a name already loaded are skipped. */
  method LoadRules(files: seq<RuleFile>) returns (loaded: seq<Rule>)
    ensures loaded == KeepFirst(AllRules(files))
  {
    loaded := [];
    var names: set<string> := {};
    for i := 0 to |files|
      invariant loaded == KeepFirst(AllRules(files[..i])) && names == NamesOf(loaded)
    {
      assert files[..i + 1][..i] == files[..i];
      if files[i].rules.Some? {
        loaded, names := AddRules(AllRules(files[..i]), files[i].rules.value, loaded, names);
      } else {
        assert AllRules(files[..i + 1]) == AllRules(files[..i]);
      }
    }
    assert files[..|files|] == files;
  }

  method AddRules(ghost before: seq<Rule>, rs: seq<Rule>, kept: seq<Rule>, keptNames: set<string>)
    returns (loaded: seq<Rule>, names: set<string>)
    requires kept == KeepFirst(before) && keptNames == NamesOf(kept)
    ensures loaded == KeepFirst(before + rs) && names == NamesOf(loaded)
  {
    hide KeepFirst, NamesOf;
    loaded, names := kept, keptNames;
    assert before + rs[..0] == before;
    for j := 0 to |rs|
      invariant loaded == KeepFirst(before + rs[..j]) && names == NamesOf(loaded)
    {
      KeepOneMore(before, rs, j);
      if rs[j].name !in names {
        loaded := loaded + [rs[j]];
        names := names + {rs[j].name};
      }
    }
    assert rs[..|rs|] == rs;
  }

  /** The loop over the samples, which stops at the first one that does not satisfy the threshold. */
  method CheckAll(r: Rule, rows: seq<Sample>) returns (allSatisfy: bool)
    ensures allSatisfy == AllSatisfy(r, rows)
  {
    allSatisfy := true;
    var i := 0;
    while i < |rows| && allSatisfy
      invariant 0 <= i <= |rows|
      invariant allSatisfy ==> forall s | s in rows[..i] :: r.threshold.Evaluate(s.value)
      invariant !allSatisfy ==> !AllSatisfy(r, rows)
    {
      allSatisfy := r.threshold.Evaluate(rows[i].value);
      i := i + 1;
    }
    assert rows[..|rows|] == rows;
  }

  /** `groupByLabels`: the rows by label encoding, in row order. */
  method GroupByLabels(codec: Codec, rows: seq<Sample>) returns (groups: map<string, seq<Sample>>)
    ensures groups.Keys == GroupKeys(codec, rows)
    ensures forall g | g in groups :: groups[g] == GroupOf(codec, rows, g) && groups[g] != []
  {
    groups := map[];
    for i := 0 to |rows|
      invariant Grouping(codec, rows[..i], groups)
    {
      hide Grouping;
      GroupingGrows(codec, rows[..i], rows[i], groups);
      assert rows[..i + 1] == rows[..i] + [rows[i]];
      var key := codec.ToJSON(rows[i].labels);
      groups := groups[key := (if key in groups then groups[key] else []) + [rows[i]]];
    }
    assert rows[..|rows|] == rows;
  }
}
