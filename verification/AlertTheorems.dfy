/** What a failure-free tick means in terms of the samples. */
module AlertTheorems {
  import opened Common
  import opened AlertRules
  import opened AlertStore
  import opened AlertEngine

  /** The group of the key is present on its node and matches the rule's label patterns. */
  ghost predicate Decides(codec: Codec, r: Rule, obs: Observation, k: Key) {
    && k.sensor == r.sensor
    && (exists s | s in obs.RowsOf(k.nodeID) :: codec.ToJSON(s.labels) == k.labelsJSON)
    && r.MatchesLabels(codec.FromJSON(k.labelsJSON))
  }

  /** Every sample of the key's group satisfies the threshold. */
  ghost predicate Breached(codec: Codec, r: Rule, obs: Observation, k: Key) {
    forall s | s in obs.RowsOf(k.nodeID) && codec.ToJSON(s.labels) == k.labelsJSON :: r.threshold.Evaluate(s.value)
  }

  /** The full specification of one rule over samples: keys on nodes outside the window are off, keys of a
      present and matching group follow their samples, and every other key keeps its state. */
  lemma RuleTick(codec: Codec, r: Rule, obs: Observation, w0: World, k: Key)
    requires !r.IsOfflineMeta()
    ensures RuleExpected(codec, r, obs, w0, k) <==>
            if k.ruleName != r.name then w0.Active(k)
            else if k.nodeID !in obs.nodes then false
            else if Decides(codec, r, obs, k) then Breached(codec, r, obs, k)
            else w0.Active(k)
  {
    ScopeIsDecided(codec, r, obs, w0, k);
  }

  /** The node-offline rule: the unlabelled key of an offline node is on, the rule's keys on other nodes are off. */
  lemma OfflineTick(codec: Codec, r: Rule, obs: Observation, w0: World, k: Key)
    requires r.IsOfflineMeta()
    ensures RuleExpected(codec, r, obs, w0, k) <==>
            if k.ruleName != r.name || !r.AppliesToRole(CLUSTER_NODE) then w0.Active(k)
            else if k.nodeID !in obs.Offline() then false
            else w0.Active(k) || (k.sensor == r.sensor && k.labelsJSON == "")
  {
  }

  /** Whatever fails, a rule over samples moves a key only for a reason that its queries delivered: the key's node is not
      among the nodes listed, or the key's group was delivered and decided. In particular nothing moves when the first
      query fails, and no key of a listed node moves when that node's query fails. */
  lemma RuleMovesForAReason(codec: Codec, r: Rule, seen: Option<Observation>, w0: World, w: World, k: Key)
    requires !r.IsOfflineMeta() && RuleMoved(codec, r, seen, w0, w, k)
    ensures (w.Active(k) <==> w0.Active(k)) ||
            (seen.Some? && k.ruleName == r.name &&
             if k.nodeID !in seen.value.nodes then !w.Active(k)
             else Decides(codec, r, seen.value, k) && (w.Active(k) <==> Breached(codec, r, seen.value, k)))
    ensures seen.Some? && k.ruleName == r.name && k.nodeID !in seen.value.nodes ==> !w.Active(k)
    ensures seen.Some? && k.ruleName == r.name && k.nodeID in seen.value.nodes && Decides(codec, r, seen.value, k) ==>
            !Breached(codec, r, seen.value, k) ==> !w.Active(k)
  {
    if seen.Some? {
      RuleTick(codec, r, seen.value, w0, k);
      RuleWantInScope(codec, r, seen.value, w0);
      ScopeIsDecided(codec, r, seen.value, w0, k);
    }
  }

  lemma ScopeIsDecided(codec: Codec, r: Rule, obs: Observation, w0: World, k: Key)
    requires !r.IsOfflineMeta()
    ensures k in RuleScope(codec, r, obs, w0.store.active) <==>
            k.ruleName == r.name && (if k.nodeID in obs.nodes then Decides(codec, r, obs, k) else w0.Active(k))
    ensures k in RuleWant(codec, r, obs) <==>
            k.ruleName == r.name && k.nodeID in obs.nodes && Decides(codec, r, obs, k) && Breached(codec, r, obs, k)
  {
    var rows := obs.RowsOf(k.nodeID);
    GroupOfMembers(codec, rows, k.labelsJSON);
    assert k.ruleName == r.name && k.sensor == r.sensor ==> k == KeyOf(r, k.nodeID, k.labelsJSON);
    if k.nodeID in obs.nodes {
      assert k in NodesScope(codec, r, obs, obs.nodes) <==> k in NodeScope(codec, r, k.nodeID, rows);
      assert k in NodesWant(codec, r, obs, obs.nodes) <==> k in NodeWant(codec, r, k.nodeID, rows);
    }
  }

  /** Whatever fails, an alert of the node-offline rule ends off exactly when its node is not among the offline nodes
      that were delivered. So a failed query can turn off the alert of an offline node: that of every node that was
      never seen, when the second heartbeat query fails. */
  lemma OfflineAlertLostIff(codec: Codec, r: Rule, obs: Observation, seen: Observation, w0: World, w: World, k: Key)
    requires r.IsOfflineMeta() && r.AppliesToRole(CLUSTER_NODE) && k.ruleName == r.name && w0.Active(k)
    requires SeenPart(obs, Some(seen)) && RuleMoved(codec, r, Some(seen), w0, w, k)
    ensures !w.Active(k) <==> k.nodeID !in seen.Offline()
    ensures k.nodeID in obs.neverSeen - obs.lapsed && seen.neverSeen == {} ==> !w.Active(k)
    ensures k.nodeID in obs.Offline() && !w.Active(k) ==> seen.lapsed != obs.lapsed || seen.neverSeen != obs.neverSeen
  {
  }

  lemma {:induction false} SelectMembers(db: StatsTables, rows: seq<Sample>, r: Rule, now: int, node: string)
    ensures forall s :: s in db.Select(rows, r, now, node) <==> s in rows && s.node == node && db.InWindow(s, r, now)
  {
    if rows != [] {
      SelectMembers(db, rows[1..], r, now, node);
      assert rows == [rows[0]] + rows[1..];
    }
  }

  /** The rule over the statistics tables: a node without a sample of the right role in the window has no firing key;
      a matching group present among the node's first 10000 samples in the window fires exactly when all of these
      samples of the group satisfy the threshold; an absent or non-matching group keeps its state. Those are all the
      samples of the window if there are no more than 10000. */
  lemma RuleTickOverTables(codec: Codec, r: Rule, db: StatsTables, now: int, w0: World, k: Key)
    requires !r.IsOfflineMeta() && k.ruleName == r.name && k.sensor == r.sensor
    ensures var after := RuleExpected(codec, r, Observe(db, r, now), w0, k);
      var window := db.NodeSamples(r, now, k.nodeID);
      var reports := exists s | s in db.samples :: s.node == k.nodeID && db.InWindow(s, r, now) && db.HasRole(s.node, r.EffectiveHostRole());
      var decided := r.MatchesLabels(codec.FromJSON(k.labelsJSON)) && exists s | s in window :: codec.ToJSON(s.labels) == k.labelsJSON;
      && (!reports ==> !after)
      && (reports && decided ==>
            (after <==> forall s | s in window && codec.ToJSON(s.labels) == k.labelsJSON :: r.threshold.Evaluate(s.value)))
      && (reports && !decided ==> (after <==> w0.Active(k)))
    ensures var window := db.NodeSamples(r, now, k.nodeID);
      && (forall s | s in window :: s in db.samples && s.node == k.nodeID && db.InWindow(s, r, now))
      && (|db.Select(db.samples, r, now, k.nodeID)| <= SAMPLE_LIMIT ==> forall s | s in db.samples && s.node == k.nodeID && db.InWindow(s, r, now) :: s in window)
  {
    var obs := Observe(db, r, now);
    RuleTick(codec, r, obs, w0, k);
    SelectMembers(db, db.samples, r, now, k.nodeID);
    assert k.nodeID in obs.nodes ==> obs.RowsOf(k.nodeID) == db.NodeSamples(r, now, k.nodeID);
  }

  /** Selecting works sample by sample and keeps the order of the table. */
  lemma SelectIsAFilter(db: StatsTables, a: seq<Sample>, b: seq<Sample>, s: Sample, r: Rule, now: int, node: string)
    ensures db.Select([], r, now, node) == []
    ensures db.Select(a + b, r, now, node) == db.Select(a, r, now, node) + db.Select(b, r, now, node)
    ensures db.Select([s], r, now, node) ==
            if s.node == node && s.plugin == r.plugin && s.sensor == r.sensor
               && now - (if r.duration < 60 then 60 else r.duration) <= s.ts <= now then [s] else []
  {
    SelectOfAppend(db, a, b, r, now, node);
    assert [s][1..] == [];
  }

  lemma {:induction false} SelectOfAppend(db: StatsTables, a: seq<Sample>, b: seq<Sample>, r: Rule, now: int, node: string)
    ensures db.Select(a + b, r, now, node) == db.Select(a, r, now, node) + db.Select(b, r, now, node)
  {
    hide StatsTables.InWindow;
    if a == [] {
      assert a + b == b;
    } else {
      assert (a + b)[0] == a[0] && (a + b)[1..] == a[1..] + b;
      SelectOfAppend(db, a[1..], b, r, now, node);
    }
  }

  /** A tick over the tables, operator by operator and in terms of the table columns. A rule over samples is off on nodes
      that did not report under its role in the window; a group that is absent or does not match keeps its state; and a
      matching group is on exactly if all of its samples, among the node's first 10000 in the window, compare with the
      threshold value as the operator says. An unknown operator never turns a key on. */
  lemma TickByOperator(codec: Codec, r: Rule, db: StatsTables, now: int, w0: World, k: Key)
    requires !(r.plugin == "_meta" && r.sensor == "node_offline") && k.ruleName == r.name && k.sensor == r.sensor
    ensures var after, limit, rows := RuleExpected(codec, r, Observe(db, r, now), w0, k), r.threshold.value, db.Select(db.samples, r, now, k.nodeID);
      var window := if |rows| <= 10000 then rows else rows[..10000];
      var inRole := if r.hostRole == "control_plane" then k.nodeID in db.controlPlane else r.hostRole == "any" || k.nodeID in db.lastSeen;
      var reports := inRole && rows != [];
      var labels := if k.labelsJSON == "" then map[] else codec.unmarshal(k.labelsJSON);
      var matches := forall name | name in r.compiledLabels :: name in labels && r.compiledLabels[name](labels[name]);
      var group := set s | s in window && (if |s.labels| == 0 then "" else codec.marshal(s.labels)) == k.labelsJSON;
      && (!reports ==> !after)
      && (reports && !(matches && group != {}) ==> (after <==> w0.Active(k)))
      && (reports && matches && group != {} ==>
            && (r.threshold.op == ">" ==> (after <==> forall s | s in group :: s.value > limit))
            && (r.threshold.op == ">=" ==> (after <==> forall s | s in group :: s.value >= limit))
            && (r.threshold.op == "<" ==> (after <==> forall s | s in group :: s.value < limit))
            && (r.threshold.op == "<=" ==> (after <==> forall s | s in group :: s.value <= limit))
            && (r.threshold.op == "==" ==> (after <==> forall s | s in group :: s.value == limit))
            && (r.threshold.op == "!=" ==> (after <==> forall s | s in group :: s.value != limit)))
      && (r.threshold.op !in {">", ">=", "<", "<=", "==", "!="} && after ==> w0.Active(k))
  {
    GroupFollows(codec, r, db, now, w0, k);
    hide RuleExpected, Observe, StatsTables.Select;
  }

  /** The same with the threshold as a predicate. */
  lemma GroupFollows(codec: Codec, r: Rule, db: StatsTables, now: int, w0: World, k: Key)
    requires !r.IsOfflineMeta() && k.ruleName == r.name && k.sensor == r.sensor
    ensures var after, rows := RuleExpected(codec, r, Observe(db, r, now), w0, k), db.Select(db.samples, r, now, k.nodeID);
      var window := if |rows| <= 10000 then rows else rows[..10000];
      var inRole := if r.hostRole == "control_plane" then k.nodeID in db.controlPlane else r.hostRole == "any" || k.nodeID in db.lastSeen;
      var reports := inRole && rows != [];
      var labels := if k.labelsJSON == "" then map[] else codec.unmarshal(k.labelsJSON);
      var matches := forall name | name in r.compiledLabels :: name in labels && r.compiledLabels[name](labels[name]);
      var group := set s | s in window && (if |s.labels| == 0 then "" else codec.marshal(s.labels)) == k.labelsJSON;
      && (!reports ==> !after)
      && (reports && !(matches && group != {}) ==> (after <==> w0.Active(k)))
      && (reports && matches && group != {} ==> (after <==> forall s | s in group :: r.threshold.Evaluate(s.value)))
  {
    RuleTickOverTables(codec, r, db, now, w0, k);
    SelectMembers(db, db.samples, r, now, k.nodeID);
    var rows := db.Select(db.samples, r, now, k.nodeID);
    hide RuleExpected, Observe, StatsTables.Select, Threshold.Evaluate;
    var window := if |rows| <= 10000 then rows else rows[..10000];
    assert window == db.NodeSamples(r, now, k.nodeID);
    assert rows != [] ==> rows[0] in rows;
    var group := set s | s in window && (if |s.labels| == 0 then "" else codec.marshal(s.labels)) == k.labelsJSON;
    assert forall s :: s in group <==> s in window && codec.ToJSON(s.labels) == k.labelsJSON;
  }

  /** What a tick decides about a key is what the rule of that name decides. */
  lemma TickIsRuleTick(codec: Codec, rules: seq<Rule>, i: nat, tick: string -> Observation, db: StatsTables, now: int, w0: World, k: Key)
    requires UniqueNames(rules) && i < |rules| && k.ruleName == rules[i].name && tick(rules[i].name) == Observe(db, rules[i], now)
    ensures TickExpected(codec, rules, tick, w0, k) <==> RuleExpected(codec, rules[i], Observe(db, rules[i], now), w0, k)
  {
    hide RuleExpected, Observe;
  }

  /** A tick in which no call fails announces a key that started firing exactly if no silence row for its rule, for its
      node or for all nodes, is without end or expires later; and announces every resolution. */
  lemma NotifiesUnlessSilenced(w0: World, w: World, hush: Silencer, k: Key)
    requires MovedSomehow(w0, w, hush) && w.store.failures == w0.store.failures
    ensures |w0.notices| <= |w.notices| && w.notices[..|w0.notices|] == w0.notices
    ensures var sent, view := w.notices[|w0.notices|..], hush.views(k);
      && (k !in w0.store.active && k in w.store.active ==>
            (FiringNotice(w.store.active[k], k) in sent <==>
             !exists s | s in view.silences :: s.ruleName == k.ruleName && (s.node == None || s.node == Some(k.nodeID))
                                               && (s.expiresAt == -1 || s.expiresAt > view.now)))
      && (k in w0.store.active && k !in w.store.active ==> ResolvedNotice(w0.store.active[k], k) in sent)
      && (k in w0.store.active && k in w.store.active ==> forall n | n in sent :: n.key != k)
      && (k !in w0.store.active && k !in w.store.active ==> forall n | n in sent :: n.key != k)
  {
    var view := hush.views(k);
    assert w0.Active(k) <==> k in w0.store.active;
    assert w.Active(k) <==> k in w.store.active;
    var scope, want :| Moved(w0, w, hush, scope, want);
    var sent := w.notices[|w0.notices|..];
    forall n | n in sent
      ensures n.key == k ==> w0.Active(k) != w.Active(k)
    {
      assert Reports(w0, w, n);
    }
    if s :| s in view.silences && s.ruleName == k.ruleName && (s.node == None || s.node == Some(k.nodeID))
            && (s.expiresAt == -1 || s.expiresAt > view.now) {
      assert s.Covers(k.ruleName, k.nodeID, view.now);
      assert hush.Quiet(k);
    } else {
      assert !hush.Quiet(k);
    }
  }

  /** The node-offline rule over the heartbeats: the unlabelled key of a cluster node is on exactly when the node was
      never seen or not since the cutoff, and the rule's other keys survive only on such nodes. */
  lemma OfflineTickOverTables(codec: Codec, r: Rule, db: StatsTables, now: int, w0: World, k: Key)
    requires r.plugin == "_meta" && r.sensor == "node_offline" && k.ruleName == r.name
    ensures r.hostRole == "control_plane" ==> (RuleExpected(codec, r, Observe(db, r, now), w0, k) <==> w0.Active(k))
    ensures r.hostRole != "control_plane" ==>
      var after := RuleExpected(codec, r, Observe(db, r, now), w0, k);
      var cutoff := now - (if r.duration <= 0 then 120 else r.duration);
      var offline := k.nodeID in db.lastSeen && (db.lastSeen[k.nodeID] == None || db.lastSeen[k.nodeID].value < cutoff);
      after <==> offline && (w0.Active(k) || (k.sensor == r.sensor && k.labelsJSON == ""))
  {
    OfflineTick(codec, r, Observe(db, r, now), w0, k);
  }

  /** Without the encoding round trip the deduplication is lost: a group whose key does not re-encode to itself
      is still inactive after it fired, so the next tick fires it again and the key has two firing rows. */
  lemma UnstableKeyFiresAgain(v: StoreView, codec: Codec, r: Rule, node: string, group: string, value: real)
    requires v.Coherent() && KeyOf(r, node, group) !in v.active
    requires codec.ToJSON(codec.FromJSON(group)) != group
    ensures var once := FiredView(v, codec, r, node, codec.FromJSON(group), value);
      && KeyOf(r, node, group) !in once.active
      && !FiredView(once, codec, r, node, codec.FromJSON(group), value).Exact()
  {
    var once := FiredView(v, codec, r, node, codec.FromJSON(group), value);
    var twice := FiredView(once, codec, r, node, codec.FromJSON(group), value);
    assert twice.IsFiring(v.nextId) && twice.IsFiring(v.nextId + 1);
  }

  /** In a failure-free store a key has at most one firing row, and it is cached exactly when it has one. */
  lemma OneFiringRowPerKey(v: StoreView, k: Key)
    requires v.Valid() && v.failures == 0
    ensures forall i, j | i in v.rows && j in v.rows && v.rows[i].state == v.rows[j].state == Firing
                          && v.rows[i].key == v.rows[j].key == k :: i == j
    ensures k in v.active <==> exists id | id in v.rows :: v.rows[id].state == Firing && v.rows[id].key == k
    ensures k in v.active ==> v.active[k] in v.rows && v.rows[v.active[k]].state == Firing && v.rows[v.active[k]].key == k
  {
    forall i | i in v.rows && v.rows[i].state == Firing && v.rows[i].key == k
      ensures k in v.active && v.active[k] == i
    {
      assert v.IsFiring(i);
    }
    if k in v.active {
      assert v.IsFiring(v.active[k]);
    }
  }

  /** In a failure-free store the transitions of a key alternate: a row is fired only while the key is off, and cleared
      only as the row that was fired last; between two transitions of one kind there is one of the other. */
  lemma TransitionsAlternate(v: StoreView, k: Key, i: nat, j: nat)
    requires v.Valid() && v.failures == 0 && i < j < |v.trace| && v.trace[i].key == v.trace[j].key == k
    requires forall n | i < n < j :: v.trace[n].key != k
    ensures v.trace[i].Fired? ==> v.trace[j] == Cleared(k, v.trace[i].id)
    ensures v.trace[i].Cleared? ==> v.trace[j].Fired?
  {
    var t := v.trace;
    assert PhaseOf(t, k) != Broken;
    hide PhaseOf, StoreView.Valid;
    PhaseAround(t, k, i);
    PhaseAround(t, k, j);
    Untouched(t, k, i + 1, j);
  }

  /** The first transition of a key fires it. */
  lemma FirstTransitionFires(v: StoreView, k: Key, j: nat)
    requires v.Valid() && v.failures == 0 && j < |v.trace| && v.trace[j].key == k
    requires forall n | 0 <= n < j :: v.trace[n].key != k
    ensures v.trace[j].Fired?
  {
    assert PhaseOf(v.trace[..0], k) == Off && PhaseOf(v.trace, k) != Broken;
    hide PhaseOf, StoreView.Valid;
    PhaseAround(v.trace, k, j);
    Untouched(v.trace, k, 0, j);
  }

  lemma PhaseAround(t: seq<Transition>, k: Key, n: nat)
    requires n < |t| && t[n].key == k && PhaseOf(t, k) != Broken
    ensures match t[n]
      case Fired(_, id) => PhaseOf(t[..n], k) == Off && PhaseOf(t[..n + 1], k) == On(id)
      case Cleared(_, id) => PhaseOf(t[..n], k) == On(id) && PhaseOf(t[..n + 1], k) == Off
  {
    NeverBroken(t, k, n + 1);
    assert t[..n + 1][..n] == t[..n] && t[..n + 1][n] == t[n];
  }

  lemma {:induction false} NeverBroken(t: seq<Transition>, k: Key, n: nat)
    requires n <= |t| && PhaseOf(t, k) != Broken
    ensures PhaseOf(t[..n], k) != Broken
    decreases |t|
  {
    if n == |t| {
      assert t[..n] == t;
    } else {
      assert t[..|t| - 1][..n] == t[..n];
      NeverBroken(t[..|t| - 1], k, n);
    }
  }

  lemma {:induction false} Untouched(t: seq<Transition>, k: Key, i: nat, j: nat)
    requires i <= j <= |t| && forall n | i <= n < j :: t[n].key != k
    ensures PhaseOf(t[..j], k) == PhaseOf(t[..i], k)
  {
    if i < j {
      assert t[..j][..j - 1] == t[..j - 1];
      Untouched(t, k, i, j - 1);
    }
  }
}
