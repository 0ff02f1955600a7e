/** Alert rules, the samples they read and the encoding of label sets.
    Values are `real`; regular expressions and JSON are function values, so every claim holds
    for whatever the library functions compute. */
module AlertRules {
  import opened Common

  type Labels = map<string, string>

  /** A compiled, anchored regular expression, seen as the set of strings it matches. */
  type Regexp = string -> bool

  datatype Threshold = Threshold(op: string, value: real) {
    predicate Evaluate(v: real) {
      match op
      case ">" => v > value
      case ">=" => v >= value
      case "<" => v < value
      case "<=" => v <= value
      case "==" => v == value
      case "!=" => v != value
      case _ => false
    }
  }

  const CLUSTER_NODE := "cluster_node"
  const CONTROL_PLANE := "control_plane"
  const ANY_ROLE := "any"

  datatype Rule = Rule(
    name: string,
    plugin: string,
    sensor: string,
    compiledLabels: map<string, Regexp>,
    hostRole: string,
    threshold: Threshold,
    duration: int, // seconds
    severity: string)
  {
    function EffectiveHostRole(): (role: string)
      ensures role in {CLUSTER_NODE, CONTROL_PLANE, ANY_ROLE}
      ensures role == hostRole <==> hostRole in {"cluster_node", "control_plane", "any"}
      ensures hostRole !in {"cluster_node", "control_plane", "any"} ==> role == "cluster_node"
    {
      if hostRole == CONTROL_PLANE || hostRole == ANY_ROLE then hostRole else CLUSTER_NODE
    }

    predicate AppliesToRole(role: string) {
      EffectiveHostRole() == ANY_ROLE || EffectiveHostRole() == role
    }

    /** Subset match: extra keys of the sample are ignored. */
    predicate MatchesLabels(labels: Labels) {
      forall k | k in compiledLabels :: k in labels && compiledLabels[k](labels[k])
    }

    /** The node-offline rule looks at heartbeats instead of samples. */
    predicate IsOfflineMeta() {
      plugin == "_meta" && sensor == "node_offline"
    }
  }

  /** The JSON encoder and decoder for label sets. */
  datatype Codec = Codec(marshal: Labels -> string, unmarshal: string -> Labels) {

    /** `labelsToJSON`: the empty label set is the empty string. */
    function ToJSON(labels: Labels): string {
      if |labels| == 0 then "" else marshal(labels)
    }

    function FromJSON(text: string): Labels {
      if text == "" then map[] else unmarshal(text)
    }

    /** Re-encoding a decoded encoding gives the encoding back. `Fire` re-encodes the labels that the
        engine decoded from the group key, so this is what makes the cache key equal the group key. */
    ghost predicate Stable() {
      forall labels: Labels :: ToJSON(FromJSON(ToJSON(labels))) == ToJSON(labels)
    }
  }

  datatype Sample = Sample(node: string, plugin: string, sensor: string, value: real, labels: Labels, ts: int)

  const TICK_SECONDS := 60
  const SAMPLE_LIMIT := 10000

  /** What the engine's queries read: samples in time order, the last heartbeat of every cluster node, and the
      control-plane hosts. */
  datatype StatsTables = StatsTables(samples: seq<Sample>, lastSeen: map<string, Option<int>>, controlPlane: set<string>) {

    predicate HasRole(node: string, role: string) {
      if role == CONTROL_PLANE then node in controlPlane
      else if role == ANY_ROLE then true
      else node in lastSeen
    }

    /** The oldest heartbeat that counts as alive. */
    function OfflineCutoff(r: Rule, now: int): int {
      now - (if r.duration <= 0 then 120 else r.duration)
    }

    function Lapsed(r: Rule, now: int): set<string> {
      set n | n in lastSeen && lastSeen[n].Some? && lastSeen[n].value < OfflineCutoff(r, now)
    }

    function NeverSeen(): set<string> {
      set n | n in lastSeen && lastSeen[n].None?
    }

    function WindowStart(r: Rule, now: int): int {
      now - (if r.duration < TICK_SECONDS then TICK_SECONDS else r.duration)
    }

    predicate InWindow(s: Sample, r: Rule, now: int) {
      s.plugin == r.plugin && s.sensor == r.sensor && WindowStart(r, now) <= s.ts <= now
    }

    /** The distinct nodes of the rule's role that have a sample in the window. */
    function NodesInWindow(r: Rule, now: int): set<string> {
      set s | s in samples && InWindow(s, r, now) && HasRole(s.node, r.EffectiveHostRole()) :: s.node
    }

    /** The samples of one node in the window, oldest first, cut at the row limit. */
    function NodeSamples(r: Rule, now: int, node: string): seq<Sample> {
      var all := Select(samples, r, now, node);
      if |all| > SAMPLE_LIMIT then all[..SAMPLE_LIMIT] else all
    }

    function Select(rows: seq<Sample>, r: Rule, now: int, node: string): seq<Sample> {
      if rows == [] then []
      else if rows[0].node == node && InWindow(rows[0], r, now) then [rows[0]] + Select(rows[1..], r, now, node)
      else Select(rows[1..], r, now, node)
    }
  }

  /** A silence; node `None` covers every node and expiry -1 never ends. */
  datatype Silence = Silence(id: string, ruleName: string, node: Option<string>, expiresAt: int) {
    predicate Covers(rule: string, nodeID: string, now: int) {
      ruleName == rule && (node == None || node == Some(nodeID)) && (expiresAt == -1 || expiresAt > now)
    }
  }

  /** The table contents and the clock reading that one silence check sees. */
  datatype SilenceView = SilenceView(silences: seq<Silence>, now: int) {
    predicate IsSilenced(rule: string, nodeID: string) {
      exists s | s in silences :: s.Covers(rule, nodeID, now)
    }
  }
}
