/** API keys: lookup, revocation, transactional rotation of node keys, and the expiry sweep, over the `api_keys` table. */
module ApiKeys {
  import opened Common

  datatype Scope = Admin | NodeScope

  datatype KeyRow = KeyRow(scope: Scope, node: Option<string>, hash: string, expiresAt: Option<int>, revokedAt: Option<int>) {
    predicate Expired(now: int) {
      expiresAt.Some? && now > expiresAt.value
    }

    /** An unrevoked key of a node. */
    predicate LiveFor(nodeID: string) {
      scope == NodeScope && node == Some(nodeID) && revokedAt == None
    }
  }

  /** Rows by primary key; hashes are unique. */
  type Table = map<string, KeyRow>

  ghost predicate UniqueHashes(rows: Table) {
    forall i, j | i in rows && j in rows && rows[i].hash == rows[j].hash :: i == j
  }

  ghost predicate OneKeyPerNode(rows: Table) {
    forall i, j | i in rows && j in rows && rows[i].scope == rows[j].scope == NodeScope && rows[i].revokedAt == rows[j].revokedAt == None
                  && rows[i].node.Some? && rows[i].node == rows[j].node :: i == j
  }

  /** The middleware lets a request with this hash through at this time. */
  ghost predicate Accepted(rows: Table, hash: string, now: int) {
    exists id | id in rows ::
      rows[id].hash == hash && rows[id].revokedAt == None && (rows[id].expiresAt == None || now <= rows[id].expiresAt.value)
  }

  // ----- the effect of the statements -----

  function RevokeWhere(rows: Table, nodeID: string, now: int): Table {
    map id | id in rows :: if rows[id].LiveFor(nodeID) then rows[id].(revokedAt := Some(now)) else rows[id]
  }

  /** The unrevoked node-scoped keys of the node are revoked at that time, and nothing else changes. */
  predicate IsRevocation(rows: Table, rows': Table, nodeID: string, now: int) {
    rows'.Keys == rows.Keys &&
    forall id | id in rows ::
      rows'[id] == if rows[id].scope == NodeScope && rows[id].node == Some(nodeID) && rows[id].revokedAt == None
                   then rows[id].(revokedAt := Some(now)) else rows[id]
  }

  lemma RevokeWhereMeans(rows: Table, nodeID: string, now: int)
    ensures IsRevocation(rows, RevokeWhere(rows, nodeID, now), nodeID, now)
  {
  }

  function Swept(rows: Table, now: int): Table {
    map id | id in rows && !(rows[id].expiresAt.Some? && rows[id].expiresAt.value < now) :: rows[id]
  }

  /** The primary key and the unique hash allow the row. */
  predicate Insertable(rows: Table, id: string, row: KeyRow) {
    id !in rows && forall other | other in rows :: rows[other].hash != row.hash
  }

  /** Revoking changes no id and no hash. */
  lemma RevokeKeepsHashes(rows: Table, nodeID: string, now: int, id: string, row: KeyRow)
    requires UniqueHashes(rows)
    ensures var revoked := RevokeWhere(rows, nodeID, now);
      && UniqueHashes(revoked)
      && (Insertable(revoked, id, row) <==> Insertable(rows, id, row))
      && (Insertable(rows, id, row) ==> UniqueHashes(revoked[id := row]))
  {
    var revoked := RevokeWhere(rows, nodeID, now);
    assert forall i | i in rows :: revoked[i].hash == rows[i].hash;
  }

  function ActiveKeys(rows: Table, scope: Scope, now: int): set<string> {
    set id | id in rows && rows[id].scope == scope && rows[id].revokedAt == None
             && (rows[id].expiresAt == None || rows[id].expiresAt.value > now)
  }

  ghost function AcceptedKeys(rows: Table, scope: Scope, now: int): set<string> {
    set id | id in rows && rows[id].scope == scope && Accepted(rows, rows[id].hash, now)
  }

  function ExpiringKeys(rows: Table, scope: Scope, now: int): set<string> {
    set id | id in rows && rows[id].scope == scope && rows[id].revokedAt == None && rows[id].expiresAt == Some(now)
  }

  datatype LookupResult = NoRows | RevokedKey | ExpiredKey | DbError | Found(id: string, row: KeyRow)

  /** `outcome` says beforehand which database calls succeed. */
  class KeyStore {
    const outcome: nat -> bool
    var calls: nat
    var rows: Table
    var lastUsed: map<string, int>

    ghost predicate Valid()
      reads this
    {
      UniqueHashes(rows)
    }

    constructor (outcome: nat -> bool)
      ensures Valid() && this.outcome == outcome && rows == map[] && lastUsed == map[]
    {
      this.outcome, calls, rows, lastUsed := outcome, 0, map[], map[];
    }

    method Call() returns (ok: bool)
      modifies this`calls
      ensures ok == outcome(old(calls)) && calls == old(calls) + 1
    {
      ok := outcome(calls);
      calls := calls + 1;
    }

    /** Revocation is checked before expiry; only an accepted key is marked as used. */
    method Lookup(hash: string, now: int) returns (res: LookupResult)
      requires Valid()
      modifies this`lastUsed, this`calls
      ensures res == DbError <==> !outcome(old(calls))
      ensures res.Found? ==> Accepted(rows, hash, now) && res.id in rows && rows[res.id] == res.row && res.row.hash == hash
      ensures res != DbError ==> (res.Found? <==> Accepted(rows, hash, now))
      ensures res == RevokedKey ==> exists id | id in rows :: rows[id].hash == hash && rows[id].revokedAt.Some?
      ensures res == ExpiredKey ==>
                exists id | id in rows ::
                  rows[id].hash == hash && rows[id].revokedAt == None && rows[id].expiresAt.Some? && now > rows[id].expiresAt.value
      ensures res == NoRows ==> forall id | id in rows :: rows[id].hash != hash
      ensures lastUsed == if res.Found? then old(lastUsed)[hash := now] else old(lastUsed)
    {
      var ok := Call();
      if !ok {
        return DbError;
      }
      if id :| id in rows && rows[id].hash == hash {
        if rows[id].revokedAt.Some? {
          return RevokedKey;
        }
        if rows[id].Expired(now) {
          return ExpiredKey;
        }
        lastUsed := lastUsed[hash := now];
        return Found(id, rows[id]);
      }
      return NoRows;
    }

    /** The plain insert. */
    method Create(id: string, row: KeyRow, userID: string) returns (ok: bool)
      requires Valid()
      modifies this`rows, this`calls
      ensures Valid()
      ensures ok <==> userID != "" && id !in old(rows) && (forall j | j in old(rows) :: old(rows)[j].hash != row.hash) && outcome(old(calls))
      ensures rows == if ok then old(rows)[id := row] else old(rows)
    {
      if userID == "" {
        return false;
      }
      ok := Call();
      ok := ok && Insertable(rows, id, row);
      if ok {
        rows := rows[id := row];
      }
    }

    /** Revokes the node's keys and inserts the new one in one transaction: all or nothing. The calls are the begin, the
        update, the insert and the commit. */
    method RevokeAndCreate(nodeID: string, id: string, row: KeyRow, userID: string, now: int) returns (ok: bool)
      requires Valid()
      modifies this`rows, this`calls
      ensures Valid()
      ensures ok <==> userID != "" && id !in old(rows) && (forall j | j in old(rows) :: old(rows)[j].hash != row.hash)
                      && forall n: nat | old(calls) <= n < old(calls) + 4 :: outcome(n)
      ensures rows == if ok then RevokeWhere(old(rows), nodeID, now)[id := row] else old(rows)
      ensures ok ==> IsRevocation(old(rows), rows - {id}, nodeID, now) && id in rows && rows[id] == row
    {
      RevokeWhereMeans(rows, nodeID, now);
      if id !in rows {
        assert RevokeWhere(rows, nodeID, now)[id := row] - {id} == RevokeWhere(rows, nodeID, now);
      }
      assert Insertable(rows, id, row) <==> id !in rows && (forall j | j in rows :: rows[j].hash != row.hash);
      if userID == "" {
        return false;
      }
      hide RevokeWhere, Insertable, UniqueHashes;
      RevokeKeepsHashes(rows, nodeID, now, id, row);
      ok := Call();
      if !ok {
        return;
      }
      var saved := rows;
      ok := Call();
      if !ok {
        return; // rollback
      }
      rows := RevokeWhere(rows, nodeID, now);
      ok := Call();
      if !ok || !Insertable(rows, id, row) {
        rows := saved; // rollback
        return false;
      }
      rows := rows[id := row];
      ok := Call();
      if !ok {
        rows := saved;
      }
    }

    method RevokeNodeScopedKeys(nodeID: string, now: int) returns (ok: bool)
      requires Valid()
      modifies this`rows, this`calls
      ensures Valid() && ok == outcome(old(calls))
      ensures rows == if ok then RevokeWhere(old(rows), nodeID, now) else old(rows)
      ensures ok ==> IsRevocation(old(rows), rows, nodeID, now)
    {
      RevokeWhereMeans(rows, nodeID, now);
      ok := Call();
      if ok {
        rows := RevokeWhere(rows, nodeID, now);
      }
    }

    /** Refuses a key that does not exist or is already revoked. The second call asks for the number of rows: when it
        fails the key is revoked all the same. */
    method RevokeAPIKey(id: string, now: int) returns (ok: bool)
      requires Valid()
      modifies this`rows, this`calls
      ensures Valid()
      ensures var live := id in old(rows) && old(rows)[id].revokedAt == None;
        && (ok <==> live && outcome(old(calls)) && outcome(old(calls) + 1))
        && rows == if live && outcome(old(calls)) then old(rows)[id := old(rows)[id].(revokedAt := Some(now))] else old(rows)
    {
      ok := Call();
      if !ok {
        return;
      }
      var affected := id in rows && rows[id].revokedAt == None;
      if affected {
        rows := rows[id := rows[id].(revokedAt := Some(now))];
      }
      ok := Call();
      ok := ok && affected;
    }

    method SweepExpired(now: int) returns (removed: Option<int>)
      requires Valid()
      modifies this`rows, this`calls
      ensures Valid()
      ensures rows == if outcome(old(calls)) then Swept(old(rows), now) else old(rows)
      ensures outcome(old(calls)) ==>
                forall id | id in old(rows) ::
                  && (id in rows <==> old(rows)[id].expiresAt == None || old(rows)[id].expiresAt.value >= now)
                  && (id in rows ==> rows[id] == old(rows)[id])
      ensures removed == if outcome(old(calls)) && outcome(old(calls) + 1) then Some(|old(rows)| - |rows|) else None
    {
      var ok := Call();
      if !ok {
        return None;
      }
      var before := |rows|;
      rows := Swept(rows, now);
      ok := Call();
      return if ok then Some(before - |rows|) else None;
    }

    /** Counts the unrevoked keys that expire later or never: the accepted ones without those that expire now. */
    method CountByScope(scope: Scope, now: int) returns (count: Option<int>)
      requires Valid()
      modifies this`calls
      ensures count.Some? <==> outcome(old(calls))
      ensures count.Some? ==>
                count.value == |set id | id in rows && rows[id].scope == scope && rows[id].revokedAt == None
                                         && (rows[id].expiresAt == None || rows[id].expiresAt.value > now)|
      ensures count.Some? ==> count.value == |AcceptedKeys(rows, scope, now)| - |ExpiringKeys(rows, scope, now)|
    {
      var ok := Call();
      if !ok {
        return None;
      }
      CountMissesExpiring(rows, scope, now);
      return Some(|ActiveKeys(rows, scope, now)|);
    }
  }

  // ----- runs -----

  datatype Step =
    | Mint(nodeID: string, id: string, row: KeyRow, now: int)
    | CreateKey(id: string, row: KeyRow)
    | RevokeNode(nodeID: string, now: int)
    | RevokeId(id: string, now: int)
    | DeleteId(id: string)
    | Sweep(now: int)
    | Failed // any call whose transaction did not commit

  function Next(rows: Table, step: Step): Table {
    match step
    case Mint(n, id, row, now) => if Insertable(rows, id, row) then RevokeWhere(rows, n, now)[id := row] else rows
    case CreateKey(id, row) => if Insertable(rows, id, row) then rows[id := row] else rows
    case RevokeNode(n, now) => RevokeWhere(rows, n, now)
    case RevokeId(id, now) => if id in rows && rows[id].revokedAt == None then rows[id := rows[id].(revokedAt := Some(now))] else rows
    case DeleteId(id) => rows - {id}
    case Sweep(now) => Swept(rows, now)
    case Failed => rows
  }

  function After(rows: Table, steps: seq<Step>): Table {
    if steps == [] then rows else Next(After(rows, steps[..|steps| - 1]), steps[|steps| - 1])
  }

  /** Node keys are minted only by the transaction, for the node they are bound to. */
  predicate MintsByTransaction(step: Step) {
    match step
    case Mint(n, _, row, _) => row.scope == NodeScope && row.node == Some(n)
    case CreateKey(_, row) => row.scope == Admin
    case _ => true
  }

  /** Every node has at most one unrevoked key, in every run that mints node keys only by the transaction. */
  lemma {:induction false} AtMostOneKeyPerNode(rows: Table, steps: seq<Step>)
    requires UniqueHashes(rows) && OneKeyPerNode(rows)
    requires forall s | s in steps :: MintsByTransaction(s)
    ensures UniqueHashes(After(rows, steps)) && OneKeyPerNode(After(rows, steps))
  {
    if steps != [] {
      AtMostOneKeyPerNode(rows, steps[..|steps| - 1]);
      assert steps[|steps| - 1] in steps;
      StepKeepsOneKey(After(rows, steps[..|steps| - 1]), steps[|steps| - 1]);
    }
  }

  lemma StepKeepsOneKey(rows: Table, step: Step)
    requires UniqueHashes(rows) && OneKeyPerNode(rows) && MintsByTransaction(step)
    ensures UniqueHashes(Next(rows, step)) && OneKeyPerNode(Next(rows, step))
  {
    match step
    case Mint(n, id, row, now) =>
      if Insertable(rows, id, row) {
        RevokeKeepsHashes(rows, n, now, id, row);
        MintKeepsOneKey(rows, n, id, row, now);
      }
    case RevokeNode(n, now) => assert forall i | i in rows :: RevokeWhere(rows, n, now)[i].hash == rows[i].hash;
    case _ =>
  }

  lemma MintKeepsOneKey(rows: Table, nodeID: string, id: string, row: KeyRow, now: int)
    requires OneKeyPerNode(rows) && row.scope == NodeScope && row.node == Some(nodeID)
    ensures OneKeyPerNode(RevokeWhere(rows, nodeID, now)[id := row])
  {
    var revoked := RevokeWhere(rows, nodeID, now);
    assert forall i | i in revoked :: !revoked[i].LiveFor(nodeID);
    assert forall i, n | i in revoked && revoked[i].LiveFor(n) :: rows[i].LiveFor(n);
  }

  /** The plain insert keeps the invariant exactly when it is not a second live key of a node. */
  lemma PlainCreateKeepsOneKeyIff(rows: Table, id: string, row: KeyRow)
    requires UniqueHashes(rows) && OneKeyPerNode(rows) && Insertable(rows, id, row)
    ensures OneKeyPerNode(rows[id := row]) <==>
            row.scope != NodeScope || row.node == None || row.revokedAt.Some?
            || forall j | j in rows :: rows[j].scope != NodeScope || rows[j].node != row.node || rows[j].revokedAt.Some?
  {
    var rows' := rows[id := row];
    if j :| j in rows && rows[j].scope == NodeScope && rows[j].node == row.node && rows[j].revokedAt == None {
      assert rows'[j] == rows[j] && rows'[id] == row && id != j;
    }
  }

  /** A successful rotation leaves the node with exactly the new key. */
  lemma RotationLeavesTheNewKey(rows: Table, nodeID: string, id: string, row: KeyRow, now: int)
    requires Insertable(rows, id, row) && row.scope == NodeScope && row.node == Some(nodeID) && row.revokedAt == None
    ensures var rows' := Next(rows, Mint(nodeID, id, row, now));
      forall j | j in rows' :: rows'[j].scope == NodeScope && rows'[j].node == Some(nodeID) && rows'[j].revokedAt == None <==> j == id
  {
  }

  predicate Inserts(step: Step, hash: string) {
    (step.Mint? || step.CreateKey?) && step.row.hash == hash
  }

  /** A hash is rejected at all times if its key is revoked, and stays so in every run that does not insert it again. */
  lemma {:induction false} RevocationIsPermanent(rows: Table, steps: seq<Step>, hash: string)
    requires forall id | id in rows && rows[id].hash == hash :: rows[id].revokedAt.Some?
    requires forall s | s in steps :: !Inserts(s, hash)
    ensures forall id | id in After(rows, steps) && After(rows, steps)[id].hash == hash :: After(rows, steps)[id].revokedAt.Some?
    ensures forall now :: !Accepted(After(rows, steps), hash, now)
  {
    if steps != [] {
      RevocationIsPermanent(rows, steps[..|steps| - 1], hash);
      assert steps[|steps| - 1] in steps;
    }
  }

  /** A sweep at time t does not change which keys are accepted at any time from t on. */
  lemma SweepKeepsAcceptance(rows: Table, t: int, hash: string, now: int)
    requires t <= now
    ensures Accepted(Swept(rows, t), hash, now) <==> Accepted(rows, hash, now)
  {
    if id :| id in rows && rows[id].hash == hash && rows[id].revokedAt == None && !rows[id].Expired(now) {
      assert id in Swept(rows, t);
    }
  }

  /** The count of active keys is the number of accepted keys without those that expire at that very second: the count
      excludes such a key, the lookup still accepts it. So the two agree exactly when no key expires then. */
  lemma CountMissesExpiring(rows: Table, scope: Scope, now: int)
    requires UniqueHashes(rows)
    ensures |ActiveKeys(rows, scope, now)| + |ExpiringKeys(rows, scope, now)| == |AcceptedKeys(rows, scope, now)|
    ensures |ActiveKeys(rows, scope, now)| == |AcceptedKeys(rows, scope, now)| <==> ExpiringKeys(rows, scope, now) == {}
  {
    MissedKeys(rows, scope, now);
    hide ActiveKeys, AcceptedKeys, ExpiringKeys;
    var active, expiring := ActiveKeys(rows, scope, now), ExpiringKeys(rows, scope, now);
    assert |active + expiring| == |active| + |expiring|;
  }

  /** The accepted keys are those counted and those that expire now. */
  lemma MissedKeys(rows: Table, scope: Scope, now: int)
    requires UniqueHashes(rows)
    ensures AcceptedKeys(rows, scope, now) == ActiveKeys(rows, scope, now) + ExpiringKeys(rows, scope, now)
    ensures ActiveKeys(rows, scope, now) !! ExpiringKeys(rows, scope, now)
  {
    forall id | id in rows && rows[id].scope == scope
      ensures id in AcceptedKeys(rows, scope, now) <==> rows[id].revokedAt == None && !rows[id].Expired(now)
    {
    }
  }
}
