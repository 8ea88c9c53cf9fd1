/** Row types of the object metadata plane.

    A row family whose keys extend a version prefix (`repl/<id>/<version>/...`,
    `ec/<id>/<version>/...`) is grouped under that prefix: the outer map is keyed by
    the object revision, the inner one by the last key component.  Module Keys proves
    that a version prefix matches the keys of that version only. */
module MetaTypes {
  datatype Option<+T> = None | Some(value: T)

  type ObjectId = string
  type NodeId = string
  type Payload = string

  datatype ObjectState = HotActive | MigrationPending | Migrating | EcActive
  datatype Tier = Hot | Ec
  datatype RowStatus = Active | Deleted

  /** One version of one object. */
  datatype Rev = Rev(id: ObjectId, version: int)

  datatype ObjectRow = ObjectRow(current: int, state: ObjectState, updatedAt: int)
  datatype VersionRow = VersionRow(size: int, tier: Tier, k: nat, m: nat, createdAt: int)
  datatype ShardRow = ShardRow(node: NodeId, status: RowStatus)
  datatype ShardLocation = ShardLocation(index: nat, node: NodeId)

  type ReplicaRows = map<NodeId, RowStatus>
  type ShardRows = map<nat, ShardRow>

  datatype Db = Db(
    objects: map<ObjectId, ObjectRow>,
    versions: map<Rev, VersionRow>,
    replicas: map<Rev, ReplicaRows>,
    shards: map<Rev, ShardRows>,
    dueRefs: map<Rev, int>,         // tdue_ref/<id>/<version> -> eligible time
    dueKeys: set<(int, Rev)>)       // tdue/<eligible>/<id>/<version>

  datatype Snapshot = Snapshot(current: int, state: ObjectState, tier: Tier)
}

/** The Repository calls on objects, versions and placements: each is a function on the
    database, and class Store is the imperative form proved against it. */
module MetaStore {
  import opened MetaTypes

  predicate IsCurrent(db: Db, rev: Rev) {
    rev.id in db.objects && db.objects[rev.id].current == rev.version
  }

  function ReplicasOf(db: Db, rev: Rev): ReplicaRows {
    if rev in db.replicas then db.replicas[rev] else map[]
  }

  function ShardsOf(db: Db, rev: Rev): ShardRows {
    if rev in db.shards then db.shards[rev] else map[]
  }

  function ActiveNodes(rows: ReplicaRows): set<NodeId> {
    set n | n in rows && rows[n] == Active
  }

  function ActiveShards(rows: ShardRows): set<nat> {
    set i | i in rows && rows[i].status == Active
  }

  function SnapshotOf(db: Db, rev: Rev): Option<Snapshot> {
    if rev.id in db.objects && rev in db.versions then
      Some(Snapshot(db.objects[rev.id].current, db.objects[rev.id].state, db.versions[rev].tier))
    else
      None
  }

  // ---- replica rows ----

  /** Every non-empty node id gets an ACTIVE row; the other rows stay. */
  function WithReplicas(rows: ReplicaRows, nodes: seq<NodeId>): ReplicaRows {
    rows + map n | n in nodes && n != "" :: Active
  }

  /** Rows of the named nodes become DELETED; a node without a row is skipped. */
  function WithoutReplicas(rows: ReplicaRows, nodes: seq<NodeId>): ReplicaRows {
    map n | n in rows :: if n in nodes then Deleted else rows[n]
  }

  function UpsertReplicas(db: Db, rev: Rev, nodes: seq<NodeId>): Db {
    if |nodes| == 0 then db
    else db.(replicas := db.replicas[rev := WithReplicas(ReplicasOf(db, rev), nodes)])
  }

  function MarkReplicasDeleted(db: Db, rev: Rev, nodes: seq<NodeId>): Db {
    if |nodes| == 0 then db
    else db.(replicas := db.replicas[rev := WithoutReplicas(ReplicasOf(db, rev), nodes)])
  }

  // ---- migration ----

  /** None when the object is missing, moved on, or already EC_ACTIVE. */
  function MarkMigrating(db: Db, rev: Rev, now: int): Option<Db> {
    if !IsCurrent(db, rev) || db.objects[rev.id].state == EcActive then
      None
    else
      var row := db.objects[rev.id].(state := Migrating, updatedAt := now);
      Some(db.(objects := db.objects[rev.id := row]))
  }

  /** Shard rows written in order, a later location for an index replacing an earlier one. */
  function WithShards(rows: ShardRows, locations: seq<ShardLocation>): ShardRows {
    if |locations| == 0 then rows
    else
      var last := locations[|locations| - 1];
      WithShards(rows, locations[..|locations| - 1])[last.index := ShardRow(last.node, Active)]
  }

  /** None when there is nothing to commit, or the version is no longer current or present. */
  function Promote(db: Db, rev: Rev, k: nat, m: nat, locations: seq<ShardLocation>, now: int): Option<Db> {
    if |locations| == 0 || !IsCurrent(db, rev) || rev !in db.versions then
      None
    else
      Some(db.(
           shards := db.shards[rev := WithShards(ShardsOf(db, rev), locations)],
           versions := db.versions[rev := db.versions[rev].(tier := Ec, k := k, m := m)],
           objects := db.objects[rev.id := db.objects[rev.id].(state := EcActive, updatedAt := now)]))
  }

  // ---- due index ----

  function RemoveDue(db: Db, rev: Rev): Db {
    if rev in db.dueRefs then
      db.(dueRefs := db.dueRefs - {rev}, dueKeys := db.dueKeys - {(db.dueRefs[rev], rev)})
    else
      db
  }

  function PutDue(db: Db, rev: Rev, eligibleAt: int): Db {
    var cleared := RemoveDue(db, rev);
    cleared.(dueRefs := cleared.dueRefs[rev := eligibleAt], dueKeys := cleared.dueKeys + {(eligibleAt, rev)})
  }

  // ---- object lifecycle ----

  /** Commit of a replicated PUT: object head, version row, replica rows and due entry. */
  function CommitPut(db: Db, rev: Rev, nodes: seq<NodeId>, size: int, now: int, eligibleAt: int): Db {
    var rows := db.(
      objects := db.objects[rev.id := ObjectRow(rev.version, HotActive, now)],
      versions := db.versions[rev := VersionRow(size, Hot, 0, 0, now)],
      replicas := db.replicas[rev := WithReplicas(ReplicasOf(db, rev), nodes)]);
    PutDue(rows, rev, eligibleAt)
  }

  /** The metadata transaction for any tier: replica rows and a due entry only for HOT. */
  function CommitMetadata(db: Db, rev: Rev, state: ObjectState, version: VersionRow, nodes: seq<NodeId>,
                          eligibleAt: int): Db {
    var rows := db.(
      objects := db.objects[rev.id := ObjectRow(rev.version, state, version.createdAt)],
      versions := db.versions[rev := version]);
    if version.tier == Hot then
      PutDue(rows.(replicas := rows.replicas[rev := WithReplicas(ReplicasOf(rows, rev), nodes)]), rev, eligibleAt)
    else
      RemoveDue(rows, rev)
  }

  /** None when the purge is refused because the version is current. */
  function PurgeVersion(db: Db, rev: Rev): Option<Db> {
    if rev.id !in db.objects then Some(db)
    else if db.objects[rev.id].current == rev.version then None
    else
      Some(RemoveDue(db.(versions := db.versions - {rev},
                         replicas := db.replicas - {rev},
                         shards := db.shards - {rev}), rev))
  }

  function DeleteObject(db: Db, o: ObjectId): Db {
    Db(db.objects - {o},
       map r | r in db.versions && r.id != o :: db.versions[r],
       map r | r in db.replicas && r.id != o :: db.replicas[r],
       map r | r in db.shards && r.id != o :: db.shards[r],
       map r | r in db.dueRefs && r.id != o :: db.dueRefs[r],
       db.dueKeys - set r | r in db.dueRefs && r.id == o :: (db.dueRefs[r], r))
  }

  // ---- candidate scan, one due entry at a time ----

  /** The checks that drop a due entry: object gone, moved on, in a later state, or not HOT. */
  predicate StaleDue(db: Db, rev: Rev) {
    || !IsCurrent(db, rev)
    || db.objects[rev.id].state !in {HotActive, MigrationPending}
    || rev !in db.versions
    || db.versions[rev].tier != Hot
  }

  /** A selected candidate leaves the due index and a HOT_ACTIVE head becomes MIGRATION_PENDING. */
  function SelectCandidate(db: Db, rev: Rev, now: int): Db {
    var cleared := RemoveDue(db, rev);
    if IsCurrent(cleared, rev) && cleared.objects[rev.id].state == HotActive then
      var row := cleared.objects[rev.id].(state := MigrationPending, updatedAt := now);
      cleared.(objects := cleared.objects[rev.id := row])
    else
      cleared
  }

  // ---- retention ----

  /** The version rows of the same object that are newer than `rev`. */
  function Newer(db: Db, rev: Rev): set<Rev> {
    set r | r in db.versions && r.id == rev.id && r.version > rev.version
  }

  /** What the retention scan may hand to old-version GC. */
  predicate Reapable(db: Db, rev: Rev, keep: nat, minAge: int, now: int) {
    && rev.id in db.objects
    && rev in db.versions
    && !IsCurrent(db, rev)
    && |Newer(db, rev)| >= keep
    && (minAge > 0 ==> now - db.versions[rev].createdAt >= minAge)
  }

  // ---- what the calls leave in the tables, row by row ----

  ghost predicate SameAt<K(!new), V>(m: map<K, V>, m': map<K, V>, k: K) {
    (k in m' <==> k in m) && (k in m ==> m'[k] == m[k])
  }

  /** No row but the one under k differs. */
  ghost predicate OnlyAt<K(!new), V>(m: map<K, V>, m': map<K, V>, k: K) {
    forall x :: x != k ==> SameAt(m, m', x)
  }

  /** One ACTIVE row for each named node, the other rows as before. */
  ghost predicate Upserted(rows: ReplicaRows, rows': ReplicaRows, nodes: seq<NodeId>) {
    forall n :: if n in nodes && n != "" then n in rows' && rows'[n] == Active else SameAt(rows, rows', n)
  }

  /** The rows of the named nodes that exist are DELETED, the other rows as before. */
  ghost predicate Dropped(rows: ReplicaRows, rows': ReplicaRows, nodes: seq<NodeId>) {
    forall n :: if n in nodes && n in rows then n in rows' && rows'[n] == Deleted else SameAt(rows, rows', n)
  }

  /** No later location has the same index. */
  ghost predicate LastFor(locations: seq<ShardLocation>, p: nat)
    requires p < |locations|
  {
    forall q :: p < q < |locations| ==> locations[q].index != locations[p].index
  }

  ghost predicate Names(locations: seq<ShardLocation>, i: nat) { exists l :: l in locations && l.index == i }

  /** Each index of a location has an ACTIVE row for the node of its last location, the others are
      as before. */
  ghost predicate Placed(rows: ShardRows, rows': ShardRows, locations: seq<ShardLocation>) {
    && (forall i :: !Names(locations, i) ==> SameAt(rows, rows', i))
    && (forall p :: 0 <= p < |locations| && LastFor(locations, p) ==>
          locations[p].index in rows' && rows'[locations[p].index] == ShardRow(locations[p].node, Active))
  }

  /** The due entry of a version is gone, every other one as before. */
  ghost predicate Undue(before: Db, after: Db, rev: Rev) {
    && rev !in after.dueRefs && OnlyAt(before.dueRefs, after.dueRefs, rev)
    && (forall e :: e in after.dueKeys <==>
          e in before.dueKeys && !(e.1 == rev && rev in before.dueRefs && before.dueRefs[rev] == e.0))
  }

  /** The version is due at a time, every other one as before. */
  ghost predicate DueAt(before: Db, after: Db, rev: Rev, eligibleAt: int) {
    && rev in after.dueRefs && after.dueRefs[rev] == eligibleAt && OnlyAt(before.dueRefs, after.dueRefs, rev)
    && (forall e :: e in after.dueKeys <==>
          || e == (eligibleAt, rev)
          || (e in before.dueKeys && !(e.1 == rev && rev in before.dueRefs && before.dueRefs[rev] == e.0)))
  }

  /** The head of an object is this row, every other one as before. */
  ghost predicate HeadIs(before: Db, after: Db, id: ObjectId, row: ObjectRow) {
    id in after.objects && after.objects[id] == row && OnlyAt(before.objects, after.objects, id)
  }

  /** Nothing of one version is left, and everything else is as before. */
  ghost predicate VersionErased(before: Db, after: Db, rev: Rev) {
    && rev !in after.versions && rev !in after.replicas && rev !in after.shards && Undue(before, after, rev)
    && after.objects == before.objects && OnlyAt(before.versions, after.versions, rev)
    && OnlyAt(before.replicas, after.replicas, rev) && OnlyAt(before.shards, after.shards, rev)
  }

  /** The rows of one version in all tables are the same. */
  ghost predicate SameVersion(before: Db, after: Db, r: Rev) {
    && SameAt(before.versions, after.versions, r) && SameAt(before.replicas, after.replicas, r)
    && SameAt(before.shards, after.shards, r) && SameAt(before.dueRefs, after.dueRefs, r)
    && forall at :: (at, r) in after.dueKeys <==> (at, r) in before.dueKeys
  }

  ghost predicate NoRows(db: Db, r: Rev) {
    r !in db.versions && r !in db.replicas && r !in db.shards && r !in db.dueRefs
  }

  /** Nothing of one object is left, and everything of every other object is as before.  A due key
      without a reference is not found, and stays. */
  ghost predicate ObjectErased(before: Db, after: Db, o: ObjectId) {
    && o !in after.objects && OnlyAt(before.objects, after.objects, o)
    && (forall r: Rev :: if r.id == o then NoRows(after, r) else SameVersion(before, after, r))
    && (forall e :: e in after.dueKeys && e.1.id == o ==>
          e in before.dueKeys && !(e.1 in before.dueRefs && before.dueRefs[e.1] == e.0))
  }

  lemma DeleteErases(db: Db, o: ObjectId)
    ensures ObjectErased(db, DeleteObject(db, o), o)
  {
    var after := DeleteObject(db, o);
    forall r: Rev | r.id != o ensures SameVersion(db, after, r) {
      forall at ensures (at, r) in after.dueKeys <==> (at, r) in db.dueKeys {}
    }
  }

  lemma PurgeErases(db: Db, rev: Rev)
    ensures PurgeVersion(db, rev).None? <==> IsCurrent(db, rev)
    ensures rev.id !in db.objects ==> PurgeVersion(db, rev) == Some(db)
    ensures rev.id in db.objects && !IsCurrent(db, rev) ==> VersionErased(db, PurgeVersion(db, rev).value, rev)
  {
  }

  /** What a metadata transaction stores, with the version row's own creation time and size. */
  ghost predicate Committed(before: Db, after: Db, rev: Rev, state: ObjectState, version: VersionRow,
                            nodes: seq<NodeId>, eligibleAt: int) {
    && HeadIs(before, after, rev.id, ObjectRow(rev.version, state, version.createdAt))
    && rev in after.versions && after.versions[rev] == version && OnlyAt(before.versions, after.versions, rev)
    && after.shards == before.shards
    && (if version.tier == Hot then
          && OnlyAt(before.replicas, after.replicas, rev) && DueAt(before, after, rev, eligibleAt)
          && Upserted(ReplicasOf(before, rev), ReplicasOf(after, rev), nodes)
        else
          after.replicas == before.replicas && Undue(before, after, rev))
  }

  lemma UpsertStores(rows: ReplicaRows, nodes: seq<NodeId>)
    ensures Upserted(rows, WithReplicas(rows, nodes), nodes)
  {
  }

  /** The due index is a matter of its own: putting and removing depend on it only. */
  lemma DueApart(db: Db, other: Db, rev: Rev, eligibleAt: int)
    requires other.dueRefs == db.dueRefs && other.dueKeys == db.dueKeys
    ensures DueAt(db, PutDue(other, rev, eligibleAt), rev, eligibleAt) && Undue(db, RemoveDue(other, rev), rev)
    ensures var put := PutDue(other, rev, eligibleAt);
            put == other.(dueRefs := put.dueRefs, dueKeys := put.dueKeys)
    ensures var removed := RemoveDue(other, rev);
            removed == other.(dueRefs := removed.dueRefs, dueKeys := removed.dueKeys)
  {
  }

  lemma MetadataStores(db: Db, rev: Rev, state: ObjectState, version: VersionRow, nodes: seq<NodeId>, eligibleAt: int)
    ensures var after := CommitMetadata(db, rev, state, version, nodes, eligibleAt);
            Committed(db, after, rev, state, version, nodes, eligibleAt)
  {
    var head := ObjectRow(rev.version, state, version.createdAt);
    var rows := db.(objects := db.objects[rev.id := head], versions := db.versions[rev := version]);
    var hot := rows.(replicas := rows.replicas[rev := WithReplicas(ReplicasOf(rows, rev), nodes)]);
    UpsertStores(ReplicasOf(db, rev), nodes);
    DueApart(db, rows, rev, eligibleAt);
    DueApart(db, hot, rev, eligibleAt);
  }

  /** What the commit of a PUT stores. */
  lemma CommitStores(db: Db, rev: Rev, nodes: seq<NodeId>, size: int, now: int, eligibleAt: int)
    ensures var version := VersionRow(size, Hot, 0, 0, now);
            var after := CommitPut(db, rev, nodes, size, now, eligibleAt);
            && after == CommitMetadata(db, rev, HotActive, version, nodes, eligibleAt)
            && Committed(db, after, rev, HotActive, version, nodes, eligibleAt)
  {
    MetadataStores(db, rev, HotActive, VersionRow(size, Hot, 0, 0, now), nodes, eligibleAt);
  }

  /** A selected candidate leaves the due index, its HOT_ACTIVE head waits for migration from now
      on, and nothing else changes. */
  lemma SelectStores(db: Db, rev: Rev, now: int)
    ensures var after := SelectCandidate(db, rev, now);
            && Undue(db, after, rev)
            && after.versions == db.versions && after.replicas == db.replicas && after.shards == db.shards
            && (if IsCurrent(db, rev) && db.objects[rev.id].state == HotActive
                then HeadIs(db, after, rev.id, ObjectRow(rev.version, MigrationPending, now))
                else after.objects == db.objects)
  {
  }

  // ---- facts about the shard fold ----

  lemma {:induction false} ShardKeys(rows: ShardRows, locations: seq<ShardLocation>)
    ensures forall i :: i in WithShards(rows, locations) <==> i in rows || Names(locations, i)
    ensures forall i :: Names(locations, i) ==> WithShards(rows, locations)[i].status == Active
    ensures forall i :: !Names(locations, i) ==> SameAt(rows, WithShards(rows, locations), i)
  {
    if |locations| > 0 {
      var init, last := locations[..|locations| - 1], locations[|locations| - 1];
      ShardKeys(rows, init);
      assert locations == init + [last];
      forall i ensures Names(locations, i) <==> Names(init, i) || i == last.index { NamesSnoc(init, last, i); }
    }
  }

  lemma {:induction false} ShardAt(rows: ShardRows, locations: seq<ShardLocation>, p: nat)
    requires p < |locations| && LastFor(locations, p)
    ensures var l := locations[p];
            l.index in WithShards(rows, locations) && WithShards(rows, locations)[l.index] == ShardRow(l.node, Active)
  {
    var n := |locations| - 1;
    if p < n {
      assert locations[n].index != locations[p].index;
      ShardAt(rows, locations[..n], p);
    }
  }

  /** The rows after the loop: each index has the node of its last location, and with different
      indexes every location has its own row. */
  lemma WithShardsRows(rows: ShardRows, locations: seq<ShardLocation>)
    ensures Placed(rows, WithShards(rows, locations), locations)
    ensures forall i :: i in WithShards(rows, locations) <==> i in rows || Names(locations, i)
    ensures forall l :: l in locations ==> WithShards(rows, locations)[l.index].status == Active
    ensures (forall p :: 0 <= p < |locations| ==> LastFor(locations, p)) ==>
              forall l :: l in locations ==> WithShards(rows, locations)[l.index] == ShardRow(l.node, Active)
  {
    ShardKeys(rows, locations);
    forall l | l in locations ensures Names(locations, l.index) {}
    forall p | 0 <= p < |locations| && LastFor(locations, p)
      ensures var l := locations[p];
              l.index in WithShards(rows, locations) && WithShards(rows, locations)[l.index] == ShardRow(l.node, Active)
    {
      ShardAt(rows, locations, p);
    }
  }

  lemma NamesSnoc(init: seq<ShardLocation>, last: ShardLocation, i: nat)
    ensures Names(init + [last], i) <==> Names(init, i) || i == last.index
  {
    if Names(init, i) {
      var l :| l in init && l.index == i;
      assert l in init + [last];
    }
    assert last in init + [last];
  }

  /** The version is EC with these parameters, its other fields kept; its shard rows are placed, its
      head is EC_ACTIVE, and nothing else changes. */
  ghost predicate Promoted(before: Db, after: Db, rev: Rev, k: nat, m: nat, locations: seq<ShardLocation>, now: int) {
    && HeadIs(before, after, rev.id, ObjectRow(rev.version, EcActive, now))
    && rev in before.versions && rev in after.versions && OnlyAt(before.versions, after.versions, rev)
    && after.versions[rev].tier == Ec && after.versions[rev].k == k && after.versions[rev].m == m
    && after.versions[rev].size == before.versions[rev].size
    && after.versions[rev].createdAt == before.versions[rev].createdAt
    && OnlyAt(before.shards, after.shards, rev) && Placed(ShardsOf(before, rev), ShardsOf(after, rev), locations)
    && after == before.(objects := after.objects, versions := after.versions, shards := after.shards)
  }

  lemma PromoteStores(db: Db, rev: Rev, k: nat, m: nat, locations: seq<ShardLocation>, now: int)
    ensures var after := Promote(db, rev, k, m, locations, now);
            && (after.Some? <==> |locations| > 0 && IsCurrent(db, rev) && rev in db.versions)
            && (after.Some? ==> Promoted(db, after.value, rev, k, m, locations, now))
  {
    WithShardsRows(ShardsOf(db, rev), locations);
  }

  // ---- the replica folds, one node at a time ----

  lemma WithReplicasStep(rows: ReplicaRows, nodes: seq<NodeId>, i: nat)
    requires i < |nodes|
    ensures WithReplicas(rows, nodes[..i + 1]) ==
            if nodes[i] == "" then WithReplicas(rows, nodes[..i])
            else WithReplicas(rows, nodes[..i])[nodes[i] := Active]
  {
    assert nodes[..i + 1] == nodes[..i] + [nodes[i]];
  }

  lemma WithoutReplicasStep(rows: ReplicaRows, nodes: seq<NodeId>, i: nat)
    requires i < |nodes|
    ensures WithoutReplicas(rows, nodes[..i + 1]) ==
            if nodes[i] in rows then WithoutReplicas(rows, nodes[..i])[nodes[i] := Deleted]
            else WithoutReplicas(rows, nodes[..i])
  {
    assert nodes[..i + 1] == nodes[..i] + [nodes[i]];
  }

  /** The imperative store: one field holding the tables, updated row by row. */
  class Store {
    var db: Db

    method GetObjectVersionSnapshot(rev: Rev) returns (snapshot: Option<Snapshot>)
      ensures snapshot == SnapshotOf(db, rev)
      ensures snapshot.Some? && snapshot.value.current == rev.version ==> IsCurrent(db, rev)
      ensures snapshot.Some? <==> rev.id in db.objects && rev in db.versions
      ensures snapshot.Some? ==>
                && snapshot.value.current == db.objects[rev.id].current
                && snapshot.value.state == db.objects[rev.id].state && snapshot.value.tier == db.versions[rev].tier
    {
      if rev.id !in db.objects || rev !in db.versions {
        return None;
      }
      var head := db.objects[rev.id];
      return Some(Snapshot(head.current, head.state, db.versions[rev].tier));
    }

    method MarkObjectMigrating(rev: Rev, now: int) returns (ok: bool)
      modifies this
      ensures ok == MarkMigrating(old(db), rev, now).Some?
      ensures db == if ok then MarkMigrating(old(db), rev, now).value else old(db)
      ensures ok <==> IsCurrent(old(db), rev) && old(db).objects[rev.id].state != EcActive
      ensures ok ==> HeadIs(old(db), db, rev.id, ObjectRow(rev.version, Migrating, now))
      ensures db == old(db).(objects := db.objects)
    {
      if rev.id !in db.objects {
        return false;
      }
      var head := db.objects[rev.id];
      if head.current != rev.version {
        return false;
      }
      match head.state {
        case HotActive | MigrationPending | Migrating =>
          db := db.(objects := db.objects[rev.id := head.(state := Migrating, updatedAt := now)]);
          return true;
        case EcActive =>
          return false;
      }
    }

    method PromoteObjectVersionToEC(rev: Rev, k: nat, m: nat, locations: seq<ShardLocation>, now: int)
      returns (ok: bool)
      modifies this
      ensures ok == Promote(old(db), rev, k, m, locations, now).Some?
      ensures db == if ok then Promote(old(db), rev, k, m, locations, now).value else old(db)
      ensures ok <==> |locations| > 0 && IsCurrent(old(db), rev) && rev in old(db).versions
      ensures ok ==> Promoted(old(db), db, rev, k, m, locations, now)
    {
      if |locations| == 0 || rev.id !in db.objects || db.objects[rev.id].current != rev.version || rev !in db.versions {
        return false;
      }
      var rows := if rev in db.shards then db.shards[rev] else map[];
      for i := 0 to |locations|
        invariant rows == WithShards(ShardsOf(db, rev), locations[..i])
        invariant db == old(db)
      {
        assert locations[..i + 1][..i] == locations[..i];
        rows := rows[locations[i].index := ShardRow(locations[i].node, Active)];
      }
      assert locations[..|locations|] == locations;
      PromoteStores(db, rev, k, m, locations, now);
      var head, version := db.objects[rev.id], db.versions[rev];
      db := db.(shards := db.shards[rev := rows],
                versions := db.versions[rev := version.(tier := Ec, k := k, m := m)],
                objects := db.objects[rev.id := head.(state := EcActive, updatedAt := now)]);
      return true;
    }

    method UpsertReplicaLocations(rev: Rev, nodes: seq<NodeId>)
      modifies this
      ensures db == UpsertReplicas(old(db), rev, nodes)
      ensures db == old(db).(replicas := db.replicas) && OnlyAt(old(db).replicas, db.replicas, rev)
      ensures Upserted(ReplicasOf(old(db), rev), ReplicasOf(db, rev), nodes)
    {
      if |nodes| == 0 {
        return;
      }
      var rows := ActiveRows(if rev in db.replicas then db.replicas[rev] else map[], nodes);
      db := db.(replicas := db.replicas[rev := rows]);
    }

    /** One ACTIVE row per node, written node by node. */
    static method ActiveRows(before: ReplicaRows, nodes: seq<NodeId>) returns (rows: ReplicaRows)
      ensures rows == WithReplicas(before, nodes)
    {
      rows := before;
      assert rows == WithReplicas(before, nodes[..0]);
      for i := 0 to |nodes|
        invariant rows == WithReplicas(before, nodes[..i])
      {
        WithReplicasStep(before, nodes, i);
        if nodes[i] != "" {
          rows := rows[nodes[i] := Active];
        }
      }
      assert nodes[..|nodes|] == nodes;
    }

    method MarkReplicaLocationsDeleted(rev: Rev, nodes: seq<NodeId>)
      modifies this
      ensures db == MarkReplicasDeleted(old(db), rev, nodes)
      ensures db == old(db).(replicas := db.replicas) && OnlyAt(old(db).replicas, db.replicas, rev)
      ensures Dropped(ReplicasOf(old(db), rev), ReplicasOf(db, rev), nodes)
    {
      if |nodes| == 0 {
        return;
      }
      ghost var before := ReplicasOf(db, rev);
      var rows := if rev in db.replicas then db.replicas[rev] else map[];
      assert rows == WithoutReplicas(before, nodes[..0]);
      for i := 0 to |nodes|
        invariant rows == WithoutReplicas(before, nodes[..i])
        invariant db == old(db)
      {
        WithoutReplicasStep(before, nodes, i);
        if nodes[i] in rows {
          rows := rows[nodes[i] := Deleted];
        }
      }
      assert nodes[..|nodes|] == nodes;
      db := db.(replicas := db.replicas[rev := rows]);
    }

    /** The metadata transaction of a write: head, version row, replica rows, due entry.  For a
        replicated PUT it is the commit step of the protocol; an EC version has neither replica
        rows nor a due entry of its own. */
    method UpsertNormalizedMetadata(rev: Rev, state: ObjectState, version: VersionRow, nodes: seq<NodeId>,
                                    eligibleAt: int)
      returns (ok: bool)
      modifies this
      ensures ok == (rev.id != "")
      ensures db == if ok then CommitMetadata(old(db), rev, state, version, nodes, eligibleAt) else old(db)
      ensures ok && state == HotActive && version == VersionRow(version.size, Hot, 0, 0, version.createdAt) ==>
                db == CommitPut(old(db), rev, nodes, version.size, version.createdAt, eligibleAt)
      ensures ok ==> Committed(old(db), db, rev, state, version, nodes, eligibleAt)
    {
      if rev.id == "" {
        return false;
      }
      MetadataStores(db, rev, state, version, nodes, eligibleAt);
      CommitStores(db, rev, nodes, version.size, version.createdAt, eligibleAt);
      db := db.(objects := db.objects[rev.id := ObjectRow(rev.version, state, version.createdAt)]);
      db := db.(versions := db.versions[rev := version]);
      if version.tier == Hot {
        var rows := ActiveRows(if rev in db.replicas then db.replicas[rev] else map[], nodes);
        db := db.(replicas := db.replicas[rev := rows]);
      }
      if rev in db.dueRefs {
        db := db.(dueKeys := db.dueKeys - {(db.dueRefs[rev], rev)}, dueRefs := db.dueRefs - {rev});
      }
      if version.tier == Hot {
        db := db.(dueKeys := db.dueKeys + {(eligibleAt, rev)}, dueRefs := db.dueRefs[rev := eligibleAt]);
      }
      return true;
    }

    /** Every row and due entry of an object goes; the due entries one reference at a time. */
    method DeleteNormalizedMetadata(o: ObjectId)
      modifies this
      ensures db == DeleteObject(old(db), o)
      ensures ObjectErased(old(db), db, o)
    {
      DeleteErases(db, o);
      RemoveDueOf(o);
      db := db.(objects := db.objects - {o},
                versions := map r | r in db.versions && r.id != o :: db.versions[r],
                replicas := map r | r in db.replicas && r.id != o :: db.replicas[r],
                shards := map r | r in db.shards && r.id != o :: db.shards[r]);
    }

    method RemoveDueOf(o: ObjectId)
      modifies this
      ensures db == old(db).(dueRefs := db.dueRefs, dueKeys := db.dueKeys)
      ensures db.dueRefs == map r | r in old(db).dueRefs && r.id != o :: old(db).dueRefs[r]
      ensures db.dueKeys == old(db).dueKeys - set r | r in old(db).dueRefs && r.id == o :: (old(db).dueRefs[r], r)
    {
      ghost var before := db;
      var refs := set r | r in db.dueRefs && r.id == o;
      while refs != {}
        invariant refs <= set r | r in before.dueRefs && r.id == o
        invariant db == before.(dueRefs := db.dueRefs, dueKeys := db.dueKeys)
        invariant db.dueRefs == map r | r in before.dueRefs && (r.id != o || r in refs) :: before.dueRefs[r]
        invariant db.dueKeys ==
                    before.dueKeys - set r | r in before.dueRefs && r.id == o && r !in refs :: (before.dueRefs[r], r)
        decreases |refs|
      {
        var r :| r in refs;
        db := db.(dueKeys := db.dueKeys - {(db.dueRefs[r], r)}, dueRefs := db.dueRefs - {r});
        refs := refs - {r};
      }
    }

    method PurgeObjectVersionMetadata(rev: Rev) returns (ok: bool)
      modifies this
      ensures ok == PurgeVersion(old(db), rev).Some?
      ensures db == if ok then PurgeVersion(old(db), rev).value else old(db)
      ensures ok <==> !IsCurrent(old(db), rev)
      ensures ok && rev.id in old(db).objects ==> VersionErased(old(db), db, rev)
      ensures rev.id !in old(db).objects ==> db == old(db)
    {
      PurgeErases(db, rev);
      if rev.id !in db.objects {
        return true;
      }
      if db.objects[rev.id].current == rev.version {
        return false;
      }
      db := db.(versions := db.versions - {rev}, replicas := db.replicas - {rev}, shards := db.shards - {rev});
      if rev in db.dueRefs {
        db := db.(dueKeys := db.dueKeys - {(db.dueRefs[rev], rev)}, dueRefs := db.dueRefs - {rev});
      }
      return true;
    }
  }
}
