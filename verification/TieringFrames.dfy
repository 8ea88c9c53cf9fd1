/** What each step of the tiering protocol may touch, by which steps rows leave, and where the rows
    of an EC version come from. */
module TieringFrames {
  import opened MetaTypes
  import opened MetaStore
  import opened TieringProtocol

  // ---- every step stays with one object ----

  /** The version whose rows a step may change, if any. */
  function TargetOf(world: World, a: Action): Option<Rev> {
    match a
    case PutCommit(w, _, _) => WorkerRev(world, w)
    case LateUpsert(w) => WorkerRev(world, w)
    case MigrateMark(w, _) => WorkerRev(world, w)
    case MigratePromote(w, _) => WorkerRev(world, w)
    case GcMark(w) => WorkerRev(world, w)
    case HotRepairUpsert(w) => WorkerRev(world, w)
    case EcRepairPromote(w, _) => WorkerRev(world, w)
    case OldGcPurge(w) => WorkerRev(world, w)
    case DeleteMetadata(w) => WorkerRev(world, w)
    case PruneDue(rev) => Some(rev)
    case SelectDue(rev, _) => Some(rev)
    case _ => None
  }

  function WorkerRev(world: World, w: nat): Option<Rev> {
    if w in world.workers then Some(world.workers[w].rev) else None
  }

  /** Only the head of rev's object and the rows of rev may differ. */
  ghost predicate StaysWith(before: Db, after: Db, rev: Rev) {
    OnlyAt(before.objects, after.objects, rev.id) && forall r :: r != rev ==> SameVersion(before, after, r)
  }

  /** Only rows and due entries of one object may differ. */
  ghost predicate StaysWithObject(before: Db, after: Db, o: ObjectId) {
    OnlyAt(before.objects, after.objects, o) && forall r: Rev :: r.id != o ==> SameVersion(before, after, r)
  }

  lemma CommitStays(db: Db, rev: Rev, nodes: seq<NodeId>, size: int, now: int, eligibleAt: int)
    ensures StaysWith(db, CommitPut(db, rev, nodes, size, now, eligibleAt), rev)
  {
    var after := CommitPut(db, rev, nodes, size, now, eligibleAt);
    CommitStores(db, rev, nodes, size, now, eligibleAt);
    forall r | r != rev ensures SameVersion(db, after, r) {
      assert SameAt(db.versions, after.versions, r) && SameAt(db.replicas, after.replicas, r);
      assert SameAt(db.dueRefs, after.dueRefs, r);
    }
  }

  lemma ReplicasStay(db: Db, rev: Rev, nodes: seq<NodeId>)
    ensures StaysWith(db, UpsertReplicas(db, rev, nodes), rev)
    ensures StaysWith(db, MarkReplicasDeleted(db, rev, nodes), rev)
  {
    NewRowsStay(db, rev, WithReplicas(ReplicasOf(db, rev), nodes));
    NewRowsStay(db, rev, WithoutReplicas(ReplicasOf(db, rev), nodes));
  }

  lemma NewRowsStay(db: Db, rev: Rev, rows: ReplicaRows)
    ensures StaysWith(db, db.(replicas := db.replicas[rev := rows]), rev) && StaysWith(db, db, rev)
  {
  }

  lemma MigrationStays(db: Db, rev: Rev, k: nat, m: nat, locations: seq<ShardLocation>, now: int)
    ensures MarkMigrating(db, rev, now).Some? ==> StaysWith(db, MarkMigrating(db, rev, now).value, rev)
    ensures Promote(db, rev, k, m, locations, now).Some? ==>
              StaysWith(db, Promote(db, rev, k, m, locations, now).value, rev)
  {
  }

  lemma UndueStays(db: Db, after: Db, rev: Rev)
    requires Undue(db, after, rev) && OnlyAt(db.objects, after.objects, rev.id)
    requires OnlyAt(db.versions, after.versions, rev) && OnlyAt(db.replicas, after.replicas, rev)
    requires OnlyAt(db.shards, after.shards, rev)
    ensures StaysWith(db, after, rev)
  {
    forall r | r != rev ensures SameVersion(db, after, r) {
      assert SameAt(db.versions, after.versions, r) && SameAt(db.replicas, after.replicas, r);
      assert SameAt(db.shards, after.shards, r) && SameAt(db.dueRefs, after.dueRefs, r);
    }
  }

  lemma DueStepsStay(db: Db, rev: Rev, now: int)
    ensures StaysWith(db, RemoveDue(db, rev), rev) && StaysWith(db, SelectCandidate(db, rev, now), rev)
  {
    DueApart(db, db, rev, 0);
    SelectStores(db, rev, now);
    UndueStays(db, RemoveDue(db, rev), rev);
    UndueStays(db, SelectCandidate(db, rev, now), rev);
  }

  lemma PurgeStays(db: Db, rev: Rev)
    ensures PurgeVersion(db, rev).Some? ==> StaysWith(db, PurgeVersion(db, rev).value, rev)
  {
    PurgeErases(db, rev);
    if PurgeVersion(db, rev).Some? && rev.id in db.objects { UndueStays(db, PurgeVersion(db, rev).value, rev); }
  }

  /** A step changes rows of its own version only; the metadata step of a DELETE request, rows of
      its own object only; all other steps, no rows at all. */
  lemma StepStays(c: Config, world: World, a: Action)
    requires Step(c, world, a).Some?
    ensures var after := Step(c, world, a).value.db;
            match TargetOf(world, a)
            case None => after == world.db
            case Some(rev) =>
              if a.DeleteMetadata? then StaysWithObject(world.db, after, rev.id)
              else StaysWith(world.db, after, rev)
  {
    var target := TargetOf(world, a);
    if target.Some? { TargetStays(c, world, a, target.value); }
  }

  lemma TargetStays(c: Config, world: World, a: Action, rev: Rev)
    requires Step(c, world, a).Some? && TargetOf(world, a) == Some(rev)
    ensures var after := Step(c, world, a).value.db;
            if a.DeleteMetadata? then StaysWithObject(world.db, after, rev.id) else StaysWith(world.db, after, rev)
  {
    var db := world.db;
    match a
    case PutCommit(w, now, eligibleAt) =>
      CommitStays(db, rev, world.workers[w].written, |world.data[rev]|, now, eligibleAt);
    case LateUpsert(w) => ReplicasStay(db, rev, world.workers[w].written);
    case HotRepairUpsert(w) => ReplicasStay(db, rev, world.workers[w].written);
    case GcMark(w) => ReplicasStay(db, rev, world.workers[w].done);
    case MigrateMark(_, now) => MigrationStays(db, rev, 0, 0, [], now);
    case MigratePromote(w, now) => MigrationStays(db, rev, c.k, c.m, world.workers[w].locations, now);
    case EcRepairPromote(w, now) =>
      MigrationStays(db, rev, world.workers[w].k, world.workers[w].m, world.workers[w].locations, now);
    case OldGcPurge(_) => PurgeStays(db, rev);
    case DeleteMetadata(_) => DeleteErases(db, rev.id);
    case PruneDue(_) => DueStepsStay(db, rev, 0);
    case SelectDue(_, now) => DueStepsStay(db, rev, now);
    case _ =>
  }

  // ---- what each step leaves in the tables ----

  lemma PutCommitStores(c: Config, world: World, w: nat, now: int, eligibleAt: int)
    requires PutCommitStep(c, world, w, now, eligibleAt).Some?
    ensures var PutWriting(rev, written) := world.workers[w];
            var world' := PutCommitStep(c, world, w, now, eligibleAt).value;
            && |written| >= c.quorum && rev in world.data && rev in world'.committed
            && Committed(world.db, world'.db, rev, HotActive, VersionRow(|world.data[rev]|, Hot, 0, 0, now), written,
                         eligibleAt)
  {
    var PutWriting(rev, written) := world.workers[w];
    CommitStores(world.db, rev, written, |world.data[rev]|, now, eligibleAt);
  }

  /** Late replicas and HOT repair enter the nodes they wrote, replica GC drops the nodes it emptied. */
  lemma ReplicaStepsStore(world: World, w: nat)
    ensures LateUpsertStep(world, w).Some? ==>
              var rev := world.workers[w].rev;
              Upserted(ReplicasOf(world.db, rev), ReplicasOf(LateUpsertStep(world, w).value.db, rev),
                       world.workers[w].written)
    ensures HotRepairUpsertStep(world, w).Some? ==>
              var rev := world.workers[w].rev;
              Upserted(ReplicasOf(world.db, rev), ReplicasOf(HotRepairUpsertStep(world, w).value.db, rev),
                       world.workers[w].written)
    ensures GcMarkStep(world, w).Some? ==>
              var rev := world.workers[w].rev;
              Dropped(ReplicasOf(world.db, rev), ReplicasOf(GcMarkStep(world, w).value.db, rev), world.workers[w].done)
  {
    if w in world.workers {
      var worker := world.workers[w];
      if worker.LateChecked? || worker.HotRepairWriting? {
        UpsertStores(ReplicasOf(world.db, worker.rev), worker.written);
      }
    }
  }

  /** Migration and EC repair promote the version with the shards that were reported to them, or
      nothing changes because it is no longer current. */
  lemma PromoteStepsStore(c: Config, world: World, w: nat, now: int)
    ensures MigratePromoteStep(c, world, w, now).Some? ==>
              var MigrateWriting(rev, locations) := world.workers[w];
              var db := MigratePromoteStep(c, world, w, now).value.db;
              && |locations| >= c.k
              && (db == world.db || Promoted(world.db, db, rev, c.k, c.m, locations, now))
              && (|locations| > 0 && IsCurrent(world.db, rev) && rev in world.db.versions ==>
                    Promoted(world.db, db, rev, c.k, c.m, locations, now))
    ensures EcRepairPromoteStep(world, w, now).Some? ==>
              var EcRepairWriting(rev, k, m, missing, locations) := world.workers[w];
              var db := EcRepairPromoteStep(world, w, now).value.db;
              && (forall i :: i in missing ==> HasIndex(locations, i))
              && (db == world.db || Promoted(world.db, db, rev, k, m, locations, now))
              && (|locations| > 0 && IsCurrent(world.db, rev) && rev in world.db.versions ==>
                    Promoted(world.db, db, rev, k, m, locations, now))
  {
    if w in world.workers {
      var worker := world.workers[w];
      if worker.MigrateWriting? { PromoteStores(world.db, worker.rev, c.k, c.m, worker.locations, now); }
      if worker.EcRepairWriting? { PromoteStores(world.db, worker.rev, worker.k, worker.m, worker.locations, now); }
    }
  }

  /** Old-version GC erases its version unless it is current, a DELETE request its object, and the
      candidate scan the due entry. */
  lemma RemoveStepsStore(world: World, w: nat, rev: Rev, now: int)
    ensures OldGcPurgeStep(world, w).Some? ==>
              var gone, db := world.workers[w].rev, OldGcPurgeStep(world, w).value.db;
              if gone.id in world.db.objects && !IsCurrent(world.db, gone) then VersionErased(world.db, db, gone)
              else db == world.db
    ensures DeleteMetadataStep(world, w).Some? ==>
              ObjectErased(world.db, DeleteMetadataStep(world, w).value.db, world.workers[w].rev.id)
    ensures PruneDueStep(world, rev).Some? ==> Undue(world.db, PruneDueStep(world, rev).value.db, rev)
    ensures SelectDueStep(world, rev, now).Some? ==>
              var world' := SelectDueStep(world, rev, now).value;
              && Undue(world.db, world'.db, rev) && rev in world'.taskRows
              && rev.id in world'.db.objects && world'.db.objects[rev.id].state == MigrationPending
  {
    if w in world.workers {
      PurgeErases(world.db, world.workers[w].rev);
      DeleteErases(world.db, world.workers[w].rev.id);
    }
    DueApart(world.db, world.db, rev, 0);
    SelectStores(world.db, rev, now);
  }

  // ---- by which steps rows leave ----

  /** The step is the metadata step of a DELETE request for the object. */
  predicate Deletes(world: World, a: Action, id: ObjectId) {
    a.DeleteMetadata? && a.w in world.workers && world.workers[a.w].rev.id == id
  }

  /** The step is the purge of the version by old-version GC. */
  predicate Purges(world: World, a: Action, rev: Rev) {
    a.OldGcPurge? && a.w in world.workers && world.workers[a.w].rev == rev
  }

  lemma StepLeaves(c: Config, world: World, a: Action, rev: Rev)
    requires Step(c, world, a).Some?
    ensures rev.id in world.db.objects && rev.id !in Step(c, world, a).value.db.objects ==> Deletes(world, a, rev.id)
    ensures rev in world.db.versions && rev !in Step(c, world, a).value.db.versions ==>
              Deletes(world, a, rev.id) || Purges(world, a, rev)
  {
    StepStays(c, world, a);
    var target, after := TargetOf(world, a), Step(c, world, a).value.db;
    if target.Some? {
      assert rev.id != target.value.id ==> SameAt(world.db.objects, after.objects, rev.id);
      assert rev != target.value && !a.DeleteMetadata? ==> SameVersion(world.db, after, rev);
      assert rev.id != target.value.id ==> SameVersion(world.db, after, rev);
    }
  }

  /** The i-th action of the run, if any, deletes the object. */
  ghost predicate DeletesAt(c: Config, actions: seq<Action>, i: nat, id: ObjectId) {
    i < |actions| && Run(c, actions[..i]).Some? && Deletes(Run(c, actions[..i]).value, actions[i], id)
  }

  ghost predicate PurgesAt(c: Config, actions: seq<Action>, i: nat, rev: Rev) {
    i < |actions| && Run(c, actions[..i]).Some? && Purges(Run(c, actions[..i]).value, actions[i], rev)
  }

  /** Over any continuation of a run, an object's head is lost only to a DELETE request for that
      object, and a version row only to that or to old-version GC of that version. */
  lemma {:induction false} RowsLeaveBy(c: Config, before: seq<Action>, after: seq<Action>, rev: Rev)
    requires Run(c, before + after).Some?
    ensures Run(c, before).Some?
    ensures var db, db' := Run(c, before).value.db, Run(c, before + after).value.db;
            && (rev.id in db.objects && rev.id !in db'.objects ==>
                  exists i :: |before| <= i && DeletesAt(c, before + after, i, rev.id))
            && (rev in db.versions && rev !in db'.versions ==>
                  exists i :: |before| <= i &&
                    (DeletesAt(c, before + after, i, rev.id) || PurgesAt(c, before + after, i, rev)))
  {
    if |after| == 0 {
      assert before + after == before;
    } else {
      var all, init := before + after, after[..|after| - 1];
      var n := |all| - 1;
      assert all[..n] == before + init;
      RowsLeaveBy(c, before, init, rev);
      forall i: nat | i < n
        ensures DeletesAt(c, before + init, i, rev.id) ==> DeletesAt(c, all, i, rev.id)
        ensures PurgesAt(c, before + init, i, rev) ==> PurgesAt(c, all, i, rev)
      {
        assert (before + init)[..i] == all[..i];
      }
      StepLeaves(c, Run(c, before + init).value, all[n], rev);
      assert Deletes(Run(c, before + init).value, all[n], rev.id) ==> DeletesAt(c, all, n, rev.id);
      assert Purges(Run(c, before + init).value, all[n], rev) ==> PurgesAt(c, all, n, rev);
    }
  }

  // ---- blobs ----

  ghost predicate SameBlob(world: World, world': World, p: Place) { SameAt(world.blobs, world'.blobs, p) }

  /** The step stores a HOT copy of the version on the node, whole or torn. */
  predicate StoresHot(world: World, a: Action, rev: Rev, node: NodeId) {
    || (a.StoreHot? && a.node == node && WorkerRev(world, a.w) == Some(rev))
    || (a.TearHot? && a.node == node && a.rev == rev)
  }

  /** The step removes a HOT copy of the version: replica GC, old-version GC or a DELETE request. */
  predicate DropsHot(world: World, a: Action, rev: Rev, node: NodeId) {
    (a.GcDeleteBlob? || a.DeleteBlob?) && a.node == node && WorkerRev(world, a.w) == Some(rev)
  }

  predicate TouchesBlobs(a: Action) {
    a.StoreHot? || a.TearHot? || a.StoreChunk? || a.GcDeleteBlob? || a.DeleteBlob?
  }

  lemma BlobsKept(c: Config, world: World, a: Action)
    requires Step(c, world, a).Some? && !TouchesBlobs(a)
    ensures Step(c, world, a).value.blobs == world.blobs
  {
  }

  /** A HOT copy changes only by a store or a removal for that very version and node. */
  lemma HotBlobsChangeBy(c: Config, world: World, a: Action, rev: Rev, node: NodeId)
    requires Step(c, world, a).Some?
    ensures !StoresHot(world, a, rev, node) && !DropsHot(world, a, rev, node) ==>
              SameBlob(world, Step(c, world, a).value, Place(node, HotPath(rev)))
    ensures DropsHot(world, a, rev, node) && (a.GcDeleteBlob? || world.workers[a.w].tier == Hot) ==>
              Place(node, HotPath(rev)) !in Step(c, world, a).value.blobs
  {
    if !TouchesBlobs(a) { BlobsKept(c, world, a); }
  }

  /** A chunk changes only by a worker or a removal for that very object and index. */
  lemma ChunksChangeBy(c: Config, world: World, a: Action, id: ObjectId, index: nat, node: NodeId)
    requires Step(c, world, a).Some?
    ensures || SameBlob(world, Step(c, world, a).value, Place(node, ChunkPath(id, index)))
            || ((a.StoreChunk? || a.DeleteBlob?) && a.node == node && a.index == index &&
                WorkerRev(world, a.w).Some? && WorkerRev(world, a.w).value.id == id)
    ensures a.DeleteBlob? && a.node == node && a.index == index && world.workers[a.w].rev.id == id &&
              world.workers[a.w].tier == Ec ==>
              Place(node, ChunkPath(id, index)) !in Step(c, world, a).value.blobs
  {
    if !TouchesBlobs(a) { BlobsKept(c, world, a); }
  }

  // ---- where shard rows come from ----

  /** The step tells a worker of the version that a node has stored the shard. */
  predicate Reports(world: World, a: Action, rev: Rev, l: ShardLocation) {
    && a.StoreChunk? && a.reported && a.w in world.workers && world.workers[a.w].rev == rev
    && a.index == l.index && a.node == l.node
  }

  function LocationsOf(worker: Worker): seq<ShardLocation> {
    match worker
    case MigrateWriting(_, locations) => locations
    case EcRepairWriting(_, _, _, _, locations) => locations
    case _ => []
  }

  type Source = (Rev, ShardLocation) -> bool

  ghost predicate WorkerSourced(worker: Worker, from: Source) {
    forall l :: l in LocationsOf(worker) ==> from(worker.rev, l)
  }

  ghost predicate RowsSourced(db: Db, rev: Rev, from: Source) {
    forall i :: i in ShardsOf(db, rev) ==> from(rev, ShardLocation(i, ShardsOf(db, rev)[i].node))
  }

  /** Every location a worker holds and every shard row has its source. */
  ghost predicate Sourced(world: World, from: Source) {
    && (forall w :: w in world.workers ==> WorkerSourced(world.workers[w], from))
    && (forall rev :: RowsSourced(world.db, rev, from))
  }

  lemma {:induction false} ShardFrom(rows: ShardRows, locations: seq<ShardLocation>, i: nat)
    requires i in WithShards(rows, locations)
    ensures || (i in rows && WithShards(rows, locations)[i] == rows[i])
            || ShardLocation(i, WithShards(rows, locations)[i].node) in locations
  {
    if |locations| > 0 {
      var n := |locations| - 1;
      if i != locations[n].index { ShardFrom(rows, locations[..n], i); }
    }
  }

  lemma PromoteSourced(db: Db, rev: Rev, k: nat, m: nat, locations: seq<ShardLocation>, now: int, from: Source)
    requires RowsSourced(db, rev, from) && forall l :: l in locations ==> from(rev, l)
    ensures Promote(db, rev, k, m, locations, now).Some? ==>
              RowsSourced(Promote(db, rev, k, m, locations, now).value, rev, from)
  {
    var rows := WithShards(ShardsOf(db, rev), locations);
    forall i | i in rows ensures from(rev, ShardLocation(i, rows[i].node)) {
      ShardFrom(ShardsOf(db, rev), locations, i);
    }
  }

  /** A step that is no promotion leaves the shard rows of its version as they are, or removes them. */
  lemma NoNewShards(c: Config, world: World, a: Action, rev: Rev)
    requires Step(c, world, a).Some? && TargetOf(world, a) == Some(rev) && !a.MigratePromote? && !a.EcRepairPromote?
    ensures var db := Step(c, world, a).value.db;
            ShardsOf(db, rev) == ShardsOf(world.db, rev) || ShardsOf(db, rev) == map[]
  {
  }

  lemma TargetSourced(c: Config, world: World, a: Action, rev: Rev, from: Source)
    requires Step(c, world, a).Some? && TargetOf(world, a) == Some(rev)
    requires RowsSourced(world.db, rev, from)
    requires a.MigratePromote? || a.EcRepairPromote? ==> WorkerSourced(world.workers[a.w], from)
    ensures RowsSourced(Step(c, world, a).value.db, rev, from)
  {
    if a.MigratePromote? {
      PromoteSourced(world.db, rev, c.k, c.m, world.workers[a.w].locations, a.now, from);
    } else if a.EcRepairPromote? {
      var worker := world.workers[a.w];
      PromoteSourced(world.db, rev, worker.k, worker.m, worker.locations, a.now, from);
    } else {
      NoNewShards(c, world, a, rev);
    }
  }

  lemma RowsStaySourced(c: Config, world: World, a: Action, rev: Rev, from: Source)
    requires Step(c, world, a).Some? && Sourced(world, from)
    ensures RowsSourced(Step(c, world, a).value.db, rev, from)
  {
    var target, after := TargetOf(world, a), Step(c, world, a).value.db;
    assert RowsSourced(world.db, rev, from);
    StepStays(c, world, a);
    if target.Some? {
      if rev == target.value {
        TargetSourced(c, world, a, rev, from);
      } else if a.DeleteMetadata? && rev.id == target.value.id {
        assert ShardsOf(after, rev) == map[];
      } else {
        assert SameVersion(world.db, after, rev);
        assert ShardsOf(after, rev) == ShardsOf(world.db, rev);
      }
    }
  }

  /** A worker that a step changes, other than by storing a chunk, holds no locations afterwards. */
  lemma NoNewLocations(c: Config, world: World, a: Action, w: nat)
    requires Step(c, world, a).Some? && !a.StoreChunk? && w in Step(c, world, a).value.workers
    ensures || (w in world.workers && Step(c, world, a).value.workers[w] == world.workers[w])
            || LocationsOf(Step(c, world, a).value.workers[w]) == []
  {
  }

  lemma ChunkLocations(c: Config, world: World, a: Action, w: nat)
    requires Step(c, world, a).Some? && a.StoreChunk? && w in Step(c, world, a).value.workers
    ensures w in world.workers && Step(c, world, a).value.workers[w].rev == world.workers[w].rev
    ensures LocationsOf(Step(c, world, a).value.workers[w]) ==
              LocationsOf(world.workers[w]) + if w == a.w && a.reported then [ShardLocation(a.index, a.node)] else []
  {
  }

  lemma WorkersStaySourced(c: Config, world: World, a: Action, w: nat, from: Source)
    requires Step(c, world, a).Some? && Sourced(world, from) && w in Step(c, world, a).value.workers
    requires forall rev, l :: Reports(world, a, rev, l) ==> from(rev, l)
    ensures WorkerSourced(Step(c, world, a).value.workers[w], from)
  {
    assert w in world.workers ==> WorkerSourced(world.workers[w], from);
    if a.StoreChunk? {
      ChunkLocations(c, world, a, w);
      assert w == a.w && a.reported ==> Reports(world, a, world.workers[w].rev, ShardLocation(a.index, a.node));
    } else {
      NoNewLocations(c, world, a, w);
    }
  }

  ghost predicate ReportsAt(c: Config, actions: seq<Action>, i: nat, rev: Rev, l: ShardLocation) {
    i < |actions| && Run(c, actions[..i]).Some? && Reports(Run(c, actions[..i]).value, actions[i], rev, l)
  }

  lemma {:induction false} RunSourced(c: Config, actions: seq<Action>, from: Source)
    requires Run(c, actions).Some?
    requires forall i, rev, l :: ReportsAt(c, actions, i, rev, l) ==> from(rev, l)
    ensures Sourced(Run(c, actions).value, from)
  {
    if |actions| > 0 {
      var n := |actions| - 1;
      var before, a := actions[..n], actions[n];
      var world := Run(c, before).value;
      forall i: nat, rev, l | ReportsAt(c, before, i, rev, l) ensures from(rev, l) {
        assert before[..i] == actions[..i];
        assert ReportsAt(c, actions, i, rev, l);
      }
      RunSourced(c, before, from);
      forall rev, l | Reports(world, a, rev, l) ensures from(rev, l) { assert ReportsAt(c, actions, n, rev, l); }
      StepSourced(c, world, a, from);
    }
  }

  lemma StepSourced(c: Config, world: World, a: Action, from: Source)
    requires Step(c, world, a).Some? && Sourced(world, from)
    requires forall rev, l :: Reports(world, a, rev, l) ==> from(rev, l)
    ensures Sourced(Step(c, world, a).value, from)
  {
    var after := Step(c, world, a).value;
    forall w | w in after.workers ensures WorkerSourced(after.workers[w], from) {
      WorkersStaySourced(c, world, a, w, from);
    }
    forall rev ensures RowsSourced(after.db, rev, from) { RowsStaySourced(c, world, a, rev, from); }
  }

  ghost predicate Reported(c: Config, actions: seq<Action>, rev: Rev, l: ShardLocation) {
    exists i :: ReportsAt(c, actions, i, rev, l)
  }

  /** In every reachable state each shard row names a node from which a worker of that very version
      had the report that it stored the shard of that index. */
  lemma ShardRowsWereReported(c: Config, actions: seq<Action>, rev: Rev, i: nat)
    requires Run(c, actions).Some? && i in ShardsOf(Run(c, actions).value.db, rev)
    ensures Reported(c, actions, rev, ShardLocation(i, ShardsOf(Run(c, actions).value.db, rev)[i].node))
  {
    var from: Source := (r, l) => Reported(c, actions, r, l);
    RunSourced(c, actions, from);
    assert RowsSourced(Run(c, actions).value.db, rev, from);
  }
}
