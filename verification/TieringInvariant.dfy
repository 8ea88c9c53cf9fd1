/** The invariant of the tiering protocol, and the steps that leave the tables alone. */
module TieringInvariant {
  import opened MetaTypes
  import opened MetaStore
  import opened TieringProtocol
  import opened Counting

  // ---- the properties ----

  /** The current version is readable from metadata: a write quorum of ACTIVE replicas, or K
      ACTIVE shards of distinct index; and EC_ACTIVE is exactly tier EC. */
  ghost predicate Readable(c: Config, world: World, id: ObjectId)
    requires id in world.db.objects
  {
    var rev := Rev(id, world.db.objects[id].current);
    && rev in world.db.versions
    && (world.db.objects[id].state == EcActive <==> world.db.versions[rev].tier == Ec)
    && (world.db.versions[rev].tier == Hot ==> |ActiveNodes(ReplicasOf(world.db, rev))| >= c.quorum)
    && (world.db.versions[rev].tier == Ec ==> |ActiveShards(ShardsOf(world.db, rev))| >= c.k)
  }

  /** Every node an ACTIVE replica row of the current HOT version names holds the PUT's bytes,
      unless a DELETE has read the version. */
  ghost predicate CopiesComplete(world: World, id: ObjectId)
    requires id in world.db.objects
  {
    var rev := Rev(id, world.db.objects[id].current);
    rev in world.db.versions && world.db.versions[rev].tier == Hot && rev !in world.doomed ==>
      forall n :: n in ActiveNodes(ReplicasOf(world.db, rev)) ==> Complete(world, n, rev)
  }

  /** So it is for every current version that no unsafe torn store has hit. */
  ghost predicate Physical(world: World, id: ObjectId)
    requires id in world.db.objects
  {
    Rev(id, world.db.objects[id].current) !in world.torn ==> CopiesComplete(world, id)
  }

  /** Due keys and references are in bijection. */
  ghost predicate DuePaired(db: Db) {
    db.dueKeys == set rev | rev in db.dueRefs :: (db.dueRefs[rev], rev)
  }

  lemma RemoveDuePaired(db: Db, rev: Rev)
    requires DuePaired(db)
    ensures DuePaired(RemoveDue(db, rev))
  {
    var db' := RemoveDue(db, rev);
    forall p | p in db'.dueKeys ensures p.1 in db'.dueRefs && db'.dueRefs[p.1] == p.0 {
      assert p in db.dueKeys;
    }
    forall r | r in db'.dueRefs ensures (db'.dueRefs[r], r) in db'.dueKeys {
      assert (db.dueRefs[r], r) in db.dueKeys;
    }
  }

  // ---- the inductive invariant ----

  ghost predicate RowInv(c: Config, world: World) {
    && world.db.versions.Keys <= world.committed
    && world.db.replicas.Keys <= world.committed
    && world.db.shards.Keys <= world.committed
    && world.committed <= world.data.Keys
    && (forall id :: id in world.db.objects ==> Readable(c, world, id))
    && (forall rev :: rev in world.db.versions && world.db.versions[rev].tier == Ec ==>
          world.db.versions[rev].k == c.k && |ActiveShards(ShardsOf(world.db, rev))| >= c.k)
  }

  ghost predicate BlobInv(world: World) {
    && (forall id :: id in world.db.objects ==> Physical(world, id))
    && (forall p :: p in world.blobs ==> !p.path.PlainPath?)
  }

  ghost predicate QueueInv(world: World) {
    && DuePaired(world.db)
    && world.db.dueRefs.Keys <= world.committed
    && world.queued <= world.committed
    && (forall id :: id in world.db.objects ==> HeadQueueOk(world, id))
  }

  ghost predicate HeadQueueOk(world: World, id: ObjectId)
    requires id in world.db.objects
  {
    var rev := Rev(id, world.db.objects[id].current);
    && (world.db.objects[id].state == HotActive <==> rev in world.db.dueRefs)
    && (rev in world.queued ==> world.db.objects[id].state != HotActive)
  }

  ghost predicate RetentionInv(c: Config, world: World) {
    forall rev :: rev in world.condemned ==>
      Gone(world, rev) && (rev in world.db.versions ==> |Newer(world.db, rev)| >= c.keep)
  }

  ghost predicate DistinctIndexes(locations: seq<ShardLocation>) {
    forall i, j :: 0 <= i < j < |locations| ==> locations[i].index != locations[j].index
  }

  /** A node the worker believes to hold the version does, unless that no longer matters. */
  ghost predicate Holds(world: World, rev: Rev, n: NodeId) {
    Complete(world, n, rev) || Retired(world, rev)
  }

  ghost predicate WorkerOk(c: Config, world: World, worker: Worker) {
    match worker
    case PutWriting(rev, written) =>
      rev in world.data && rev !in world.committed && Distinct(written) && "" !in written &&
      forall n :: n in written ==> Holds(world, rev, n)
    case LateWatching(rev, written) =>
      rev in world.committed && rev in world.data && forall n :: n in written ==> Holds(world, rev, n)
    case LateChecked(rev, written) => rev in world.committed && forall n :: n in written ==> Holds(world, rev, n)
    case MigrateChecked(rev) => rev in world.queued
    case MigrateWriting(rev, locations) => rev in world.queued && DistinctIndexes(locations)
    case GcChecked(rev) => Cold(world, rev)
    case GcDeleting(rev, _, _) => Cold(world, rev)
    case HotRepairChecked(rev) => rev in world.committed
    case HotRepairListed(rev, sources) => rev in world.committed && forall n :: n in sources ==> Holds(world, rev, n)
    case HotRepairWriting(rev, payload, written) =>
      rev in world.committed && rev in world.data && (payload == world.data[rev] || Retired(world, rev)) &&
      forall n :: n in written ==> Holds(world, rev, n)
    case EcRepairChecked(rev) => Cold(world, rev)
    case EcRepairWriting(rev, k, _, _, _) => Cold(world, rev) && k == c.k
    case OldGcDeleting(rev, _) => rev in world.condemned
    case DeleteDeleting(rev, _) => rev in world.doomed && rev in world.committed
  }

  ghost predicate WorkersInv(c: Config, world: World) {
    && (forall w :: w in world.workers ==> WorkerOk(c, world, world.workers[w]))
    && (forall w, w' :: w in world.workers && w' in world.workers && w != w' &&
                        world.workers[w].PutWriting? && world.workers[w'].PutWriting? ==>
          world.workers[w].rev != world.workers[w'].rev)
  }

  ghost predicate Inv(c: Config, world: World) {
    RowInv(c, world) && BlobInv(world) && QueueInv(world) && RetentionInv(c, world) && WorkersInv(c, world)
  }

  // ---- stability ----

  /** What every step respects: history grows, retired stays retired, and a complete copy
      disappears only from a retired version. */
  ghost predicate Evolves(world: World, world': World) {
    && world.committed <= world'.committed
    && world.doomed <= world'.doomed
    && world.torn <= world'.torn
    && world.queued <= world'.queued
    && world.condemned <= world'.condemned
    && (forall rev :: rev in world.data ==> rev in world'.data && world'.data[rev] == world.data[rev])
    && (forall rev :: Gone(world, rev) ==> Gone(world', rev))
    && (forall rev :: Cold(world, rev) ==> Cold(world', rev))
    && (forall n, rev :: Complete(world, n, rev) ==> Complete(world', n, rev) || Retired(world', rev))
  }

  lemma WorkerStable(c: Config, world: World, world': World, worker: Worker)
    requires WorkerOk(c, world, worker) && Evolves(world, world')
    requires worker.PutWriting? ==> worker.rev !in world'.committed
    ensures WorkerOk(c, world', worker)
  {
    if Retired(world, worker.rev) {
      assert Retired(world', worker.rev);
    }
    forall n | Holds(world, worker.rev, n) ensures Holds(world', worker.rev, n) {
      if Complete(world, n, worker.rev) {
        assert Complete(world', n, worker.rev) || Retired(world', worker.rev);
      }
    }
  }

  /** Workers other than the acting one keep their knowledge; the acting one is checked separately. */
  lemma WorkersStable(c: Config, world: World, world': World, w: nat)
    requires WorkersInv(c, world) && Evolves(world, world')
    requires world'.workers - {w} == world.workers - {w}
    requires forall rev :: rev in world'.committed && rev !in world.committed ==>
               w in world.workers && world.workers[w].PutWriting? && world.workers[w].rev == rev
    requires w in world'.workers ==> WorkerOk(c, world', world'.workers[w])
    requires w in world'.workers && world'.workers[w].PutWriting? ==>
               (w in world.workers && world.workers[w].PutWriting? && world.workers[w].rev == world'.workers[w].rev)
               || world'.workers[w].rev !in world.data
    ensures WorkersInv(c, world')
  {
    forall v | v in world'.workers ensures WorkerOk(c, world', world'.workers[v]) {
      if v != w {
        assert v in world'.workers - {w};
        assert world'.workers[v] == (world'.workers - {w})[v] == (world.workers - {w})[v] == world.workers[v];
        WorkerStable(c, world, world', world.workers[v]);
      }
    }
    forall v, v' | v in world'.workers && v' in world'.workers && v != v' &&
                   world'.workers[v].PutWriting? && world'.workers[v'].PutWriting?
      ensures world'.workers[v].rev != world'.workers[v'].rev
    {
      if v != w {
        assert v in world'.workers - {w};
        assert world'.workers[v] == (world.workers - {w})[v] == world.workers[v] &&
               WorkerOk(c, world, world.workers[v]);
      }
      if v' != w {
        assert v' in world'.workers - {w};
        assert world'.workers[v'] == (world.workers - {w})[v'] == world.workers[v'] &&
               WorkerOk(c, world, world.workers[v']);
      }
    }
  }

  // ---- steps that leave the tables alone ----

  /** With the tables unchanged, the invariant needs only that copies evolve and the acting worker is right. */
  lemma TablesUnchanged(c: Config, world: World, world': World, w: nat)
    requires Inv(c, world)
    requires world'.db == world.db && world'.committed == world.committed
    requires world'.queued == world.queued && world'.condemned == world.condemned
    requires world.doomed <= world'.doomed && world.torn <= world'.torn
    requires forall rev :: rev in world.data ==> rev in world'.data && world'.data[rev] == world.data[rev]
    requires forall n, rev :: Complete(world, n, rev) ==> Complete(world', n, rev) || Retired(world', rev)
    requires forall p :: p in world'.blobs ==> !p.path.PlainPath?
    requires world'.workers - {w} == world.workers - {w}
    requires w in world'.workers ==> WorkerOk(c, world', world'.workers[w])
    requires w in world'.workers && world'.workers[w].PutWriting? ==>
               (w in world.workers && world.workers[w].PutWriting? && world.workers[w].rev == world'.workers[w].rev)
               || world'.workers[w].rev !in world.data
    ensures Inv(c, world')
  {
    assert forall rev :: Gone(world, rev) == Gone(world', rev) && Cold(world, rev) == Cold(world', rev);
    assert Evolves(world, world');
    WorkersStable(c, world, world', w);
    forall id | id in world'.db.objects ensures Readable(c, world', id) && Physical(world', id) {
      assert Readable(c, world, id) && Physical(world, id);
      var rev := Rev(id, world.db.objects[id].current);
      if world.db.versions[rev].tier == Hot && rev !in world'.doomed && rev !in world'.torn {
        forall n | n in ActiveNodes(ReplicasOf(world'.db, rev)) ensures Complete(world', n, rev) {
          assert Complete(world, n, rev);
        }
      }
    }
    assert RowInv(c, world') && QueueInv(world');
  }

  lemma StoreHotKeeps(c: Config, world: World, w: nat, node: NodeId, reported: bool)
    requires Inv(c, world) && StoreHotStep(world, w, node, reported).Some?
    ensures Inv(c, StoreHotStep(world, w, node, reported).value)
  {
    var world' := StoreHotStep(world, w, node, reported).value;
    var worker := world.workers[w];
    var rev := worker.rev;
    assert WorkerOk(c, world, worker);
    assert forall r :: Retired(world, r) == Retired(world', r);
    assert Holds(world', rev, node);
    forall n, r | Complete(world, n, r) ensures Complete(world', n, r) || Retired(world', r) {
      if n == node && r == rev {
        assert worker.HotRepairWriting? ==> worker.payload == world.data[rev] || Retired(world', rev);
      }
    }
    if reported {
      forall n | n in worker.written + [node]
        ensures Holds(world', rev, n)
      {
        if n != node {
          assert n in worker.written && Holds(world, rev, n);
          assert Complete(world, n, rev) || Retired(world, rev);
        }
      }
    } else {
      WorkerStable(c, world, world', worker) by { assert Evolves(world, world'); }
    }
    TablesUnchanged(c, world, world', w);
  }

  /** The world after other bytes have landed at the version's path on the node. */
  ghost function Overwritten(world: World, rev: Rev, node: NodeId, junk: Payload): World {
    world.(blobs := world.blobs[Place(node, HotPath(rev)) := junk])
  }

  lemma OverwrittenFacts(world: World, rev: Rev, node: NodeId, junk: Payload)
    requires rev in world.data
    ensures var world' := Overwritten(world, rev, node, junk);
            && (forall r :: Retired(world, r) == Retired(world', r))
            && (forall n, r :: Complete(world, n, r) && !(n == node && r == rev) ==> Complete(world', n, r))
            && (Complete(world', node, rev) <==> junk == world.data[rev])
  {
  }

  lemma SafeWorker(c: Config, world: World, rev: Rev, node: NodeId, junk: Payload, worker: Worker)
    requires rev in world.data && WorkerOk(c, world, worker)
    requires Relies(worker, rev, node) ==> junk == world.data[rev] || Retired(world, rev)
    ensures WorkerOk(c, Overwritten(world, rev, node, junk), worker)
  {
    var world' := Overwritten(world, rev, node, junk);
    OverwrittenFacts(world, rev, node, junk);
    assert forall r :: Gone(world, r) == Gone(world', r) && Cold(world, r) == Cold(world', r);
    forall n | Holds(world, worker.rev, n) && Relies(worker, worker.rev, n) ensures Holds(world', worker.rev, n) {
    }
  }

  /** A torn store that is not unsafe keeps the whole invariant. */
  lemma SafeTearKeeps(c: Config, world: World, rev: Rev, node: NodeId, junk: Payload)
    requires Inv(c, world) && rev in world.data && !UnsafeTear(world, rev, node, junk)
    ensures Inv(c, Overwritten(world, rev, node, junk))
  {
    var world' := Overwritten(world, rev, node, junk);
    OverwrittenFacts(world, rev, node, junk);
    forall w | w in world'.workers ensures WorkerOk(c, world', world'.workers[w]) {
      SafeWorker(c, world, rev, node, junk, world.workers[w]);
    }
    forall id | id in world'.db.objects
      ensures Readable(c, world', id) && Physical(world', id) && HeadQueueOk(world', id)
    {
      assert Readable(c, world, id) && Physical(world, id) && HeadQueueOk(world, id);
    }
    assert forall r :: Gone(world, r) == Gone(world', r);
  }

  lemma UnsafeTearKeeps(c: Config, world: World, rev: Rev, node: NodeId, junk: Payload)
    requires Inv(c, world) && UnsafeTear(world, rev, node, junk)
    ensures Inv(c, TearHotStep(world, rev, node, junk).value)
  {
    var world' := TearHotStep(world, rev, node, junk).value;
    assert forall r :: Gone(world, r) == Gone(world', r) && Cold(world, r) == Cold(world', r);
    forall n, r | Complete(world, n, r) ensures Complete(world', n, r) || Retired(world', r) {
    }
    if 0 in world.workers {
      WorkerStable(c, world, world', world.workers[0]) by { assert Evolves(world, world'); }
    }
    TablesUnchanged(c, world, world', 0);
  }

  lemma TearHotKeeps(c: Config, world: World, rev: Rev, node: NodeId, junk: Payload)
    requires Inv(c, world) && TearHotStep(world, rev, node, junk).Some?
    ensures Inv(c, TearHotStep(world, rev, node, junk).value)
  {
    if UnsafeTear(world, rev, node, junk) {
      UnsafeTearKeeps(c, world, rev, node, junk);
    } else {
      SafeTearKeeps(c, world, rev, node, junk);
    }
  }

  /** Taken as harmless, a torn store keeps the invariant exactly when it is not unsafe. */
  lemma TearKeepsExactly(c: Config, world: World, rev: Rev, node: NodeId, junk: Payload)
    requires Inv(c, world) && rev in world.data
    ensures Inv(c, Overwritten(world, rev, node, junk)) <==> !UnsafeTear(world, rev, node, junk)
  {
    if UnsafeTear(world, rev, node, junk) {
      var world' := Overwritten(world, rev, node, junk);
      OverwrittenFacts(world, rev, node, junk);
      assert !Holds(world', rev, node);
      if node in ActiveNodes(ReplicasOf(world.db, rev)) {
        assert rev in world.committed;
        assert !Physical(world', rev.id);
      } else {
        var w :| w in world.workers && Relies(world.workers[w], rev, node);
        assert !WorkerOk(c, world', world'.workers[w]);
      }
    } else {
      SafeTearKeeps(c, world, rev, node, junk);
    }
  }

  lemma PutStartKeeps(c: Config, world: World, w: nat, rev: Rev, bytes: Payload)
    requires Inv(c, world) && w !in world.workers && rev !in world.data
    ensures Inv(c, Become(world, w, PutWriting(rev, [])).(data := world.data[rev := bytes]))
  {
    var world' := Become(world, w, PutWriting(rev, [])).(data := world.data[rev := bytes]);
    assert world'.workers - {w} == world.workers - {w};
    TablesUnchanged(c, world, world', w);
  }

  /** Only the acting worker changed. */
  lemma BecomeKeeps(c: Config, world: World, w: nat, worker: Worker)
    requires Inv(c, world) && WorkerOk(c, world, worker) && !worker.PutWriting?
    ensures Inv(c, Become(world, w, worker))
  {
    var world' := Become(world, w, worker);
    assert world'.workers - {w} == world.workers - {w};
    assert forall r :: Gone(world, r) == Gone(world', r) && Cold(world, r) == Cold(world', r);
    WorkerStable(c, world, world', worker) by { assert Evolves(world, world'); }
    TablesUnchanged(c, world, world', w);
  }

  lemma FinishKeeps(c: Config, world: World, w: nat)
    requires Inv(c, world)
    ensures Inv(c, Finish(world, w))
  {
    assert Finish(world, w).workers - {w} == world.workers - {w};
    TablesUnchanged(c, world, Finish(world, w), w);
  }

  lemma StoreChunkKeeps(c: Config, world: World, w: nat, node: NodeId, index: nat, bytes: Payload, reported: bool)
    requires Inv(c, world) && StoreChunkStep(c, world, w, node, index, bytes, reported).Some?
    ensures Inv(c, StoreChunkStep(c, world, w, node, index, bytes, reported).value)
  {
    var world' := StoreChunkStep(c, world, w, node, index, bytes, reported).value;
    var worker := world.workers[w];
    assert WorkerOk(c, world, worker);
    assert forall n, r :: Complete(world, n, r) ==> Complete(world', n, r);
    assert forall r :: Gone(world, r) == Gone(world', r) && Cold(world, r) == Cold(world', r);
    if reported && worker.MigrateWriting? {
      forall i | 0 <= i < |worker.locations| ensures worker.locations[i].index != index {
        assert worker.locations[i] in worker.locations;
      }
    }
    WorkerStable(c, world, world', worker) by { assert Evolves(world, world'); }
    TablesUnchanged(c, world, world', w);
  }

  lemma GcDeleteBlobKeeps(c: Config, world: World, w: nat, node: NodeId)
    requires Inv(c, world) && GcDeleteBlobStep(world, w, node).Some?
    ensures Inv(c, GcDeleteBlobStep(world, w, node).value)
  {
    var world' := GcDeleteBlobStep(world, w, node).value;
    assert WorkerOk(c, world, world.workers[w]);
    assert forall r :: Gone(world, r) == Gone(world', r) && Cold(world, r) == Cold(world', r);
    TablesUnchanged(c, world, world', w);
  }

  lemma DeleteBlobKeeps(c: Config, world: World, w: nat, node: NodeId, index: nat)
    requires Inv(c, world) && DeleteBlobStep(world, w, node, index).Some?
    ensures Inv(c, DeleteBlobStep(world, w, node, index).value)
  {
    var world' := DeleteBlobStep(world, w, node, index).value;
    assert WorkerOk(c, world, world.workers[w]);
    assert forall r :: Gone(world, r) == Gone(world', r) && Cold(world, r) == Cold(world', r);
    assert Retired(world', world.workers[w].rev);
    forall n, r | Complete(world, n, r) ensures Complete(world', n, r) || Retired(world', r) {
    }
    WorkerStable(c, world, world', world.workers[w]) by { assert Evolves(world, world'); }
    TablesUnchanged(c, world, world', w);
  }

  lemma DeleteStartKeeps(c: Config, world: World, w: nat, id: ObjectId)
    requires Inv(c, world) && DeleteStartStep(world, w, id).Some?
    ensures Inv(c, DeleteStartStep(world, w, id).value)
  {
    var world' := DeleteStartStep(world, w, id).value;
    assert forall r :: Gone(world, r) == Gone(world', r) && Cold(world, r) == Cold(world', r);
    assert world'.workers - {w} == world.workers - {w};
    TablesUnchanged(c, world, world', w);
  }

  lemma CondemnKeeps(c: Config, world: World, rev: Rev, minAge: int, now: int)
    requires Inv(c, world) && CondemnStep(c, world, rev, minAge, now).Some?
    ensures Inv(c, CondemnStep(c, world, rev, minAge, now).value)
  {
    var world' := CondemnStep(c, world, rev, minAge, now).value;
    assert forall r :: Gone(world, r) == Gone(world', r) && Cold(world, r) == Cold(world', r);
    assert forall n, r :: Complete(world, n, r) == Complete(world', n, r);
    forall w | w in world'.workers ensures WorkerOk(c, world', world'.workers[w]) {
      WorkerStable(c, world, world', world.workers[w]) by { assert Evolves(world, world'); }
    }
    forall id | id in world'.db.objects ensures Readable(c, world', id) && Physical(world', id) {
      assert Readable(c, world, id) && Physical(world, id);
    }
    assert BlobInv(world') && RowInv(c, world') && QueueInv(world');
  }
}
