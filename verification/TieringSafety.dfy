/** Safety of the tiering protocol over every run: the steps that change the tables, and the
    theorems that follow from the invariant. */
module TieringSafety {
  import opened MetaTypes
  import opened MetaStore
  import opened TieringProtocol
  import opened TieringInvariant
  import opened Counting

  // ---- cardinalities ----

  lemma {:induction false} DistinctCount(nodes: seq<NodeId>)
    requires Distinct(nodes)
    ensures |set n | n in nodes| == |nodes|
  {
    if |nodes| > 0 {
      var init, last := nodes[..|nodes| - 1], nodes[|nodes| - 1];
      DistinctCount(init);
      assert (set n | n in nodes) == (set n | n in init) + {last};
    }
  }

  lemma {:induction false} IndexCount(locations: seq<ShardLocation>)
    requires DistinctIndexes(locations)
    ensures |set l | l in locations :: l.index| == |locations|
  {
    if |locations| > 0 {
      var init, last := locations[..|locations| - 1], locations[|locations| - 1];
      IndexCount(init);
      assert (set l | l in locations :: l.index) == (set l | l in init :: l.index) + {last.index};
    }
  }

  // ---- steps that change the rows of one version ----

  /** Only the head of rev's object and the rows of rev differ; everything else is as it was. */
  ghost predicate Touches(world: World, world': World, rev: Rev) {
    && world'.db.objects - {rev.id} == world.db.objects - {rev.id}
    && world'.db.versions - {rev} == world.db.versions - {rev}
    && world'.db.replicas - {rev} == world.db.replicas - {rev}
    && world'.db.shards - {rev} == world.db.shards - {rev}
    && world'.db.dueRefs - {rev} == world.db.dueRefs - {rev}
    && world'.blobs == world.blobs && world'.data == world.data
    && world'.doomed == world.doomed && world'.torn == world.torn
    && world'.condemned == world.condemned
    && world.queued <= world'.queued <= world.queued + {rev}
    && world.committed <= world'.committed <= world.committed + {rev}
    && rev in world'.committed && rev in world'.data
  }

  lemma Off<K, V>(m: map<K, V>, m': map<K, V>, k: K, x: K)
    requires m - {k} == m' - {k} && x != k
    ensures x in m <==> x in m'
    ensures x in m ==> m[x] == m'[x]
  {
    assert x in m <==> x in m - {k};
    assert x in m' <==> x in m' - {k};
    if x in m { assert (m - {k})[x] == (m' - {k})[x]; }
  }

  lemma TouchRows(c: Config, world: World, world': World, rev: Rev)
    requires RowInv(c, world) && Touches(world, world', rev)
    requires rev.id in world'.db.objects ==> Readable(c, world', rev.id)
    requires rev in world'.db.versions && world'.db.versions[rev].tier == Ec ==>
               world'.db.versions[rev].k == c.k && |ActiveShards(ShardsOf(world'.db, rev))| >= c.k
    ensures RowInv(c, world')
  {
    var db, db' := world.db, world'.db;
    forall id | id in db'.objects ensures Readable(c, world', id) {
      if id != rev.id {
        Off(db.objects, db'.objects, rev.id, id);
        assert Readable(c, world, id);
        var r := Rev(id, db.objects[id].current);
        Off(db.versions, db'.versions, rev, r);
        Off(db.replicas, db'.replicas, rev, r);
        Off(db.shards, db'.shards, rev, r);
      }
    }
    forall r | r in db'.versions
      ensures r in world'.committed
      ensures db'.versions[r].tier == Ec ==> db'.versions[r].k == c.k && |ActiveShards(ShardsOf(db', r))| >= c.k
    {
      if r != rev {
        Off(db.versions, db'.versions, rev, r);
        Off(db.shards, db'.shards, rev, r);
      }
    }
    forall r | r in db'.replicas ensures r in world'.committed {
      if r != rev { Off(db.replicas, db'.replicas, rev, r); }
    }
    forall r | r in db'.shards ensures r in world'.committed { if r != rev { Off(db.shards, db'.shards, rev, r); } }
  }

  lemma TouchBlobs(world: World, world': World, rev: Rev)
    requires BlobInv(world) && Touches(world, world', rev)
    requires rev.id in world'.db.objects ==> Physical(world', rev.id)
    ensures BlobInv(world')
  {
    forall id | id in world'.db.objects ensures Physical(world', id) {
      if id != rev.id {
        Off(world.db.objects, world'.db.objects, rev.id, id);
        assert Physical(world, id);
        var r := Rev(id, world.db.objects[id].current);
        Off(world.db.versions, world'.db.versions, rev, r);
        Off(world.db.replicas, world'.db.replicas, rev, r);
        assert forall n :: Complete(world, n, r) == Complete(world', n, r);
      }
    }
  }

  lemma TouchQueue(world: World, world': World, rev: Rev)
    requires QueueInv(world) && Touches(world, world', rev) && DuePaired(world'.db)
    requires rev.id in world'.db.objects ==> HeadQueueOk(world', rev.id)
    ensures QueueInv(world')
  {
    forall id | id in world'.db.objects ensures HeadQueueOk(world', id) {
      if id != rev.id {
        Off(world.db.objects, world'.db.objects, rev.id, id);
        assert HeadQueueOk(world, id);
        Off(world.db.dueRefs, world'.db.dueRefs, rev, Rev(id, world.db.objects[id].current));
      }
    }
    forall r | r in world'.db.dueRefs ensures r in world'.committed {
      if r != rev { Off(world.db.dueRefs, world'.db.dueRefs, rev, r); }
    }
    assert QueueInv(world') by { assert forall id :: id in world'.db.objects ==> HeadQueueOk(world', id); }
  }

  /** The object keeps its head version, or the newly committed rev takes over. */
  ghost predicate HeadMoves(world: World, world': World, rev: Rev) {
    && (rev.id in world'.db.objects ==>
          || (world'.db.objects[rev.id].current == rev.version && rev !in world.committed)
          || (rev.id in world.db.objects && world'.db.objects[rev.id].current == world.db.objects[rev.id].current))
    && (Cold(world, rev) ==> Cold(world', rev))
  }

  lemma TouchEvolves(world: World, world': World, rev: Rev)
    requires Touches(world, world', rev) && HeadMoves(world, world', rev)
    ensures Evolves(world, world')
  {
    forall r | Gone(world, r) ensures Gone(world', r) {
      if r.id != rev.id { Off(world.db.objects, world'.db.objects, rev.id, r.id); }
    }
    forall r | Cold(world, r) ensures Cold(world', r) {
      if r != rev { Off(world.db.versions, world'.db.versions, rev, r); }
    }
    assert forall n, r :: Complete(world, n, r) == Complete(world', n, r);
  }

  lemma TouchRetention(c: Config, world: World, world': World, rev: Rev)
    requires RetentionInv(c, world) && Touches(world, world', rev) && Evolves(world, world')
    requires rev in world.db.versions ==> rev in world'.db.versions
    requires rev in world'.db.versions && rev !in world.db.versions ==> rev !in world.condemned
    ensures RetentionInv(c, world')
  {
    forall r | r in world'.condemned
      ensures Gone(world', r) && (r in world'.db.versions ==> |Newer(world'.db, r)| >= c.keep)
    {
      assert Gone(world, r);
      if r != rev { Off(world.db.versions, world'.db.versions, rev, r); }
      forall x | x in Newer(world.db, r) ensures x in Newer(world'.db, r) {
        if x != rev { Off(world.db.versions, world'.db.versions, rev, x); }
      }
      SubsetCount(Newer(world.db, r), Newer(world'.db, r));
    }
  }

  /** All parts at once, for steps that add or change rows of one version. */
  lemma TouchKeeps(c: Config, world: World, world': World, rev: Rev)
    requires Inv(c, world) && Touches(world, world', rev) && HeadMoves(world, world', rev)
    requires rev.id in world'.db.objects ==>
               Readable(c, world', rev.id) && Physical(world', rev.id) && HeadQueueOk(world', rev.id)
    requires rev in world'.db.versions && world'.db.versions[rev].tier == Ec ==>
               world'.db.versions[rev].k == c.k && |ActiveShards(ShardsOf(world'.db, rev))| >= c.k
    requires DuePaired(world'.db)
    requires rev in world.db.versions ==> rev in world'.db.versions
    requires rev in world'.db.versions && rev !in world.db.versions ==> rev !in world.condemned
    requires (world'.workers == world.workers && world'.committed == world.committed) || WorkersInv(c, world')
    ensures Inv(c, world')
  {
    TouchEvolves(world, world', rev);
    TouchRows(c, world, world', rev);
    TouchBlobs(world, world', rev);
    TouchQueue(world, world', rev);
    TouchRetention(c, world, world', rev);
    if world'.workers == world.workers && world'.committed == world.committed {
      SameWorkers(c, world, world');
    }
  }

  /** Row changes that keep the stable facts keep every worker's knowledge. */
  lemma SameWorkers(c: Config, world: World, world': World)
    requires WorkersInv(c, world) && world'.workers == world.workers
    requires world'.committed == world.committed && Evolves(world, world')
    ensures WorkersInv(c, world')
  {
    forall w | w in world'.workers ensures WorkerOk(c, world', world'.workers[w]) {
      WorkerStable(c, world, world', world.workers[w]);
    }
  }

  lemma PutCommitTouches(c: Config, world: World, w: nat, now: int, eligibleAt: int)
    requires Inv(c, world) && PutCommitStep(c, world, w, now, eligibleAt).Some?
    ensures var world' := PutCommitStep(c, world, w, now, eligibleAt).value;
            var rev := world.workers[w].rev;
            && Touches(world, world', rev) && HeadMoves(world, world', rev)
            && DuePaired(world'.db) && rev !in world.condemned
  {
    var world' := PutCommitStep(c, world, w, now, eligibleAt).value;
    var PutWriting(rev, written) := world.workers[w];
    assert WorkerOk(c, world, world.workers[w]);
    assert rev !in world.db.dueRefs;
    assert rev in world.condemned ==> Gone(world, rev);
    forall p | p in world'.db.dueKeys ensures p.1 in world'.db.dueRefs && world'.db.dueRefs[p.1] == p.0 {
    }
  }

  /** The committed version starts with a write quorum of complete replicas. */
  lemma PutCommitHead(c: Config, world: World, w: nat, now: int, eligibleAt: int)
    requires Inv(c, world) && PutCommitStep(c, world, w, now, eligibleAt).Some?
    ensures var world' := PutCommitStep(c, world, w, now, eligibleAt).value;
            var id := world.workers[w].rev.id;
            Readable(c, world', id) && Physical(world', id) && HeadQueueOk(world', id)
  {
    var world' := PutCommitStep(c, world, w, now, eligibleAt).value;
    var PutWriting(rev, written) := world.workers[w];
    assert WorkerOk(c, world, world.workers[w]);
    assert rev !in world.db.replicas && rev !in world.queued;
    assert ActiveNodes(ReplicasOf(world'.db, rev)) == set n | n in written;
    DistinctCount(written);
    forall n | n in written && rev !in world.torn ensures Complete(world', n, rev) { assert Holds(world, rev, n); }
  }

  lemma PutCommitKeeps(c: Config, world: World, w: nat, now: int, eligibleAt: int)
    requires Inv(c, world) && PutCommitStep(c, world, w, now, eligibleAt).Some?
    ensures Inv(c, PutCommitStep(c, world, w, now, eligibleAt).value)
  {
    var world' := PutCommitStep(c, world, w, now, eligibleAt).value;
    var rev := world.workers[w].rev;
    PutCommitTouches(c, world, w, now, eligibleAt);
    PutCommitHead(c, world, w, now, eligibleAt);
    assert WorkersInv(c, world') by {
      TouchEvolves(world, world', rev);
      assert world'.workers - {w} == world.workers - {w};
      WorkersStable(c, world, world', w);
    }
    TouchKeeps(c, world, world', rev);
  }

  /** Replacing the replica rows of one version. */
  lemma ReplicaRowsKeep(c: Config, world: World, rev: Rev, rows: ReplicaRows)
    requires Inv(c, world) && rev in world.committed
    requires !Gone(world, rev) && !Cold(world, rev) ==> |ActiveNodes(rows)| >= c.quorum
    requires !Retired(world, rev) ==> forall n :: n in ActiveNodes(rows) ==> Complete(world, n, rev)
    ensures Inv(c, world.(db := world.db.(replicas := world.db.replicas[rev := rows])))
  {
    var world' := world.(db := world.db.(replicas := world.db.replicas[rev := rows]));
    assert Touches(world, world', rev) && ReplicasOf(world'.db, rev) == rows;
    if rev.id in world.db.objects {
      assert Readable(c, world, rev.id) && HeadQueueOk(world, rev.id);
      assert Physical(world', rev.id) by {
        assert Physical(world, rev.id);
        if IsCurrent(world.db, rev) {
          assert forall n :: Complete(world, n, rev) == Complete(world', n, rev);
        } else {
          HeadPhysicalFrame(world, world', rev);
        }
      }
    }
    TouchKeeps(c, world, world', rev);
  }

  /** New ACTIVE rows for nodes that hold the version, or for a version that is retired. */
  lemma UpsertKeeps(c: Config, world: World, rev: Rev, nodes: seq<NodeId>)
    requires Inv(c, world) && rev in world.committed
    requires forall n :: n in nodes ==> Holds(world, rev, n)
    ensures Inv(c, world.(db := UpsertReplicas(world.db, rev, nodes)))
  {
    var rows := WithReplicas(ReplicasOf(world.db, rev), nodes);
    SubsetCount(ActiveNodes(ReplicasOf(world.db, rev)), ActiveNodes(rows));
    if rev.id in world.db.objects {
      assert Readable(c, world, rev.id) && Physical(world, rev.id);
    }
    forall n | !Retired(world, rev) && n in ActiveNodes(rows) ensures Complete(world, n, rev) {
      assert n in nodes || n in ActiveNodes(ReplicasOf(world.db, rev));
      assert n in nodes ==> Holds(world, rev, n);
    }
    ReplicaRowsKeep(c, world, rev, rows);
  }

  lemma MarkDeletedKeeps(c: Config, world: World, rev: Rev, nodes: seq<NodeId>)
    requires Inv(c, world) && Cold(world, rev)
    ensures Inv(c, world.(db := MarkReplicasDeleted(world.db, rev, nodes)))
  {
    ReplicaRowsKeep(c, world, rev, WithoutReplicas(ReplicasOf(world.db, rev), nodes));
  }

  /** A head whose current version's rows are untouched stays physically sound. */
  lemma HeadPhysicalFrame(world: World, world': World, rev: Rev)
    requires Touches(world, world', rev) && rev.id in world.db.objects && rev.id in world'.db.objects
    requires world.db.objects[rev.id].current == world'.db.objects[rev.id].current
    requires Physical(world, rev.id) && !IsCurrent(world.db, rev)
    ensures Physical(world', rev.id)
  {
    var r := Rev(rev.id, world.db.objects[rev.id].current);
    Off(world.db.versions, world'.db.versions, rev, r);
    Off(world.db.replicas, world'.db.replicas, rev, r);
    assert forall n :: Complete(world, n, r) == Complete(world', n, r);
  }

  lemma MarkMigratingKeeps(c: Config, world: World, rev: Rev, now: int)
    requires Inv(c, world) && rev in world.queued && MarkMigrating(world.db, rev, now).Some?
    ensures Inv(c, world.(db := MarkMigrating(world.db, rev, now).value))
  {
    var world' := world.(db := MarkMigrating(world.db, rev, now).value);
    assert Readable(c, world, rev.id) && Physical(world, rev.id) && HeadQueueOk(world, rev.id);
    assert forall n :: Complete(world, n, rev) == Complete(world', n, rev);
    TouchKeeps(c, world, world', rev);
  }

  /** After promotion K shards are ACTIVE: those it brings itself, or those an EC version had. */
  lemma PromotedShards(rows: ShardRows, locations: seq<ShardLocation>, k: nat)
    requires (DistinctIndexes(locations) && |locations| >= k) || |ActiveShards(rows)| >= k
    ensures |ActiveShards(WithShards(rows, locations))| >= k
  {
    var after := WithShards(rows, locations);
    ShardKeys(rows, locations);
    if |ActiveShards(rows)| >= k {
      forall i | i in ActiveShards(rows) ensures i in ActiveShards(after) {
        if !Names(locations, i) { assert SameAt(rows, after, i); }
      }
      SubsetCount(ActiveShards(rows), ActiveShards(after));
    } else {
      forall l | l in locations ensures l.index in ActiveShards(after) { assert Names(locations, l.index); }
      IndexCount(locations);
      SubsetCount(set l | l in locations :: l.index, ActiveShards(after));
    }
  }

  lemma PromoteHead(c: Config, world: World, world': World, rev: Rev, m: nat, locations: seq<ShardLocation>, now: int)
    requires Inv(c, world) && Promote(world.db, rev, c.k, m, locations, now) == Some(world'.db)
    requires world' == world.(db := world'.db)
    requires (rev in world.queued && DistinctIndexes(locations) && |locations| >= c.k) || Cold(world, rev)
    ensures Readable(c, world', rev.id) && Physical(world', rev.id) && HeadQueueOk(world', rev.id)
    ensures |ActiveShards(ShardsOf(world'.db, rev))| >= c.k
  {
    assert Readable(c, world, rev.id) && HeadQueueOk(world, rev.id);
    PromotedShards(ShardsOf(world.db, rev), locations, c.k);
  }

  /** Promotion keeps the invariant when it brings K shards itself, or the version is EC already. */
  lemma PromoteKeeps(c: Config, world: World, rev: Rev, m: nat, locations: seq<ShardLocation>, now: int)
    requires Inv(c, world) && Promote(world.db, rev, c.k, m, locations, now).Some?
    requires (rev in world.queued && DistinctIndexes(locations) && |locations| >= c.k) || Cold(world, rev)
    ensures Inv(c, world.(db := Promote(world.db, rev, c.k, m, locations, now).value))
  {
    var world' := world.(db := Promote(world.db, rev, c.k, m, locations, now).value);
    PromoteHead(c, world, world', rev, m, locations, now);
    TouchKeeps(c, world, world', rev);
  }

  lemma PruneDueKeeps(c: Config, world: World, rev: Rev)
    requires Inv(c, world) && rev in world.db.dueRefs && StaleDue(world.db, rev)
    ensures Inv(c, world.(db := RemoveDue(world.db, rev)))
  {
    var world' := world.(db := RemoveDue(world.db, rev));
    RemoveDuePaired(world.db, rev);
    if rev.id in world.db.objects {
      assert Readable(c, world, rev.id) && Physical(world, rev.id) && HeadQueueOk(world, rev.id);
      HeadPhysicalFrame(world, world', rev);
    }
    TouchKeeps(c, world, world', rev);
  }

  lemma SelectDueKeeps(c: Config, world: World, rev: Rev, now: int)
    requires Inv(c, world) && rev in world.db.dueRefs && !StaleDue(world.db, rev)
    ensures Inv(c, SelectDueStep(world, rev, now).value)
  {
    var world' := SelectDueStep(world, rev, now).value;
    RemoveDuePaired(world.db, rev);
    SelectHead(c, world, rev, now);
    TouchKeeps(c, world, world', rev);
  }

  lemma SelectHead(c: Config, world: World, rev: Rev, now: int)
    requires Inv(c, world) && rev in world.db.dueRefs && !StaleDue(world.db, rev)
    ensures var world' := SelectDueStep(world, rev, now).value;
            && rev.id in world'.db.objects && Readable(c, world', rev.id)
            && Physical(world', rev.id) && HeadQueueOk(world', rev.id)
  {
    var world' := SelectDueStep(world, rev, now).value;
    assert Readable(c, world, rev.id) && Physical(world, rev.id) && HeadQueueOk(world, rev.id);
    assert forall n :: Complete(world, n, rev) == Complete(world', n, rev);
  }

  // ---- steps that remove rows ----

  /** Purging a condemned version: at least `keep` newer versions are there, before and after. */
  lemma PurgeRetains(c: Config, world: World, rev: Rev)
    requires Inv(c, world) && rev in world.condemned && rev.id in world.db.objects
    ensures PurgeVersion(world.db, rev).Some?
    ensures RetentionInv(c, world.(db := PurgeVersion(world.db, rev).value))
    ensures rev in world.db.versions ==> |Newer(PurgeVersion(world.db, rev).value, rev)| >= c.keep
  {
    assert Gone(world, rev);
    var world' := world.(db := PurgeVersion(world.db, rev).value);
    assert world'.db.objects == world.db.objects && world'.db.versions == world.db.versions - {rev};
    assert Newer(world'.db, rev) == Newer(world.db, rev);
    forall r | r in world'.condemned
      ensures Gone(world', r) && (r in world'.db.versions ==> |Newer(world'.db, r)| >= c.keep)
    {
      assert Gone(world, r);
      if rev in Newer(world.db, r) {
        // The purged version was itself outlived by enough newer ones, and those are newer than r too.
        SubsetCount(Newer(world.db, rev), Newer(world'.db, r));
      } else {
        assert Newer(world'.db, r) == Newer(world.db, r);
      }
    }
  }

  lemma PurgeHead(c: Config, world: World, world': World, rev: Rev)
    requires Touches(world, world', rev) && rev.id in world.db.objects && world'.db.objects == world.db.objects
    requires !IsCurrent(world.db, rev)
    requires world'.queued == world.queued && Readable(c, world, rev.id) && HeadQueueOk(world, rev.id)
    ensures Readable(c, world', rev.id) && HeadQueueOk(world', rev.id)
  {
    var r := Rev(rev.id, world.db.objects[rev.id].current);
    Off(world.db.versions, world'.db.versions, rev, r);
    Off(world.db.replicas, world'.db.replicas, rev, r);
    Off(world.db.shards, world'.db.shards, rev, r);
    Off(world.db.dueRefs, world'.db.dueRefs, rev, r);
  }

  lemma PurgeTouches(world: World, rev: Rev)
    requires Gone(world, rev) && rev in world.data && rev.id in world.db.objects && DuePaired(world.db)
    ensures var world' := world.(db := PurgeVersion(world.db, rev).value);
            Touches(world, world', rev) && HeadMoves(world, world', rev) && DuePaired(world'.db)
  {
    RemoveDuePaired(world.db, rev);
  }

  lemma PurgeKeeps(c: Config, world: World, rev: Rev)
    requires Inv(c, world) && rev in world.condemned && PurgeVersion(world.db, rev).Some?
    ensures Inv(c, world.(db := PurgeVersion(world.db, rev).value))
  {
    var world' := world.(db := PurgeVersion(world.db, rev).value);
    assert Gone(world, rev);
    if rev.id in world.db.objects {
      PurgeRetains(c, world, rev);
      PurgeTouches(world, rev);
      TouchEvolves(world, world', rev);
      SameWorkers(c, world, world');
      assert Readable(c, world, rev.id) && HeadQueueOk(world, rev.id) && Physical(world, rev.id);
      PurgeHead(c, world, world', rev);
      HeadPhysicalFrame(world, world', rev);
      TouchRows(c, world, world', rev);
      TouchBlobs(world, world', rev);
      TouchQueue(world, world', rev);
    }
  }

  lemma DeleteObjectRows(c: Config, world: World, o: ObjectId)
    requires RowInv(c, world) && BlobInv(world)
    ensures var world' := world.(db := DeleteObject(world.db, o));
            RowInv(c, world') && BlobInv(world')
  {
    var world' := world.(db := DeleteObject(world.db, o));
    forall id | id in world'.db.objects ensures Readable(c, world', id) && Physical(world', id) {
      assert Readable(c, world, id) && Physical(world, id);
      var r := Rev(id, world.db.objects[id].current);
      assert ReplicasOf(world'.db, r) == ReplicasOf(world.db, r) && ShardsOf(world'.db, r) == ShardsOf(world.db, r);
      assert forall n :: Complete(world, n, r) == Complete(world', n, r);
    }
    forall r | r in world'.db.versions && world'.db.versions[r].tier == Ec
      ensures world'.db.versions[r].k == c.k && |ActiveShards(ShardsOf(world'.db, r))| >= c.k
    {
      assert ShardsOf(world'.db, r) == ShardsOf(world.db, r);
    }
  }

  lemma DeleteObjectRetention(c: Config, world: World, o: ObjectId)
    requires RetentionInv(c, world)
    ensures RetentionInv(c, world.(db := DeleteObject(world.db, o)))
  {
    var world' := world.(db := DeleteObject(world.db, o));
    forall r | r in world'.condemned
      ensures Gone(world', r) && (r in world'.db.versions ==> |Newer(world'.db, r)| >= c.keep)
    {
      assert Gone(world, r);
      if r.id != o { assert Newer(world'.db, r) == Newer(world.db, r); }
    }
  }

  lemma DeleteObjectQueue(world: World, o: ObjectId)
    requires QueueInv(world)
    ensures QueueInv(world.(db := DeleteObject(world.db, o)))
  {
    var world' := world.(db := DeleteObject(world.db, o));
    forall p | p in world'.db.dueKeys ensures p.1 in world'.db.dueRefs && world'.db.dueRefs[p.1] == p.0 {
      assert p in world.db.dueKeys;
    }
    forall r | r in world'.db.dueRefs ensures (world'.db.dueRefs[r], r) in world'.db.dueKeys {
      assert (world.db.dueRefs[r], r) in world.db.dueKeys;
    }
    assert DuePaired(world'.db);
    forall id | id in world'.db.objects ensures HeadQueueOk(world', id) { assert HeadQueueOk(world, id); }
  }

  lemma DeleteObjectKeeps(c: Config, world: World, o: ObjectId)
    requires Inv(c, world)
    ensures Inv(c, world.(db := DeleteObject(world.db, o)))
  {
    var world' := world.(db := DeleteObject(world.db, o));
    DeleteObjectRows(c, world, o);
    DeleteObjectRetention(c, world, o);
    DeleteObjectQueue(world, o);
    assert Evolves(world, world') by {
      assert forall n, r :: Complete(world, n, r) == Complete(world', n, r);
    }
    SameWorkers(c, world, world');
  }

  // ---- every step ----

  // Steps by which a worker takes up a task or checks a snapshot: what it then knows is so.

  lemma LateCheckKeeps(c: Config, world: World, w: nat)
    requires Inv(c, world) && LateCheckStep(world, w).Some?
    ensures Inv(c, LateCheckStep(world, w).value)
  {
    FinishKeeps(c, world, w);
    var LateWatching(rev, written) := world.workers[w];
    assert WorkerOk(c, world, world.workers[w]);
    BecomeKeeps(c, world, w, LateChecked(rev, written));
  }

  lemma MigrateStartKeeps(c: Config, world: World, w: nat, rev: Rev)
    requires Inv(c, world) && MigrateStartStep(world, w, rev).Some?
    ensures Inv(c, MigrateStartStep(world, w, rev).value)
  {
    BecomeKeeps(c, world, w, MigrateChecked(rev));
  }

  lemma GcStartKeeps(c: Config, world: World, w: nat, rev: Rev)
    requires Inv(c, world) && GcStartStep(world, w, rev).Some?
    ensures Inv(c, GcStartStep(world, w, rev).value)
  {
    assert Cold(world, rev);
    BecomeKeeps(c, world, w, GcChecked(rev));
  }

  lemma GcListKeeps(c: Config, world: World, w: nat)
    requires Inv(c, world) && GcListStep(world, w).Some?
    ensures Inv(c, GcListStep(world, w).value)
  {
    assert WorkerOk(c, world, world.workers[w]);
    var rev := world.workers[w].rev;
    BecomeKeeps(c, world, w, GcDeleting(rev, ActiveNodes(ReplicasOf(world.db, rev)), []));
  }

  lemma RepairStartKeeps(c: Config, world: World, w: nat, rev: Rev)
    requires Inv(c, world) && RepairStartStep(world, w, rev).Some?
    ensures Inv(c, RepairStartStep(world, w, rev).value)
  {
    assert rev in world.committed;
    var next := if world.db.versions[rev].tier == Hot then HotRepairChecked(rev) else EcRepairChecked(rev);
    BecomeKeeps(c, world, w, next);
  }

  lemma OldGcStartKeeps(c: Config, world: World, w: nat, rev: Rev)
    requires Inv(c, world) && OldGcStartStep(world, w, rev).Some?
    ensures Inv(c, OldGcStartStep(world, w, rev).value)
  {
    BecomeKeeps(c, world, w, OldGcDeleting(rev, world.db.versions[rev].tier));
  }

  lemma HotRepairListKeeps(c: Config, world: World, w: nat)
    requires Inv(c, world) && HotRepairListStep(c, world, w).Some?
    ensures Inv(c, HotRepairListStep(c, world, w).value)
  {
    var rev := world.workers[w].rev;
    assert WorkerOk(c, world, world.workers[w]);
    var sources := ActiveNodes(ReplicasOf(world.db, rev));
    forall n | n in sources ensures Holds(world, rev, n) {
      if !Retired(world, rev) {
        assert Physical(world, rev.id);
      }
    }
    BecomeKeeps(c, world, w, HotRepairListed(rev, sources));
  }

  lemma HotRepairFetchKeeps(c: Config, world: World, w: nat, node: NodeId)
    requires Inv(c, world) && HotRepairFetchStep(world, w, node).Some?
    ensures Inv(c, HotRepairFetchStep(world, w, node).value)
  {
    var HotRepairListed(rev, sources) := world.workers[w];
    assert WorkerOk(c, world, world.workers[w]);
    assert Holds(world, rev, node);
    assert Place(node, PlainPath(rev.id)).path.PlainPath?;
    BecomeKeeps(c, world, w, HotRepairWriting(rev, world.blobs[Place(node, HotPath(rev))], []));
  }

  lemma EcRepairViewKeeps(c: Config, world: World, w: nat)
    requires Inv(c, world) && EcRepairViewStep(c, world, w).Some?
    ensures Inv(c, EcRepairViewStep(c, world, w).value)
  {
    assert WorkerOk(c, world, world.workers[w]);
    BecomeKeeps(c, world, w, EcRepairViewStep(c, world, w).value.workers[w]);
  }

  lemma MigrateMarkKeeps(c: Config, world: World, w: nat, now: int)
    requires Inv(c, world) && MigrateMarkStep(world, w, now).Some?
    ensures Inv(c, MigrateMarkStep(world, w, now).value)
  {
    var rev := world.workers[w].rev;
    assert WorkerOk(c, world, world.workers[w]);
    FinishKeeps(c, world, w);
    BecomeKeeps(c, world, w, MigrateWriting(rev, []));
    if MarkMigrating(world.db, rev, now).Some? {
      MarkMigratingKeeps(c, Become(world, w, MigrateWriting(rev, [])), rev, now);
    }
  }

  /** What the acting worker knows is still so once it has left. */
  lemma FinishedFacts(c: Config, world: World, w: nat)
    requires Inv(c, world) && w in world.workers
    ensures Inv(c, Finish(world, w)) && WorkerOk(c, Finish(world, w), world.workers[w])
  {
    var done := Finish(world, w);
    FinishKeeps(c, world, w);
    assert forall r :: Gone(world, r) == Gone(done, r) && Cold(world, r) == Cold(done, r);
    assert forall n, r :: Complete(world, n, r) == Complete(done, n, r);
    assert WorkerOk(c, world, world.workers[w]);
    assert Evolves(world, done);
    WorkerStable(c, world, done, world.workers[w]);
  }

  lemma ReplicaStepsKeep(c: Config, world: World, a: Action)
    requires Inv(c, world) && Step(c, world, a).Some?
    requires a.LateUpsert? || a.GcMark? || a.HotRepairUpsert?
    ensures Inv(c, Step(c, world, a).value)
  {
    FinishedFacts(c, world, a.w);
    var worker, done := world.workers[a.w], Finish(world, a.w);
    if worker.GcDeleting? {
      MarkDeletedKeeps(c, done, worker.rev, worker.done);
    } else {
      UpsertKeeps(c, done, worker.rev, worker.written);
    }
  }

  lemma PromoteStepsKeep(c: Config, world: World, a: Action)
    requires Inv(c, world) && Step(c, world, a).Some?
    requires a.MigratePromote? || a.EcRepairPromote?
    ensures Inv(c, Step(c, world, a).value)
  {
    FinishedFacts(c, world, a.w);
    var worker, done := world.workers[a.w], Finish(world, a.w);
    var m := if worker.MigrateWriting? then c.m else worker.m;
    if Promote(done.db, worker.rev, c.k, m, worker.locations, a.now).Some? {
      PromoteKeeps(c, done, worker.rev, m, worker.locations, a.now);
    }
  }

  lemma RemoveStepsKeep(c: Config, world: World, a: Action)
    requires Inv(c, world) && Step(c, world, a).Some?
    requires a.OldGcPurge? || a.DeleteMetadata?
    ensures Inv(c, Step(c, world, a).value)
  {
    FinishedFacts(c, world, a.w);
    var worker, done := world.workers[a.w], Finish(world, a.w);
    if worker.DeleteDeleting? {
      DeleteObjectKeeps(c, done, worker.rev.id);
    } else if PurgeVersion(done.db, worker.rev).Some? {
      PurgeKeeps(c, done, worker.rev);
    }
  }

  lemma PurgeTaskRowKeeps(c: Config, world: World, rev: Rev)
    requires Inv(c, world)
    ensures Inv(c, world.(taskRows := world.taskRows - {rev}))
  {
    var world' := world.(taskRows := world.taskRows - {rev});
    assert forall r :: Gone(world, r) == Gone(world', r) && Cold(world, r) == Cold(world', r);
    assert forall n, r :: Complete(world, n, r) == Complete(world', n, r);
    if 0 in world.workers { WorkerStable(c, world, world', world.workers[0]) by { assert Evolves(world, world'); } }
    TablesUnchanged(c, world, world', 0);
  }

  /** A step in which a worker only looks, and goes on with what it saw. */
  predicate OnlyLooks(a: Action) {
    || a.LateCheck? || a.MigrateStart? || a.GcStart? || a.GcList? || a.RepairStart?
    || a.HotRepairList? || a.HotRepairFetch? || a.EcRepairView? || a.OldGcStart?
  }

  lemma LooksOnly(c: Config, world: World, a: Action)
    requires OnlyLooks(a) && Step(c, world, a).Some?
    ensures Step(c, world, a).value == world.(workers := Step(c, world, a).value.workers)
  {
  }

  lemma LookStepsKeep(c: Config, world: World, a: Action)
    requires Inv(c, world) && OnlyLooks(a) && Step(c, world, a).Some?
    ensures Inv(c, Step(c, world, a).value)
  {
    match a
    case LateCheck(w) => LateCheckKeeps(c, world, w);
    case MigrateStart(w, rev) => MigrateStartKeeps(c, world, w, rev);
    case GcStart(w, rev) => GcStartKeeps(c, world, w, rev);
    case GcList(w) => GcListKeeps(c, world, w);
    case RepairStart(w, rev) => RepairStartKeeps(c, world, w, rev);
    case HotRepairList(w) => HotRepairListKeeps(c, world, w);
    case HotRepairFetch(w, node) => HotRepairFetchKeeps(c, world, w, node);
    case EcRepairView(w) => EcRepairViewKeeps(c, world, w);
    case OldGcStart(w, rev) => OldGcStartKeeps(c, world, w, rev);
  }

  lemma StepKeepsInv(c: Config, world: World, a: Action)
    requires Inv(c, world) && Step(c, world, a).Some?
    ensures Inv(c, Step(c, world, a).value)
  {
    if OnlyLooks(a) {
      LookStepsKeep(c, world, a);
    } else {
      match a
      case PutStart(w, rev, bytes) => PutStartKeeps(c, world, w, rev, bytes);
      case StoreHot(w, node, reported) => StoreHotKeeps(c, world, w, node, reported);
      case TearHot(rev, node, junk) => TearHotKeeps(c, world, rev, node, junk);
      case PutCommit(w, now, eligibleAt) => PutCommitKeeps(c, world, w, now, eligibleAt);
      case MigrateMark(w, now) => MigrateMarkKeeps(c, world, w, now);
      case StoreChunk(w, node, index, bytes, reported) => StoreChunkKeeps(c, world, w, node, index, bytes, reported);
      case GcDeleteBlob(w, node) => GcDeleteBlobKeeps(c, world, w, node);
      case Condemn(rev, minAge, now) => CondemnKeeps(c, world, rev, minAge, now);
      case DeleteStart(w, id) => DeleteStartKeeps(c, world, w, id);
      case DeleteBlob(w, node, index) => DeleteBlobKeeps(c, world, w, node, index);
      case PruneDue(rev) => PruneDueKeeps(c, world, rev);
      case SelectDue(rev, now) => SelectDueKeeps(c, world, rev, now);
      case PurgeTaskRow(rev) => PurgeTaskRowKeeps(c, world, rev);
      case Stop(w) => FinishKeeps(c, world, w);
      case LateUpsert(_) => ReplicaStepsKeep(c, world, a);
      case GcMark(_) => ReplicaStepsKeep(c, world, a);
      case HotRepairUpsert(_) => ReplicaStepsKeep(c, world, a);
      case MigratePromote(_, _) => PromoteStepsKeep(c, world, a);
      case EcRepairPromote(_, _) => PromoteStepsKeep(c, world, a);
      case OldGcPurge(_) => RemoveStepsKeep(c, world, a);
      case DeleteMetadata(_) => RemoveStepsKeep(c, world, a);
    }
  }

  // ---- the theorems ----

  lemma {:induction false} RunKeepsInv(c: Config, actions: seq<Action>)
    requires Run(c, actions).Some?
    ensures Inv(c, Run(c, actions).value)
  {
    if |actions| > 0 {
      RunKeepsInv(c, actions[..|actions| - 1]);
      StepKeepsInv(c, Run(c, actions[..|actions| - 1]).value, actions[|actions| - 1]);
    }
  }

  /** In every reachable state every object's current version is readable from metadata. */
  lemma CurrentVersionAlwaysReadable(c: Config, actions: seq<Action>, id: ObjectId)
    requires Run(c, actions).Some? && id in Run(c, actions).value.db.objects
    ensures Readable(c, Run(c, actions).value, id)
  {
    RunKeepsInv(c, actions);
  }

  /** Action i of the run is an unsafe torn store of the version. */
  ghost predicate UnsafeAt(c: Config, actions: seq<Action>, i: nat, rev: Rev) {
    && i < |actions| && actions[i].TearHot? && actions[i].rev == rev
    && Run(c, actions[..i]).Some? && UnsafeTear(Run(c, actions[..i]).value, rev, actions[i].node, actions[i].junk)
  }

  lemma TornStep(c: Config, world: World, a: Action)
    requires Step(c, world, a).Some? && !a.TearHot?
    ensures Step(c, world, a).value.torn == world.torn
  {
  }

  /** A version counts as torn exactly when some action of the run was an unsafe torn store of it. */
  lemma {:induction false} TornExactly(c: Config, actions: seq<Action>, rev: Rev)
    requires Run(c, actions).Some?
    ensures rev in Run(c, actions).value.torn <==> exists i :: UnsafeAt(c, actions, i, rev)
  {
    if |actions| > 0 {
      var before, n := actions[..|actions| - 1], |actions| - 1;
      var world, a := Run(c, before).value, actions[n];
      TornExactly(c, before, rev);
      forall i: nat | i < n ensures UnsafeAt(c, before, i, rev) <==> UnsafeAt(c, actions, i, rev) {
        assert before[..i] == actions[..i];
      }
      if rev in world.torn {
        var i :| UnsafeAt(c, before, i, rev);
        assert UnsafeAt(c, actions, i, rev);
      }
      if a.TearHot? {
        assert UnsafeAt(c, actions, n, rev) <==> a.rev == rev && UnsafeTear(world, rev, a.node, a.junk);
      } else {
        TornStep(c, world, a);
      }
    }
  }

  /** While the current version is HOT, no DELETE has read it and no unsafe torn store has hit it,
      at least a write quorum of nodes is named by its ACTIVE rows and each of them holds exactly
      the bytes of the PUT. */
  lemma HotCopiesIntact(c: Config, actions: seq<Action>, id: ObjectId)
    requires Run(c, actions).Some? && id in Run(c, actions).value.db.objects
    ensures var world := Run(c, actions).value;
            var rev := Rev(id, world.db.objects[id].current);
            && rev in world.db.versions && rev in world.data
            && (world.db.versions[rev].tier == Hot && rev !in world.doomed &&
                (forall i :: !UnsafeAt(c, actions, i, rev)) ==>
                  && |ActiveNodes(ReplicasOf(world.db, rev))| >= c.quorum
                  && forall n :: n in ActiveNodes(ReplicasOf(world.db, rev)) ==>
                       Place(n, HotPath(rev)) in world.blobs && world.blobs[Place(n, HotPath(rev))] == world.data[rev])
  {
    RunKeepsInv(c, actions);
    var world := Run(c, actions).value;
    var rev := Rev(id, world.db.objects[id].current);
    TornExactly(c, actions, rev);
    HeadIntact(c, world, id);
  }

  lemma HeadIntact(c: Config, world: World, id: ObjectId)
    requires Inv(c, world) && id in world.db.objects
    ensures var rev := Rev(id, world.db.objects[id].current);
            && rev in world.db.versions && rev in world.data
            && (world.db.versions[rev].tier == Hot && rev !in world.doomed && rev !in world.torn ==>
                  && |ActiveNodes(ReplicasOf(world.db, rev))| >= c.quorum
                  && forall n :: n in ActiveNodes(ReplicasOf(world.db, rev)) ==>
                       Place(n, HotPath(rev)) in world.blobs && world.blobs[Place(n, HotPath(rev))] == world.data[rev])
  {
    var rev := Rev(id, world.db.objects[id].current);
    assert Readable(c, world, id) && Physical(world, id);
    forall n | n in ActiveNodes(ReplicasOf(world.db, rev)) && CopiesComplete(world, id) &&
      world.db.versions[rev].tier == Hot && rev !in world.doomed
      ensures Place(n, HotPath(rev)) in world.blobs && world.blobs[Place(n, HotPath(rev))] == world.data[rev]
    {
      assert Complete(world, n, rev);
    }
  }

  /** However long ago the task was created, a purge that removes a version leaves at least
      `keep` newer versions of the object. */
  lemma PurgeLeavesNewerVersions(c: Config, actions: seq<Action>, w: nat)
    requires Run(c, actions + [OldGcPurge(w)]).Some?
    ensures var world := Run(c, actions).value;
            var world' := Run(c, actions + [OldGcPurge(w)]).value;
            var rev := world.workers[w].rev;
            rev in world.db.versions && rev !in world'.db.versions ==> |Newer(world'.db, rev)| >= c.keep
  {
    var all := actions + [OldGcPurge(w)];
    assert all[..|all| - 1] == actions;
    RunKeepsInv(c, actions);
    var world := Run(c, actions).value;
    var rev := world.workers[w].rev;
    assert WorkerOk(c, world, world.workers[w]);
    if rev.id in world.db.objects {
      PurgeRetains(c, world, rev);
    }
  }

  /** The steps that may take an entry out of the due index. */
  predicate MayUndue(a: Action) { a.PutCommit? || a.OldGcPurge? || a.DeleteMetadata? || a.PruneDue? || a.SelectDue? }

  lemma DueKept(c: Config, world: World, a: Action)
    requires Step(c, world, a).Some? && !MayUndue(a)
    ensures Step(c, world, a).value.db.dueRefs == world.db.dueRefs
  {
    if OnlyLooks(a) { LooksOnly(c, world, a); }
  }

  lemma DueLeavesBy(c: Config, world: World, a: Action, rev: Rev)
    requires Step(c, world, a).Some? && MayUndue(a) && IsCurrent(world.db, rev)
    requires rev in world.db.dueRefs && rev !in Step(c, world, a).value.db.dueRefs
    requires rev in world.db.versions && world.db.versions[rev].tier == Hot
    requires world.db.objects[rev.id].state == HotActive
    ensures var world' := Step(c, world, a).value;
            LeftFor(world', rev)
  {
  }

  lemma NotCurrentAgain(c: Config, world: World, a: Action, rev: Rev)
    requires Step(c, world, a).Some? && MayUndue(a) && !IsCurrent(world.db, rev) && rev in world.db.dueRefs
    requires rev !in Step(c, world, a).value.db.dueRefs
    ensures !IsCurrent(Step(c, world, a).value.db, rev)
  {
  }

  lemma CurrentDueIsHot(c: Config, world: World, rev: Rev)
    requires Inv(c, world) && rev in world.db.dueRefs && IsCurrent(world.db, rev)
    ensures rev in world.db.versions && world.db.versions[rev].tier == Hot
    ensures world.db.objects[rev.id].state == HotActive
  {
    assert Readable(c, world, rev.id) && HeadQueueOk(world, rev.id);
  }

  /** Where an entry that has left the due index has gone. */
  ghost predicate LeftFor(world': World, rev: Rev) {
    !IsCurrent(world'.db, rev) || (world'.db.objects[rev.id].state == MigrationPending && rev in world'.taskRows)
  }

  lemma LeavesFor(c: Config, world: World, a: Action, rev: Rev)
    requires Step(c, world, a).Some? && rev in world.db.dueRefs && rev !in Step(c, world, a).value.db.dueRefs
    requires IsCurrent(world.db, rev) ==>
               && rev in world.db.versions && world.db.versions[rev].tier == Hot
               && world.db.objects[rev.id].state == HotActive
    ensures LeftFor(Step(c, world, a).value, rev)
  {
    if !MayUndue(a) {
      DueKept(c, world, a);
    } else if IsCurrent(world.db, rev) {
      DueLeavesBy(c, world, a, rev);
    } else {
      NotCurrentAgain(c, world, a, rev);
    }
  }

  /** An entry leaves the due index only when its object is deleted, superseded, or becomes
      MIGRATION_PENDING with a REPL_TO_EC task row present. */
  lemma DueEntryLeaves(c: Config, actions: seq<Action>, a: Action, rev: Rev)
    requires Run(c, actions).Some? && Step(c, Run(c, actions).value, a).Some?
    requires rev in Run(c, actions).value.db.dueRefs && rev !in Step(c, Run(c, actions).value, a).value.db.dueRefs
    ensures LeftFor(Step(c, Run(c, actions).value, a).value, rev)
  {
    var world := Run(c, actions).value;
    RunKeepsInv(c, actions);
    if IsCurrent(world.db, rev) { CurrentDueIsHot(c, world, rev); }
    LeavesFor(c, world, a, rev);
  }

  /** Every HOT_ACTIVE object has its current version, and no other state has it, in the due
      index, whose keys and references stay in bijection. */
  lemma DueIndexComplete(c: Config, actions: seq<Action>)
    requires Run(c, actions).Some?
    ensures var world := Run(c, actions).value;
            && DuePaired(world.db)
            && forall id :: id in world.db.objects ==>
                 (world.db.objects[id].state == HotActive <==>
                    Rev(id, world.db.objects[id].current) in world.db.dueRefs)
  {
    RunKeepsInv(c, actions);
  }

  /** From db to db' the version did not become current, and did not become a HOT row. */
  ghost predicate StaysRetired(db: Db, db': Db, rev: Rev) {
    && (IsCurrent(db', rev) ==> IsCurrent(db, rev))
    && (rev in db'.versions ==> rev in db.versions && (db.versions[rev].tier == Ec ==> db'.versions[rev].tier == Ec))
  }

  /** The steps that change object or version rows. */
  predicate WritesRows(a: Action) {
    || a.PutCommit? || a.MigrateMark? || a.MigratePromote? || a.EcRepairPromote?
    || a.OldGcPurge? || a.DeleteMetadata? || a.SelectDue?
  }

  lemma RowsKept(c: Config, world: World, a: Action)
    requires Step(c, world, a).Some? && !WritesRows(a)
    ensures var world' := Step(c, world, a).value;
            && world'.db.objects == world.db.objects && world'.db.versions == world.db.versions
            && world'.committed == world.committed
  {
    if OnlyLooks(a) { LooksOnly(c, world, a); }
  }

  lemma RowStepStable(c: Config, world: World, a: Action, rev: Rev)
    requires Step(c, world, a).Some? && WritesRows(a)
    requires a.PutCommit? ==> world.workers[a.w].rev != rev
    ensures StaysRetired(world.db, Step(c, world, a).value.db, rev)
    ensures world.committed <= Step(c, world, a).value.committed
  {
  }

  lemma StepStable(c: Config, world: World, a: Action, rev: Rev)
    requires Inv(c, world) && Step(c, world, a).Some? && rev in world.committed
    ensures rev in Step(c, world, a).value.committed
    ensures StaysRetired(world.db, Step(c, world, a).value.db, rev)
  {
    if a.PutCommit? {
      assert WorkerOk(c, world, world.workers[a.w]);
    }
    if WritesRows(a) { RowStepStable(c, world, a, rev); } else { RowsKept(c, world, a); }
  }

  /** Over any continuation of a run: EC never reverts to HOT, and a superseded version never
      becomes current again. */
  lemma {:induction false} NeverReverts(c: Config, before: seq<Action>, after: seq<Action>, rev: Rev)
    requires Run(c, before + after).Some?
    ensures Run(c, before).Some?
    ensures Gone(Run(c, before).value, rev) ==> !IsCurrent(Run(c, before + after).value.db, rev)
    ensures Cold(Run(c, before).value, rev) ==> Cold(Run(c, before + after).value, rev)
    ensures Gone(Run(c, before).value, rev) ==> Gone(Run(c, before + after).value, rev)
  {
    if |after| == 0 {
      assert before + after == before;
    } else {
      var all, init := before + after, after[..|after| - 1];
      assert all[..|all| - 1] == before + init;
      NeverReverts(c, before, init, rev);
      RunKeepsInv(c, before + init);
      if rev in Run(c, before + init).value.committed {
        StepStable(c, Run(c, before + init).value, all[|all| - 1], rev);
      }
    }
  }
}
