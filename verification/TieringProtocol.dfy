/** The background tiering protocol as interleaved steps.

    Each Repository call and each blob request is one step.  Between two steps a worker
    holds only what it read earlier, which may be stale by the time it acts.  A run is any
    sequence of enabled steps of any number of workers; a worker may stop at any point. */
module TieringProtocol {
  import opened MetaTypes
  import opened MetaStore

  datatype Config = Config(quorum: nat, k: nat, m: nat, keep: nat, target: nat)

  /** Blob keys on a storage node: `hot/<id>/<version>`, the legacy unversioned key, and EC chunks. */
  datatype Path = HotPath(rev: Rev) | PlainPath(id: ObjectId) | ChunkPath(id: ObjectId, index: nat)
  datatype Place = Place(node: NodeId, path: Path)

  /** What one request or task execution knows between two of its steps. */
  datatype Worker =
    | PutWriting(rev: Rev, written: seq<NodeId>)
    | LateWatching(rev: Rev, written: seq<NodeId>)
    | LateChecked(rev: Rev, written: seq<NodeId>)
    | MigrateChecked(rev: Rev)
    | MigrateWriting(rev: Rev, locations: seq<ShardLocation>)
    | GcChecked(rev: Rev)
    | GcDeleting(rev: Rev, todo: set<NodeId>, done: seq<NodeId>)
    | HotRepairChecked(rev: Rev)
    | HotRepairListed(rev: Rev, sources: set<NodeId>)
    | HotRepairWriting(rev: Rev, payload: Payload, written: seq<NodeId>)
    | EcRepairChecked(rev: Rev)
    | EcRepairWriting(rev: Rev, k: nat, m: nat, missing: set<nat>, locations: seq<ShardLocation>)
    | OldGcDeleting(rev: Rev, tier: Tier)
    | DeleteDeleting(rev: Rev, tier: Tier)

  datatype World = World(
    db: Db,
    blobs: map<Place, Payload>,
    data: map<Rev, Payload>,      // the bytes each PUT was given
    committed: set<Rev>,          // versions whose PUT has committed
    queued: set<Rev>,             // versions a REPL_TO_EC task was ever created for
    taskRows: set<Rev>,           // versions whose REPL_TO_EC task row exists now
    condemned: set<Rev>,          // versions a GC_OLD_VERSION task was ever created for
    doomed: set<Rev>,             // versions a DELETE request has read
    torn: set<Rev>,               // versions an unsafe torn store has hit
    workers: map<nat, Worker>)

  datatype Action =
    | PutStart(w: nat, rev: Rev, bytes: Payload)
    | StoreHot(w: nat, node: NodeId, reported: bool)
    | TearHot(rev: Rev, node: NodeId, junk: Payload)
    | PutCommit(w: nat, now: int, eligibleAt: int)
    | LateCheck(w: nat)
    | LateUpsert(w: nat)
    | MigrateStart(w: nat, rev: Rev)
    | MigrateMark(w: nat, now: int)
    | StoreChunk(w: nat, node: NodeId, index: nat, bytes: Payload, reported: bool)
    | MigratePromote(w: nat, now: int)
    | GcStart(w: nat, rev: Rev)
    | GcList(w: nat)
    | GcDeleteBlob(w: nat, node: NodeId)
    | GcMark(w: nat)
    | RepairStart(w: nat, rev: Rev)
    | HotRepairList(w: nat)
    | HotRepairFetch(w: nat, node: NodeId)
    | HotRepairUpsert(w: nat)
    | EcRepairView(w: nat)
    | EcRepairPromote(w: nat, now: int)
    | Condemn(rev: Rev, minAge: int, now: int)
    | OldGcStart(w: nat, rev: Rev)
    | OldGcPurge(w: nat)
    | DeleteStart(w: nat, id: ObjectId)
    | DeleteMetadata(w: nat)
    | DeleteBlob(w: nat, node: NodeId, index: nat)
    | PruneDue(rev: Rev)
    | SelectDue(rev: Rev, now: int)
    | PurgeTaskRow(rev: Rev)
    | Stop(w: nat)

  // ---- step functions ----

  function Become(world: World, w: nat, worker: Worker): World {
    world.(workers := world.workers[w := worker])
  }

  function Finish(world: World, w: nat): World {
    world.(workers := world.workers - {w})
  }

  function Complete(world: World, node: NodeId, rev: Rev): bool {
    && rev in world.data
    && Place(node, HotPath(rev)) in world.blobs
    && world.blobs[Place(node, HotPath(rev))] == world.data[rev]
  }

  /** The bytes and target a worker is currently storing at its versioned HOT path. */
  function HotBytes(world: World, worker: Worker): Option<Payload> {
    match worker
    case PutWriting(rev, _) => if rev in world.data then Some(world.data[rev]) else None
    case LateWatching(rev, _) => if rev in world.data then Some(world.data[rev]) else None
    case HotRepairWriting(_, payload, _) => Some(payload)
    case _ => None
  }

  function StoreHotStep(world: World, w: nat, node: NodeId, reported: bool): Option<World> {
    if w !in world.workers then None else
    var worker := world.workers[w];
    if HotBytes(world, worker).None? || node == "" || node in worker.written then None else
    var stored := world.(blobs := world.blobs[Place(node, HotPath(worker.rev)) := HotBytes(world, worker).value]);
    Some(if reported then Become(stored, w, worker.(written := worker.written + [node])) else stored)
  }

  // ---- facts a stale worker can rely on, because no step ever undoes them ----

  /** The version was committed and is no longer current: superseded or deleted. */
  predicate Gone(world: World, rev: Rev) {
    rev in world.committed && !IsCurrent(world.db, rev)
  }

  /** The version was committed and is not a HOT version row any more. */
  predicate Cold(world: World, rev: Rev) {
    rev in world.committed && (rev in world.db.versions ==> world.db.versions[rev].tier == Ec)
  }

  predicate Retired(world: World, rev: Rev) {
    Gone(world, rev) || Cold(world, rev) || (rev in world.committed && rev in world.doomed) || rev in world.torn
  }

  // ---- torn stores ----

  /** The worker counts on the node holding the version: it will name the node in a replica row,
      or read the version from it. */
  predicate Relies(worker: Worker, rev: Rev, node: NodeId) {
    match worker
    case PutWriting(r, written) => r == rev && node in written
    case LateWatching(r, written) => r == rev && node in written
    case LateChecked(r, written) => r == rev && node in written
    case HotRepairWriting(r, _, written) => r == rev && node in written
    case HotRepairListed(r, sources) => r == rev && node in sources
    case _ => false
  }

  /** Other bytes land on a node that an ACTIVE row of the version names or a worker relies on,
      while the version still matters. */
  predicate UnsafeTear(world: World, rev: Rev, node: NodeId, junk: Payload) {
    && rev in world.data && junk != world.data[rev] && !Retired(world, rev)
    && (node in ActiveNodes(ReplicasOf(world.db, rev)) ||
        exists w :: w in world.workers && Relies(world.workers[w], rev, node))
  }

  /** A store of the version that ends in other bytes: the node truncates the file before it
      copies, and a queued store goes on after its caller has given up, so this may hit any node
      at any time.  An unsafe one is remembered. */
  function TearHotStep(world: World, rev: Rev, node: NodeId, junk: Payload): Option<World> {
    if rev !in world.data then None else
    Some(world.(blobs := world.blobs[Place(node, HotPath(rev)) := junk],
                torn := if UnsafeTear(world, rev, node, junk) then world.torn + {rev} else world.torn))
  }

  function PutCommitStep(c: Config, world: World, w: nat, now: int, eligibleAt: int): Option<World> {
    if w !in world.workers || !world.workers[w].PutWriting? then None else
    var PutWriting(rev, written) := world.workers[w];
    if |written| < c.quorum || rev !in world.data then None else
    var db := CommitPut(world.db, rev, written, |world.data[rev]|, now, eligibleAt);
    Some(Become(world, w, LateWatching(rev, [])).(db := db, committed := world.committed + {rev}))
  }

  function LateCheckStep(world: World, w: nat): Option<World> {
    if w !in world.workers || !world.workers[w].LateWatching? then None else
    var LateWatching(rev, written) := world.workers[w];
    var s := SnapshotOf(world.db, rev);
    Some(if s.Some? && s.value.current == rev.version && s.value.tier == Hot
         then Become(world, w, LateChecked(rev, written)) else Finish(world, w))
  }

  function LateUpsertStep(world: World, w: nat): Option<World> {
    if w !in world.workers || !world.workers[w].LateChecked? then None else
    var LateChecked(rev, written) := world.workers[w];
    Some(Finish(world, w).(db := UpsertReplicas(world.db, rev, written)))
  }

  function MigrateStartStep(world: World, w: nat, rev: Rev): Option<World> {
    if w in world.workers || rev !in world.queued then None else
    var s := SnapshotOf(world.db, rev);
    if s.None? || s.value.current != rev.version || (s.value.tier == Ec && s.value.state == EcActive) then None else
    Some(Become(world, w, MigrateChecked(rev)))
  }

  function MigrateMarkStep(world: World, w: nat, now: int): Option<World> {
    if w !in world.workers || !world.workers[w].MigrateChecked? then None else
    var rev := world.workers[w].rev;
    match MarkMigrating(world.db, rev, now)
    case None => Some(Finish(world, w))
    case Some(db) => Some(Become(world, w, MigrateWriting(rev, [])).(db := db))
  }

  predicate HasIndex(locations: seq<ShardLocation>, index: nat) {
    exists l :: l in locations && l.index == index
  }

  /** Chunk keys carry no version; a chunk is reported once per shard index. */
  function StoreChunkStep(c: Config, world: World, w: nat, node: NodeId, index: nat, bytes: Payload,
                          reported: bool): Option<World> {
    if w !in world.workers then None else
    var worker := world.workers[w];
    if !(worker.MigrateWriting? || worker.EcRepairWriting?) then None else
    if worker.MigrateWriting? && index >= c.k + c.m then None else
    if worker.EcRepairWriting? && index !in worker.missing then None else
    if HasIndex(worker.locations, index) then None else
    var stored := world.(blobs := world.blobs[Place(node, ChunkPath(worker.rev.id, index)) := bytes]);
    Some(if reported then Become(stored, w, worker.(locations := worker.locations + [ShardLocation(index, node)]))
         else stored)
  }

  function MigratePromoteStep(c: Config, world: World, w: nat, now: int): Option<World> {
    if w !in world.workers || !world.workers[w].MigrateWriting? then None else
    var MigrateWriting(rev, locations) := world.workers[w];
    if |locations| < c.k then None else
    match Promote(world.db, rev, c.k, c.m, locations, now)
    case None => Some(Finish(world, w))
    case Some(db) => Some(Finish(world, w).(db := db))
  }

  function GcStartStep(world: World, w: nat, rev: Rev): Option<World> {
    if w in world.workers then None else
    var s := SnapshotOf(world.db, rev);
    if s.None? || s.value.current != rev.version || s.value.tier != Ec || s.value.state != EcActive then None else
    Some(Become(world, w, GcChecked(rev)))
  }

  function GcListStep(world: World, w: nat): Option<World> {
    if w !in world.workers || !world.workers[w].GcChecked? then None else
    var rev := world.workers[w].rev;
    Some(Become(world, w, GcDeleting(rev, ActiveNodes(ReplicasOf(world.db, rev)), [])))
  }

  function GcDeleteBlobStep(world: World, w: nat, node: NodeId): Option<World> {
    if w !in world.workers || !world.workers[w].GcDeleting? then None else
    var GcDeleting(rev, todo, done) := world.workers[w];
    if node !in todo then None else
    var next := Become(world, w, GcDeleting(rev, todo - {node}, done + [node]));
    Some(next.(blobs := world.blobs - {Place(node, HotPath(rev))}))
  }

  function GcMarkStep(world: World, w: nat): Option<World> {
    if w !in world.workers || !world.workers[w].GcDeleting? then None else
    var GcDeleting(rev, todo, done) := world.workers[w];
    if todo != {} then None else
    Some(Finish(world, w).(db := MarkReplicasDeleted(world.db, rev, done)))
  }

  function RepairStartStep(world: World, w: nat, rev: Rev): Option<World> {
    if w in world.workers then None else
    var s := SnapshotOf(world.db, rev);
    if s.None? || s.value.current != rev.version then None else
    Some(Become(world, w, if s.value.tier == Hot then HotRepairChecked(rev) else EcRepairChecked(rev)))
  }

  function HotRepairListStep(c: Config, world: World, w: nat): Option<World> {
    if w !in world.workers || !world.workers[w].HotRepairChecked? then None else
    var rev := world.workers[w].rev;
    var sources := ActiveNodes(ReplicasOf(world.db, rev));
    if sources == {} || |sources| >= c.target then None else
    Some(Become(world, w, HotRepairListed(rev, sources)))
  }

  /** The versioned key is tried first, then the legacy key on the same node. */
  function HotRepairFetchStep(world: World, w: nat, node: NodeId): Option<World> {
    if w !in world.workers || !world.workers[w].HotRepairListed? then None else
    var HotRepairListed(rev, sources) := world.workers[w];
    if node !in sources then None else
    if Place(node, HotPath(rev)) in world.blobs then
      Some(Become(world, w, HotRepairWriting(rev, world.blobs[Place(node, HotPath(rev))], [])))
    else if Place(node, PlainPath(rev.id)) in world.blobs then
      Some(Become(world, w, HotRepairWriting(rev, world.blobs[Place(node, PlainPath(rev.id))], [])))
    else
      None
  }

  function HotRepairUpsertStep(world: World, w: nat): Option<World> {
    if w !in world.workers || !world.workers[w].HotRepairWriting? then None else
    var HotRepairWriting(rev, payload, written) := world.workers[w];
    Some(Finish(world, w).(db := UpsertReplicas(world.db, rev, written)))
  }

  function EcRepairViewStep(c: Config, world: World, w: nat): Option<World> {
    if w !in world.workers || !world.workers[w].EcRepairChecked? then None else
    var rev := world.workers[w].rev;
    if !IsCurrent(world.db, rev) || rev !in world.db.versions || world.db.versions[rev].tier != Ec then None else
    var row := world.db.versions[rev];
    var k := if row.k > 0 then row.k else c.k;
    var m := if row.m > 0 then row.m else c.m;
    var missing := set i | 0 <= i < k + m && i !in ActiveShards(ShardsOf(world.db, rev));
    if missing == {} then None else
    Some(Become(world, w, EcRepairWriting(rev, k, m, missing, [])))
  }

  function EcRepairPromoteStep(world: World, w: nat, now: int): Option<World> {
    if w !in world.workers || !world.workers[w].EcRepairWriting? then None else
    var EcRepairWriting(rev, k, m, missing, locations) := world.workers[w];
    if exists i :: i in missing && !HasIndex(locations, i) then None else
    match Promote(world.db, rev, k, m, locations, now)
    case None => Some(Finish(world, w))
    case Some(db) => Some(Finish(world, w).(db := db))
  }

  function CondemnStep(c: Config, world: World, rev: Rev, minAge: int, now: int): Option<World> {
    if !Reapable(world.db, rev, c.keep, minAge, now) then None else
    Some(world.(condemned := world.condemned + {rev}))
  }

  function OldGcStartStep(world: World, w: nat, rev: Rev): Option<World> {
    if w in world.workers || rev !in world.condemned || rev.id !in world.db.objects then None else
    if rev !in world.db.versions || IsCurrent(world.db, rev) then None else
    Some(Become(world, w, OldGcDeleting(rev, world.db.versions[rev].tier)))
  }

  function OldGcPurgeStep(world: World, w: nat): Option<World> {
    if w !in world.workers || !world.workers[w].OldGcDeleting? then None else
    match PurgeVersion(world.db, world.workers[w].rev)
    case None => Some(Finish(world, w))
    case Some(db) => Some(Finish(world, w).(db := db))
  }

  function DeleteStartStep(world: World, w: nat, id: ObjectId): Option<World> {
    if w in world.workers || id !in world.db.objects then None else
    var rev := Rev(id, world.db.objects[id].current);
    if rev !in world.db.versions then None else
    Some(Become(world, w, DeleteDeleting(rev, world.db.versions[rev].tier)).(doomed := world.doomed + {rev}))
  }

  function DeleteMetadataStep(world: World, w: nat): Option<World> {
    if w !in world.workers || !world.workers[w].DeleteDeleting? then None else
    Some(Finish(world, w).(db := DeleteObject(world.db, world.workers[w].rev.id)))
  }

  /** Blob removal by old-version GC or by a DELETE request: the version's HOT copies and the
      legacy key for a HOT version, chunks for an EC version, on any node and in any order. */
  function DeleteBlobStep(world: World, w: nat, node: NodeId, index: nat): Option<World> {
    if w !in world.workers then None else
    var worker := world.workers[w];
    if !(worker.OldGcDeleting? || worker.DeleteDeleting?) then None else
    var places := if worker.tier == Hot then {Place(node, HotPath(worker.rev)), Place(node, PlainPath(worker.rev.id))}
                  else {Place(node, ChunkPath(worker.rev.id, index))};
    Some(world.(blobs := world.blobs - places))
  }

  function PruneDueStep(world: World, rev: Rev): Option<World> {
    if rev !in world.db.dueRefs || !StaleDue(world.db, rev) then None else
    Some(world.(db := RemoveDue(world.db, rev)))
  }

  function SelectDueStep(world: World, rev: Rev, now: int): Option<World> {
    if rev !in world.db.dueRefs || StaleDue(world.db, rev) then None else
    Some(world.(db := SelectCandidate(world.db, rev, now),
                queued := world.queued + {rev}, taskRows := world.taskRows + {rev}))
  }

  /** One step of the protocol, or None when the action is not enabled. */
  function Step(c: Config, world: World, a: Action): Option<World> {
    match a
    case PutStart(w, rev, bytes) =>
      // A PUT takes a version number that no earlier PUT of the object took.
      if w in world.workers || rev in world.data then None
      else Some(Become(world, w, PutWriting(rev, [])).(data := world.data[rev := bytes]))
    case StoreHot(w, node, reported) => StoreHotStep(world, w, node, reported)
    case TearHot(rev, node, junk) => TearHotStep(world, rev, node, junk)
    case PutCommit(w, now, eligibleAt) => PutCommitStep(c, world, w, now, eligibleAt)
    case LateCheck(w) => LateCheckStep(world, w)
    case LateUpsert(w) => LateUpsertStep(world, w)
    case MigrateStart(w, rev) => MigrateStartStep(world, w, rev)
    case MigrateMark(w, now) => MigrateMarkStep(world, w, now)
    case StoreChunk(w, node, index, bytes, reported) => StoreChunkStep(c, world, w, node, index, bytes, reported)
    case MigratePromote(w, now) => MigratePromoteStep(c, world, w, now)
    case GcStart(w, rev) => GcStartStep(world, w, rev)
    case GcList(w) => GcListStep(world, w)
    case GcDeleteBlob(w, node) => GcDeleteBlobStep(world, w, node)
    case GcMark(w) => GcMarkStep(world, w)
    case RepairStart(w, rev) => RepairStartStep(world, w, rev)
    case HotRepairList(w) => HotRepairListStep(c, world, w)
    case HotRepairFetch(w, node) => HotRepairFetchStep(world, w, node)
    case HotRepairUpsert(w) => HotRepairUpsertStep(world, w)
    case EcRepairView(w) => EcRepairViewStep(c, world, w)
    case EcRepairPromote(w, now) => EcRepairPromoteStep(world, w, now)
    case Condemn(rev, minAge, now) => CondemnStep(c, world, rev, minAge, now)
    case OldGcStart(w, rev) => OldGcStartStep(world, w, rev)
    case OldGcPurge(w) => OldGcPurgeStep(world, w)
    case DeleteStart(w, id) => DeleteStartStep(world, w, id)
    case DeleteMetadata(w) => DeleteMetadataStep(world, w)
    case DeleteBlob(w, node, index) => DeleteBlobStep(world, w, node, index)
    case PruneDue(rev) => PruneDueStep(world, rev)
    case SelectDue(rev, now) => SelectDueStep(world, rev, now)
    case PurgeTaskRow(rev) => Some(world.(taskRows := world.taskRows - {rev}))
    case Stop(w) => Some(Finish(world, w))
  }

  const Init := World(Db(map[], map[], map[], map[], map[], {}), map[], map[], {}, {}, {}, {}, {}, {}, map[])

  /** The world after a whole run, or None when some action was not enabled. */
  function Run(c: Config, actions: seq<Action>): Option<World> {
    if |actions| == 0 then Some(Init)
    else
      match Run(c, actions[..|actions| - 1])
      case None => None
      case Some(world) => Step(c, world, actions[|actions| - 1])
  }
}
