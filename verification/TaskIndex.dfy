/** Task rows and their ready, wait and terminal index keys: what one write does, and the
    coherence of the index with the table. */
module TaskIndex {
  import opened MetaTypes
  import opened ByteOrder
  import opened Int64
  import opened Keys
  import opened KvClient

  datatype TaskState = Pending | Running | RetryWait | Done | Failed

  datatype Task = Task(
    id: string, objectId: string, version: int, taskType: string, state: TaskState, priority: int,
    retryCount: int, lastError: Option<string>, scheduledAt: int, startedAt: Option<int>, finishedAt: Option<int>)

  /** A row under "task/", or the one-byte marker of an index key. */
  datatype Value = Row(task: Task) | Marker

  type Kv = map<string, Value>

  predicate Runnable(t: Task) { t.state == Pending || t.state == RetryWait }
  predicate Terminal(t: Task) { t.state == Done || t.state == Failed }

  predicate WellFormed(t: Task) {
    && t.id != "" && SlashFree(t.taskType)
    && 0 <= t.scheduledAt <= MAX_INT64
    && (t.finishedAt.Some? ==> 0 <= t.finishedAt.value <= MAX_INT64)
    && (Terminal(t) ==> t.finishedAt.Some?)
  }

  function Ready(t: Task): string { ReadyKey(t.taskType, t.priority, t.scheduledAt, t.id) }
  function Wait(t: Task): string { WaitKey(t.taskType, t.scheduledAt, t.id) }
  function Term(t: Task): string
    requires t.finishedAt.Some?
  {
    TerminalKey(t.finishedAt.value, t.id)
  }

  function Find(kv: Kv, id: string): Option<Task> {
    if TaskKey(id) in kv && kv[TaskKey(id)].Row? then Some(kv[TaskKey(id)].task) else None
  }

  // ---- what a write does to the map ----

  function RunnableKeys(t: Task): set<string> { {Ready(t), Wait(t)} }

  function TerminalKeys(t: Task): set<string> { if t.finishedAt.Some? then {Term(t)} else {} }

  function AllKeys(t: Task): set<string> { RunnableKeys(t) + TerminalKeys(t) }

  /** The index key a row is entered under when written at time `now`. */
  function EntryKeys(t: Task, now: int): set<string> {
    if Runnable(t) then (if t.scheduledAt > now then {Wait(t)} else {Ready(t)})
    else if Terminal(t) then TerminalKeys(t)
    else {}
  }

  function Mark(kv: Kv, keys: set<string>): Kv {
    kv + map k | k in keys :: Marker
  }

  /** The index of an existing row rebuilt from the row. */
  function Reindex(kv: Kv, t: Task, now: int): Kv {
    Mark(kv - AllKeys(t), EntryKeys(t, now))
  }

  /** Row and index written together: the previous row's keys go, the next row's key comes. */
  function WriteRow(kv: Kv, prev: Option<Task>, next: Task, now: int): Kv {
    var cleared := if prev.Some? then kv - AllKeys(prev.value) else kv;
    Mark(cleared[TaskKey(next.id) := Row(next)], EntryKeys(next, now))
  }

  /** Row and index removed together. */
  function RemoveRow(kv: Kv, t: Task): Kv {
    kv - AllKeys(t) - {TaskKey(t.id)}
  }

  // ---- coherence ----

  predicate IndexKey(k: string) {
    HasPrefix(k, TASK_READY) || HasPrefix(k, TASK_WAIT) || HasPrefix(k, TASK_TERMINAL)
  }

  /** The index keys a row may be entered under at time `now`: a ready key only once due. */
  ghost function Allowed(t: Task, now: int): set<string> {
    if Runnable(t) then (if t.scheduledAt <= now then {Ready(t), Wait(t)} else {Wait(t)})
    else if Terminal(t) then TerminalKeys(t)
    else {}
  }

  /** Exactly one of ready and wait for a runnable row, the terminal key for a terminal row. */
  ghost predicate Entered(kv: Kv, t: Task) {
    && (Runnable(t) ==> (Ready(t) in kv <==> Wait(t) !in kv))
    && (Terminal(t) ==> TerminalKeys(t) <= kv.Keys)
  }

  ghost predicate RowOk(kv: Kv, id: string) {
    TaskKey(id) in kv ==>
      && kv[TaskKey(id)].Row? && kv[TaskKey(id)].task.id == id && WellFormed(kv[TaskKey(id)].task)
      && Entered(kv, kv[TaskKey(id)].task)
  }

  ghost predicate Owned(kv: Kv, k: string, id: string, now: int) {
    Find(kv, id).Some? && k in Allowed(Find(kv, id).value, now)
  }

  ghost predicate EntryOk(kv: Kv, k: string, now: int) {
    k in kv && IndexKey(k) ==> exists id :: Owned(kv, k, id, now)
  }

  /** Index and table agree: every row has its entry, and every index key is some row's entry. */
  ghost predicate Coherent(kv: Kv, now: int) {
    (forall id :: RowOk(kv, id)) && (forall k :: EntryOk(kv, k, now))
  }

  // ---- keys of different rows and families are different ----

  lemma KeyFamilies(t: Task)
    requires WellFormed(t)
    ensures HasPrefix(Ready(t), TASK_READY) && HasPrefix(Wait(t), TASK_WAIT)
    ensures t.finishedAt.Some? ==> HasPrefix(Term(t), TASK_TERMINAL)
    ensures ParseReady(Ready(t)) == Some(IndexEntry(t.scheduledAt, t.taskType, t.id))
    ensures ParseWait(Wait(t)) == Some(IndexEntry(t.scheduledAt, t.taskType, t.id))
    ensures t.finishedAt.Some? ==> ParseTerminal(Term(t)) == Some(IndexEntry(t.finishedAt.value, "", t.id))
  {
    ParseReadyInverts(t.taskType, t.priority, t.scheduledAt, t.id);
    ParseWaitInverts(t.taskType, t.scheduledAt, t.id);
    if t.finishedAt.Some? { ParseTerminalInverts(t.finishedAt.value, t.id); }
  }

  lemma FamilyApart(k: string)
    ensures HasPrefix(k, TASK_READY) ==> !HasPrefix(k, TASK_WAIT) && !HasPrefix(k, TASK_TERMINAL) && !HasPrefix(k, TASK)
    ensures HasPrefix(k, TASK_WAIT) ==> !HasPrefix(k, TASK_TERMINAL) && !HasPrefix(k, TASK)
    ensures HasPrefix(k, TASK_TERMINAL) ==> !HasPrefix(k, TASK)
  {
    if HasPrefix(k, Families[5]) {
      FamiliesPrefixFree(5, 6, k);
      FamiliesPrefixFree(5, 7, k);
      FamiliesPrefixFree(5, 4, k);
    }
    if HasPrefix(k, Families[6]) { FamiliesPrefixFree(6, 7, k); FamiliesPrefixFree(6, 4, k); }
    if HasPrefix(k, Families[7]) { FamiliesPrefixFree(7, 4, k); }
  }

  /** The task id written in an index key. */
  function EntryId(k: string): Option<string> {
    match (ParseReady(k), ParseWait(k), ParseTerminal(k))
    case (Some(e), _, _) => Some(e.id)
    case (_, Some(e), _) => Some(e.id)
    case (_, _, Some(e)) => Some(e.id)
    case _ => None
  }

  lemma EntryIdOf(t: Task, k: string)
    requires WellFormed(t) && k in AllKeys(t)
    ensures EntryId(k) == Some(t.id)
  {
    KeyFamilies(t);
    FamilyApart(k);
  }

  /** Index keys of rows with different ids never coincide. */
  lemma KeysApart(t: Task, u: Task)
    requires WellFormed(t) && WellFormed(u) && t.id != u.id
    ensures AllKeys(t) !! AllKeys(u)
  {
    forall k | k in AllKeys(t) ensures k !in AllKeys(u) {
      EntryIdOf(t, k);
      if k in AllKeys(u) { EntryIdOf(u, k); }
    }
  }

  /** Within one row the three keys are different, all are index keys, and none is a row key. */
  lemma OwnKeys(t: Task, id: string)
    requires WellFormed(t)
    ensures Ready(t) != Wait(t) && RunnableKeys(t) !! TerminalKeys(t)
    ensures forall k :: k in AllKeys(t) ==> IndexKey(k)
    ensures TaskKey(id) !in AllKeys(t) && !IndexKey(TaskKey(id))
  {
    KeyFamilies(t);
    FamilyApart(Ready(t)); FamilyApart(Wait(t)); FamilyApart(TaskKey(id));
    assert HasPrefix(TaskKey(id), TASK);
  }

  lemma TaskKeyInjective(a: string, b: string)
    requires TaskKey(a) == TaskKey(b)
    ensures a == b
  {
    assert a == TaskKey(a)[|TASK|..] && b == TaskKey(b)[|TASK|..];
  }

  // ---- every write keeps coherence ----

  lemma CoherentLater(kv: Kv, now: int, later: int)
    requires Coherent(kv, now) && now <= later
    ensures Coherent(kv, later)
  {
    forall k ensures EntryOk(kv, k, later) {
      assert EntryOk(kv, k, now);
      if k in kv && IndexKey(k) {
        var id :| Owned(kv, k, id, now);
        assert Owned(kv, k, id, later);
      }
    }
  }

  /** Only the row of `id` and index keys `own` differ. */
  ghost predicate Local(kv: Kv, kv': Kv, id: string, own: set<string>) {
    && (forall k :: k in own ==> IndexKey(k))
    && (forall k :: k != TaskKey(id) && k !in own ==> (k in kv' <==> k in kv) && (k in kv ==> kv'[k] == kv[k]))
  }

  lemma LocalFind(kv: Kv, kv': Kv, id: string, own: set<string>, u: string)
    requires Local(kv, kv', id, own) && u != id
    ensures TaskKey(u) in kv' <==> TaskKey(u) in kv
    ensures TaskKey(u) in kv ==> kv'[TaskKey(u)] == kv[TaskKey(u)]
    ensures Find(kv', u) == Find(kv, u)
  {
    if TaskKey(u) == TaskKey(id) { TaskKeyInjective(u, id); }
    NotIndexKey(u);
  }

  lemma LocalRow(kv: Kv, kv': Kv, id: string, own: set<string>, u: string)
    requires Local(kv, kv', id, own) && u != id && RowOk(kv, u)
    requires Find(kv, u).Some? ==> AllKeys(Find(kv, u).value) !! own
    ensures RowOk(kv', u)
  {
    LocalFind(kv, kv', id, own, u);
    if TaskKey(u) in kv {
      var t := kv[TaskKey(u)].task;
      OwnKeys(t, id);
      assert forall k :: k in AllKeys(t) ==> k !in own && k != TaskKey(id);
      assert forall k :: k in AllKeys(t) ==> (k in kv' <==> k in kv);
    }
  }

  lemma LocalChange(kv: Kv, kv': Kv, id: string, own: set<string>, now: int)
    requires Coherent(kv, now) && Local(kv, kv', id, own)
    requires Find(kv, id).Some? ==> AllKeys(Find(kv, id).value) <= own
    requires forall u :: u != id && Find(kv, u).Some? ==> AllKeys(Find(kv, u).value) !! own
    requires RowOk(kv', id)
    requires forall k :: k in kv' && k in own ==> Owned(kv', k, id, now)
    ensures Coherent(kv', now)
  {
    forall u ensures RowOk(kv', u) {
      if u != id {
        assert RowOk(kv, u);
        LocalRow(kv, kv', id, own, u);
      }
    }
    forall k ensures EntryOk(kv', k, now) {
      if k in kv' && k in own {
        assert Owned(kv', k, id, now);
      } else if k in kv' && IndexKey(k) {
        NotIndexKey(id);
        assert k in kv && EntryOk(kv, k, now);
        var u :| Owned(kv, k, u, now);
        assert u != id by { if u == id { AllowedOwn(Find(kv, id).value, now); } }
        LocalFind(kv, kv', id, own, u);
        assert Owned(kv', k, u, now);
      }
    }
  }

  lemma AllowedOwn(t: Task, now: int)
    ensures Allowed(t, now) <= AllKeys(t)
    ensures EntryKeys(t, now) <= Allowed(t, now)
  {
  }

  lemma NotIndexKey(id: string)
    ensures !IndexKey(TaskKey(id))
  {
    FamilyApart(TaskKey(id));
    assert HasPrefix(TaskKey(id), TASK);
  }

  lemma OthersApart(kv: Kv, t: Task, now: int)
    requires Coherent(kv, now) && WellFormed(t)
    ensures forall u :: u != t.id && Find(kv, u).Some? ==> AllKeys(Find(kv, u).value) !! AllKeys(t)
  {
    forall u | u != t.id && Find(kv, u).Some? ensures AllKeys(Find(kv, u).value) !! AllKeys(t) {
      assert RowOk(kv, u);
      KeysApart(Find(kv, u).value, t);
    }
  }

  lemma ReindexKeeps(kv: Kv, t: Task, now: int)
    requires Coherent(kv, now) && Find(kv, t.id) == Some(t)
    ensures Coherent(Reindex(kv, t, now), now)
  {
    assert RowOk(kv, t.id);
    OwnKeys(t, t.id);
    OthersApart(kv, t, now);
    LocalChange(kv, Reindex(kv, t, now), t.id, AllKeys(t), now);
  }

  /** Before the write, the previous row's keys are the only index keys of that id. */
  lemma OldKeysGone(kv: Kv, next: Task, now: int, k: string)
    requires Coherent(kv, now) && WellFormed(next) && k in kv && k in AllKeys(next)
    ensures Find(kv, next.id).Some? && k in AllKeys(Find(kv, next.id).value)
  {
    OwnKeys(next, next.id);
    assert EntryOk(kv, k, now);
    var u :| Owned(kv, k, u, now);
    var t := Find(kv, u).value;
    AllowedOwn(t, now);
    assert RowOk(kv, u);
    if u != next.id { KeysApart(t, next); }
  }

  lemma WriteKeeps(kv: Kv, next: Task, now: int)
    requires Coherent(kv, now) && WellFormed(next)
    ensures Coherent(WriteRow(kv, Find(kv, next.id), next, now), now)
  {
    var prev := Find(kv, next.id);
    var kv' := WriteRow(kv, prev, next, now);
    var own := AllKeys(next) + if prev.Some? then AllKeys(prev.value) else {};
    assert RowOk(kv, next.id);
    AllowedOwn(next, now);
    OwnKeys(next, next.id);
    OthersApart(kv, next, now);
    if prev.Some? {
      OwnKeys(prev.value, next.id);
      OthersApart(kv, prev.value, now);
    }
    assert Find(kv', next.id) == Some(next);
    forall k | k in kv' && k in own ensures k in EntryKeys(next, now) {
      if k !in EntryKeys(next, now) {
        assert k in kv;
        if k in AllKeys(next) { OldKeysGone(kv, next, now, k); }
      }
    }
    assert Local(kv, kv', next.id, own);
    assert RowOk(kv', next.id);
    LocalChange(kv, kv', next.id, own, now);
  }

  lemma RemoveKeeps(kv: Kv, t: Task, now: int)
    requires Coherent(kv, now) && Find(kv, t.id) == Some(t)
    ensures Coherent(RemoveRow(kv, t), now)
  {
    assert RowOk(kv, t.id);
    OwnKeys(t, t.id);
    OthersApart(kv, t, now);
    LocalChange(kv, RemoveRow(kv, t), t.id, AllKeys(t), now);
  }

  // ---- what coherence says about the keys themselves ----

  ghost function Entries(kv: Kv, id: string): set<string> {
    set k | k in kv && IndexKey(k) && EntryId(k) == Some(id)
  }

  /** A runnable task has exactly one index key, its own ready key (only once due) or its own wait
      key; a running task has none; a terminal one has exactly its terminal key; an id without a
      row has none. */
  ghost predicate EntriesExact(kv: Kv, now: int, id: string) {
    match Find(kv, id)
    case None => Entries(kv, id) == {}
    case Some(t) =>
      && (Runnable(t) ==>
            Entries(kv, id) == {Wait(t)} || (Entries(kv, id) == {Ready(t)} && t.scheduledAt <= now))
      && (Terminal(t) ==> t.finishedAt.Some? && Entries(kv, id) == {Term(t)})
      && (t.state == Running ==> Entries(kv, id) == {})
  }

  /** Every index key names the id of a row. */
  ghost predicate EntriesNameRows(kv: Kv) {
    forall k :: k in kv && IndexKey(k) ==> EntryId(k).Some? && Find(kv, EntryId(k).value).Some?
  }

  /** In a coherent store each task has exactly the index keys its state calls for, and there are no others. */
  lemma IndexExact(kv: Kv, now: int, id: string)
    requires Coherent(kv, now)
    ensures EntriesExact(kv, now, id) && EntriesNameRows(kv)
  {
    forall k | k in kv && IndexKey(k)
      ensures EntryId(k).Some? && Owned(kv, k, EntryId(k).value, now)
    {
      assert EntryOk(kv, k, now);
      var u :| Owned(kv, k, u, now);
      assert RowOk(kv, u);
      AllowedOwn(Find(kv, u).value, now);
      EntryIdOf(Find(kv, u).value, k);
    }
    if Find(kv, id).Some? {
      var t := Find(kv, id).value;
      assert RowOk(kv, id);
      OwnKeys(t, id);
      AllowedOwn(t, now);
      forall k | k in Allowed(t, now) && k in kv ensures k in Entries(kv, id) { EntryIdOf(t, k); }
      assert Entries(kv, id) <= Allowed(t, now);
      assert Entries(kv, id) == Allowed(t, now) * kv.Keys;
      if Runnable(t) {
        assert Ready(t) in kv <==> Wait(t) !in kv;
        if Wait(t) in kv {
          assert Entries(kv, id) == {Wait(t)};
        } else {
          assert Ready(t) in kv && IndexKey(Ready(t));
          assert Owned(kv, Ready(t), EntryId(Ready(t)).value, now);
          EntryIdOf(t, Ready(t));
          assert Entries(kv, id) == {Ready(t)};
        }
      }
    }
  }
}
