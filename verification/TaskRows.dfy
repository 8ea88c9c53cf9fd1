/** The task table behind the index: what batches do to its rows, and what a claim makes of one. */
module TaskRows {
  import opened MetaTypes
  import opened ByteOrder
  import opened Keys
  import opened KvClient
  import opened ScanPlan
  import opened TaskIndex
  import opened TaskScans

  ghost predicate SameRow(kv: Kv, kv': Kv, id: string) {
    (TaskKey(id) in kv' <==> TaskKey(id) in kv) && (TaskKey(id) in kv ==> kv'[TaskKey(id)] == kv[TaskKey(id)])
  }

  ghost predicate SameRows(kv: Kv, kv': Kv) {
    forall id :: SameRow(kv, kv', id)
  }

  lemma SameRowsTrans(kv: Kv, kv': Kv, kv'': Kv)
    requires SameRows(kv, kv') && SameRows(kv', kv'')
    ensures SameRows(kv, kv'')
  {
    forall id ensures SameRow(kv, kv'', id) { assert SameRow(kv, kv', id) && SameRow(kv', kv'', id); }
  }

  lemma SameFind(kv: Kv, kv': Kv, id: string)
    requires SameRows(kv, kv')
    ensures Find(kv', id) == Find(kv, id)
  {
    assert SameRow(kv, kv', id);
  }

  // ---- operations on index keys leave the table alone ----

  ghost predicate IndexOp(op: Op<Value>) { IndexKey(op.key) }

  lemma {:induction false} IndexOpsKeepRows(kv: Kv, ops: Ops)
    requires forall op :: op in ops ==> IndexOp(op)
    ensures SameRows(kv, Apply(kv, ops))
  {
    if |ops| == 0 {
      assert SameRows(kv, kv);
    } else {
      var before, last := Apply(kv, ops[..|ops| - 1]), ops[|ops| - 1];
      IndexOpsKeepRows(kv, ops[..|ops| - 1]);
      assert IndexOp(last);
      forall id ensures SameRow(kv, ApplyOp(before, last), id) {
        NotIndexKey(id);
        assert SameRow(kv, before, id);
      }
    }
  }

  lemma KeysAreIndexKeys(t: Task)
    ensures IndexKey(Ready(t)) && IndexKey(Wait(t)) && (t.finishedAt.Some? ==> IndexKey(Term(t)))
  {
  }

  lemma {:induction false} ScanTouchesIndex(keys: seq<string>, visit: string -> Visit, limit: nat)
    requires forall k :: k in keys && visit(k).Step? ==> forall op :: op in visit(k).ops ==> IndexOp(op)
    ensures forall op :: op in ScanKeys(keys, visit, limit).ops ==> IndexOp(op)
    decreases |keys|
  {
    if |keys| > 0 && limit > 0 && visit(keys[0]).Step? {
      ScanTouchesIndex(keys[1..], visit, if visit(keys[0]).counted then limit - 1 else limit);
    }
  }

  lemma PromoteKeepsRows(kv: Kv, now: int, limit: int)
    ensures SameRows(kv, Promote(kv, now, limit))
  {
    var keys, visit := PrefixKeys(kv, TASK_WAIT), PromoteVisit(kv, now);
    forall k | k in keys && visit(k).Step? ensures forall op :: op in visit(k).ops ==> IndexOp(op) {
      PromoteOneTouchesIndex(kv, k, now);
    }
    ScanTouchesIndex(keys, visit, PromoteLimit(limit));
    IndexOpsKeepRows(kv, PromoteScan(kv, now, limit).ops);
  }

  lemma PromoteOneTouchesIndex(kv: Kv, k: string, now: int)
    requires IndexKey(k)
    ensures forall op :: op in PromoteOne(kv, k, now) ==> IndexOp(op)
  {
    if ParseWait(k).Some? && Find(kv, ParseWait(k).value.id).Some? {
      KeysAreIndexKeys(Find(kv, ParseWait(k).value.id).value);
    }
  }

  lemma {:induction false} RoundsKeepRows(kv: Kv, now: int, limit: nat, rounds: nat, adaptiveMax: nat, goal: Kv)
    requires RoundsTo(kv, now, limit, rounds, adaptiveMax, goal)
    ensures SameRows(kv, goal)
    decreases rounds
  {
    if rounds == 0 {
      assert SameRows(kv, kv);
    } else {
      var after, next, rest, filled := RoundUnfolds(kv, now, limit, rounds, adaptiveMax, goal);
      PromoteKeepsRows(kv, now, limit);
      if filled {
        RoundsKeepRows(after, now, next, rest, adaptiveMax, goal);
        SameRowsTrans(kv, after, goal);
      }
    }
  }

  // ---- operations that write one row ----

  /** The row of one id is the new one, if there is one, and every other row is as before. */
  ghost predicate RowsBecome(kv: Kv, kv': Kv, id: string, next: Option<Task>) {
    (next.Some? ==> Find(kv', id) == next) && forall i :: i != id || next.None? ==> Find(kv', i) == Find(kv, i)
  }

  lemma PutFinds(kv: Kv, id: string, t: Task)
    ensures RowsBecome(kv, kv[TaskKey(id) := Row(t)], id, Some(t))
  {
    forall i | i != id ensures TaskKey(i) != TaskKey(id) { if TaskKey(i) == TaskKey(id) { TaskKeyInjective(i, id); } }
  }

  lemma RowsBecomeAround(kv: Kv, kv1: Kv, kv2: Kv, kv3: Kv, id: string, next: Option<Task>)
    requires SameRows(kv, kv1) && RowsBecome(kv1, kv2, id, next) && SameRows(kv2, kv3)
    ensures RowsBecome(kv, kv3, id, next)
  {
    forall i ensures Find(kv3, i) == if i == id && next.Some? then next else Find(kv, i) {
      SameFind(kv, kv1, i);
      SameFind(kv2, kv3, i);
    }
  }

  /** A batch with one row in it. */
  lemma BatchFinds(kv: Kv, before: Ops, id: string, t: Task, after: Ops)
    requires forall op :: op in before || op in after ==> IndexOp(op)
    ensures RowsBecome(kv, Apply(kv, before + [Put(TaskKey(id), Row(t))] + after), id, Some(t))
  {
    var put: Ops := [Put(TaskKey(id), Row(t))];
    ApplyAppend(kv, before + put, after);
    ApplyAppend(kv, before, put);
    var kv1 := Apply(kv, before);
    ApplyOne(kv1, put[0]);
    var kv2 := Apply(kv1, put);
    IndexOpsKeepRows(kv, before);
    PutFinds(kv1, id, t);
    IndexOpsKeepRows(kv2, after);
    RowsBecomeAround(kv, kv1, kv2, Apply(kv2, after), id, Some(t));
  }

  /** Row and index written together change the one row, whatever the store contains. */
  lemma WriteFinds(kv: Kv, prev: Option<Task>, next: Task, now: int)
    ensures RowsBecome(kv, Apply(kv, WriteOps(prev, next, now)), next.id, Some(next))
  {
    var before: Ops := if prev.Some? then DeleteRunnable(prev.value) + DeleteTerminal(prev.value) else [];
    var after := PutRunnable(next, now) + PutTerminal(next);
    if prev.Some? { KeysAreIndexKeys(prev.value); }
    KeysAreIndexKeys(next);
    BatchFinds(kv, before, next.id, next, after);
    var put: Ops := [Put(TaskKey(next.id), Row(next))];
    assert WriteOps(prev, next, now) == before + put + after;
  }

  // ---- what the single-task operations make of a row ----

  /** A row under the id, if there is one, carries that id. */
  ghost predicate OwnsId(kv: Kv, id: string) {
    id != "" && (Find(kv, id).Some? ==> Find(kv, id).value.id == id)
  }

  /** A missing task is created: pending, never tried, with no error and no times of its own. */
  ghost predicate Enqueued(kv: Kv, kv': Kv, id: string, objectId: string, version: int, taskType: string,
                           priority: int, at: int) {
    if Find(kv, id).Some? then kv' == kv
    else RowsBecome(kv, kv', id, Some(Task(id := id, objectId := objectId, version := version, taskType := taskType,
                                           state := Pending, priority := priority, retryCount := 0, lastError := None,
                                           scheduledAt := at, startedAt := None, finishedAt := None)))
  }

  /** A finished task starts over under the new priority; what it is about stays. */
  ghost predicate Revived(kv: Kv, kv': Kv, id: string, priority: int, now: int) {
    var row := Find(kv, id);
    if row.Some? && (row.value.state == Done || row.value.state == Failed) then
      RowsBecome(kv, kv', id, Some(row.value.(state := Pending, priority := priority, retryCount := 0,
                                              lastError := None, scheduledAt := now, startedAt := None,
                                              finishedAt := None)))
    else kv' == kv
  }

  /** A task that is not DONE is pending and due now; its retries are kept. */
  ghost predicate Requeued(kv: Kv, kv': Kv, id: string, now: int) {
    var row := Find(kv, id);
    if row.Some? && row.value.state != Done then
      RowsBecome(kv, kv', id, Some(row.value.(state := Pending, scheduledAt := now, startedAt := None,
                                              finishedAt := None, lastError := None)))
    else kv' == kv
  }

  /** A task that has not finished fails now, with the reason. */
  ghost predicate Cancelled(kv: Kv, kv': Kv, id: string, reason: string, now: int) {
    var row, error := Find(kv, id), if reason == "" then "cancelled_by_admin" else reason;
    if row.Some? && row.value.state != Done && row.value.state != Failed then
      RowsBecome(kv, kv', id, Some(row.value.(state := Failed, finishedAt := Some(now), lastError := Some(error))))
    else kv' == kv
  }

  /** Any task is DONE now, and keeps the rest. */
  ghost predicate MarkedDone(kv: Kv, kv': Kv, id: string, now: int) {
    var row := Find(kv, id);
    if row.Some? then RowsBecome(kv, kv', id, Some(row.value.(state := Done, finishedAt := Some(now)))) else kv' == kv
  }

  /** Any task waits for its next try, one more counted, with the error of this one. */
  ghost predicate MarkedRetry(kv: Kv, kv': Kv, id: string, err: string, at: int) {
    var row := Find(kv, id);
    if row.Some? then
      RowsBecome(kv, kv', id, Some(row.value.(state := RetryWait, retryCount := row.value.retryCount + 1,
                                              lastError := Some(err), scheduledAt := at, finishedAt := None)))
    else kv' == kv
  }

  /** Any task fails now, with an error. */
  ghost predicate MarkedFailed(kv: Kv, kv': Kv, id: string, err: string, now: int) {
    var row, error := Find(kv, id), if err == "" then "failed_without_error_message" else err;
    if row.Some? then
      RowsBecome(kv, kv', id, Some(row.value.(state := Failed, finishedAt := Some(now), lastError := Some(error))))
    else kv' == kv
  }

  lemma StepWrites(kv: Kv, op: TaskOp, now: int)
    requires !op.ClaimTask? && !op.PurgeTerminal? && OwnsId(kv, op.id)
    ensures var next := NextRow(op, Find(kv, op.id), now);
            if next.None? then TaskStep(kv, op, now) == kv else RowsBecome(kv, TaskStep(kv, op, now), op.id, next)
  {
    var row := Find(kv, op.id);
    var next := NextRow(op, row, now);
    if next.Some? { WriteFinds(kv, row, next.value, now); }
  }

  /** Operations from outside do to the table what they are asked, on any store. */
  lemma StepRows(kv: Kv, op: TaskOp, now: int)
    requires op.EnqueueTask? || op.EnqueueOrRevive? || op.RequeueNow? || op.CancelTask?
    requires OwnsId(kv, op.id)
    ensures var kv' := TaskStep(kv, op, now);
            match op
            case EnqueueTask(id, o, v, ty, p, at) =>
              Enqueued(kv, kv', id, o, v, ty, p, if at.Some? then at.value else now)
            case EnqueueOrRevive(id, o, v, ty, p) =>
              if Find(kv, id).None? then Enqueued(kv, kv', id, o, v, ty, p, now) else Revived(kv, kv', id, p, now)
            case RequeueNow(id) => Requeued(kv, kv', id, now)
            case CancelTask(id, reason) => Cancelled(kv, kv', id, reason, now)
            case _ => true
  {
    StepWrites(kv, op, now);
  }

  lemma DoneRows(kv: Kv, id: string, now: int)
    requires OwnsId(kv, id)
    ensures MarkedDone(kv, TaskStep(kv, MarkDone(id), now), id, now)
  {
    StepWrites(kv, MarkDone(id), now);
  }

  /** What the step made of the row, said of the table alone. */
  lemma RetryFrom(kv: Kv, kv': Kv, id: string, err: string, at: Option<int>, now: int)
    requires var next := NextRow(MarkRetry(id, err, at), Find(kv, id), now);
             if next.None? then kv' == kv else RowsBecome(kv, kv', id, next)
    ensures MarkedRetry(kv, kv', id, err, if at.Some? then at.value else now)
  {
  }

  lemma RetryRows(kv: Kv, id: string, err: string, at: Option<int>, now: int)
    requires OwnsId(kv, id)
    ensures MarkedRetry(kv, TaskStep(kv, MarkRetry(id, err, at), now), id, err, if at.Some? then at.value else now)
  {
    StepWrites(kv, MarkRetry(id, err, at), now);
    RetryFrom(kv, TaskStep(kv, MarkRetry(id, err, at), now), id, err, at, now);
  }

  lemma FailedRows(kv: Kv, id: string, err: string, now: int)
    requires OwnsId(kv, id)
    ensures MarkedFailed(kv, TaskStep(kv, MarkFailed(id, err), now), id, err, now)
  {
    StepWrites(kv, MarkFailed(id, err), now);
  }

  /** The marks a worker makes do to the table what their names say, on any store. */
  lemma MarkRows(kv: Kv, op: TaskOp, now: int)
    requires (op.MarkDone? || op.MarkRetry? || op.MarkFailed?) && OwnsId(kv, op.id)
    ensures var kv' := TaskStep(kv, op, now);
            && (op.MarkDone? ==> MarkedDone(kv, kv', op.id, now))
            && (op.MarkRetry? ==>
                  MarkedRetry(kv, kv', op.id, op.err, if op.nextRunAt.Some? then op.nextRunAt.value else now))
            && (op.MarkFailed? ==> MarkedFailed(kv, kv', op.id, op.err, now))
  {
    match op
    case MarkDone(id) => DoneRows(kv, id, now);
    case MarkRetry(id, err, at) => RetryRows(kv, id, err, at, now);
    case MarkFailed(id, err) => FailedRows(kv, id, err, now);
  }

  // ---- what a claim makes of a row ----

  /** The task is the row, running since now; whose work it is and how it was queued is kept. */
  ghost predicate TakenFrom(row: Task, task: Task, now: int) {
    && task.objectId == row.objectId && task.version == row.version && task.taskType == row.taskType
    && task.priority == row.priority && task.retryCount == row.retryCount && task.scheduledAt == row.scheduledAt
    && task.state == Running && task.startedAt == Some(now) && task.finishedAt == None && task.lastError == None
  }

  /** The claim found a runnable, due row of the requested type under the id; it returns that row as
      taken, stores it there, and changes no other row. */
  ghost predicate ClaimedRow(kv: Kv, kv': Kv, id: string, task: Task, now: int, taskType: string) {
    && Find(kv, id).Some?
    && var row := Find(kv, id).value;
       && Runnable(row) && row.scheduledAt <= now && (taskType == "" || row.taskType == taskType)
       && TakenFrom(row, task, now) && task.id == (if row.id == "" then id else row.id)
       && RowsBecome(kv, kv', id, Some(task))
  }

  lemma ClaimFinds(kv: Kv, key: string, id: string, t: Task)
    requires IndexKey(key)
    ensures RowsBecome(kv, Apply(kv, ClaimOps(key, id, t)), id, Some(t))
  {
    KeysAreIndexKeys(t);
    var put: Ops := [Put(TaskKey(id), Row(t))];
    var rest: Ops := [Del(key), Del(Ready(t)), Del(Wait(t))];
    BatchFinds(kv, [], id, t, rest);
    assert ClaimOps(key, id, t) == [] + put + rest;
  }

  lemma DropKeepsRows(kv: Kv, key: string)
    requires IndexKey(key)
    ensures SameRows(kv, kv - {key})
  {
    forall id ensures SameRow(kv, kv - {key}, id) { NotIndexKey(id); }
  }

  lemma ClaimedRowFrom(kv: Kv, kv1: Kv, kv': Kv, id: string, task: Task, now: int, taskType: string)
    requires SameRows(kv, kv1) && ClaimedRow(kv1, kv', id, task, now, taskType)
    ensures ClaimedRow(kv, kv', id, task, now, taskType)
  {
    SameFind(kv, kv1, id);
    forall i ensures Find(kv1, i) == Find(kv, i) { SameFind(kv, kv1, i); }
  }

  // ---- the claim on any store, coherent or not ----

  predicate TakesAt(kv: Kv, k: string, now: int, taskType: string) {
    var e := ParseReady(k);
    && e.Some? && (taskType == "" || e.value.taskType == taskType)
    && Find(kv, e.value.id).Some? && Claimable(Find(kv, e.value.id).value, e.value.taskType, now)
  }

  /** What a claim that passes over a ready key commits there. */
  function PassOps(kv: Kv, k: string, now: int, taskType: string): Ops {
    match ParseReady(k)
    case None => [Del(k)]
    case Some(e) =>
      if taskType != "" && e.taskType != taskType then []
      else if Find(kv, e.id).None? then [Del(k)]
      else ReindexOps(Find(kv, e.id).value, now)
  }

  lemma PassKeepsRows(kv: Kv, k: string, now: int, taskType: string)
    requires IndexKey(k)
    ensures SameRows(kv, Apply(kv, PassOps(kv, k, now, taskType)))
  {
    var e := ParseReady(k);
    if e.Some? && Find(kv, e.value.id).Some? { KeysAreIndexKeys(Find(kv, e.value.id).value); }
    IndexOpsKeepRows(kv, PassOps(kv, k, now, taskType));
  }

  lemma PassScans(kv: Kv, keys: seq<string>, now: int, taskType: string)
    requires |keys| > 0 && !TakesAt(kv, keys[0], now, taskType)
    ensures ClaimScan(kv, keys, now, taskType) ==
              ClaimScan(Apply(kv, PassOps(kv, keys[0], now, taskType)), keys[1..], now, taskType)
  {
    ApplyOne(kv, Del(keys[0]));
  }

  /** What a claim comes to on any store: one row taken, or no row changed. */
  ghost predicate Sound(kv: Kv, c: Claim, now: int, taskType: string) {
    match c.task
    case None => SameRows(kv, c.kv)
    case Some(task) => exists id :: ClaimedRow(kv, c.kv, id, task, now, taskType)
  }

  lemma TakingSound(kv: Kv, keys: seq<string>, now: int, taskType: string)
    requires |keys| > 0 && IndexKey(keys[0]) && TakesAt(kv, keys[0], now, taskType)
    ensures Sound(kv, ClaimScan(kv, keys, now, taskType), now, taskType)
  {
    var id, c := ParseReady(keys[0]).value.id, ClaimScan(kv, keys, now, taskType);
    ClaimFinds(kv, keys[0], id, Claimed(Find(kv, id).value, id, now));
    assert ClaimedRow(kv, c.kv, id, c.task.value, now, taskType);
  }

  lemma SoundFrom(kv: Kv, kv1: Kv, c: Claim, now: int, taskType: string)
    requires SameRows(kv, kv1) && Sound(kv1, c, now, taskType)
    ensures Sound(kv, c, now, taskType)
  {
    if c.task.Some? {
      var id :| ClaimedRow(kv1, c.kv, id, c.task.value, now, taskType);
      ClaimedRowFrom(kv, kv1, c.kv, id, c.task.value, now, taskType);
    } else {
      SameRowsTrans(kv, kv1, c.kv);
    }
  }

  lemma {:induction false} ClaimScanSound(kv: Kv, keys: seq<string>, now: int, taskType: string)
    requires forall k :: k in keys ==> IndexKey(k)
    ensures Sound(kv, ClaimScan(kv, keys, now, taskType), now, taskType)
    decreases |keys|
  {
    if |keys| == 0 {
      assert SameRows(kv, kv);
    } else if TakesAt(kv, keys[0], now, taskType) {
      TakingSound(kv, keys, now, taskType);
    } else {
      var next := Apply(kv, PassOps(kv, keys[0], now, taskType));
      PassKeepsRows(kv, keys[0], now, taskType);
      PassScans(kv, keys, now, taskType);
      ClaimScanSound(next, keys[1..], now, taskType);
      SoundFrom(kv, next, ClaimScan(next, keys[1..], now, taskType), now, taskType);
    }
  }
}
