/** The task store's operations, imperative, each proved against its step of the task queue. */
module TaskStore {
  import opened MetaTypes
  import opened ByteOrder
  import opened Keys
  import opened KvClient
  import opened ScanPlan
  import opened TaskIndex
  import opened TaskScans
  import opened TaskRows

  class Store {
    const client: Client<Value>

    constructor (client: Client<Value>)
      ensures this.client == client
    {
      this.client := client;
    }

    method GetTaskRecord(id: string) returns (row: Option<Task>)
      ensures row == Find(client.kv, id)
    {
      var key := TaskKey(id);
      if key in client.kv && client.kv[key].Row? { return Some(client.kv[key].task); }
      return None;
    }

    /** Row and index entries in one batch: old keys out, row written, new key in. */
    method WriteBatch(prev: Option<Task>, next: Task, now: int) returns (batch: Ops)
      ensures batch == WriteOps(prev, next, now)
    {
      batch := [];
      if prev.Some? {
        batch := DeleteRunnable(prev.value);
        batch := batch + DeleteTerminal(prev.value);
      }
      batch := batch + [Put(TaskKey(next.id), Row(next))];
      batch := batch + PutRunnable(next, now);
      batch := batch + PutTerminal(next);
    }

    /** Row changed by a single-task operation, or left alone. */
    method Transition(op: TaskOp, row: Option<Task>, next: Option<Task>, now: int)
      requires !op.ClaimTask? && !op.PurgeTerminal?
      requires row == Find(client.kv, op.id) && next == NextRow(op, row, now)
      modifies client
      ensures client.kv == TaskStep(old(client.kv), op, now)
      ensures next.None? || next.value.id == "" ==> client.kv == old(client.kv)
      ensures next.Some? && next.value.id != "" ==> RowsBecome(old(client.kv), client.kv, next.value.id, next)
    {
      if next.None? || next.value.id == "" { return; }
      WriteFinds(client.kv, row, next.value, now);
      var batch := WriteBatch(row, next.value, now);
      client.CommitBatch(batch);
    }

    method EnqueueTieringTask(id: string, objectId: string, version: int, taskType: string, priority: int,
                              scheduledAt: Option<int>, now: int)
      returns (ok: bool)
      modifies client
      ensures ok == (id != "")
      ensures client.kv ==
                TaskStep(old(client.kv), EnqueueTask(id, objectId, version, taskType, priority, scheduledAt), now)
      ensures ok ==> Enqueued(old(client.kv), client.kv, id, objectId, version, taskType, priority,
                              if scheduledAt.Some? then scheduledAt.value else now)
      ensures !ok ==> client.kv == old(client.kv)
    {
      if id == "" { return false; }
      var row := GetTaskRecord(id);
      var next := None;
      if row.None? { next := Some(NewTask(id, objectId, version, taskType, priority, At(scheduledAt, now))); }
      Transition(EnqueueTask(id, objectId, version, taskType, priority, scheduledAt), row, next, now);
      ok := true;
    }

    /** Repair and old-version tasks: a missing one is created, a finished one runs again. */
    method EnqueueOrReviveTask(id: string, objectId: string, version: int, taskType: string, priority: int, now: int)
      returns (changed: bool)
      modifies client
      ensures client.kv == TaskStep(old(client.kv), EnqueueOrRevive(id, objectId, version, taskType, priority), now)
      ensures changed == (Find(old(client.kv), id).None? || Terminal(Find(old(client.kv), id).value))
      ensures OwnsId(old(client.kv), id) ==>
                if Find(old(client.kv), id).None?
                then Enqueued(old(client.kv), client.kv, id, objectId, version, taskType, priority, now)
                else Revived(old(client.kv), client.kv, id, priority, now)
    {
      var row := GetTaskRecord(id);
      var next := None;
      if row.None? {
        next := Some(NewTask(id, objectId, version, taskType, priority, now));
      } else if row.value.state == Done || row.value.state == Failed {
        var t := row.value.(state := Pending, priority := priority, retryCount := 0, lastError := None);
        next := Some(t.(scheduledAt := now, startedAt := None, finishedAt := None));
      }
      Transition(EnqueueOrRevive(id, objectId, version, taskType, priority), row, next, now);
      changed := next.Some?;
    }

    method RequeueTieringTaskNow(id: string, now: int) returns (changed: bool)
      modifies client
      ensures client.kv == TaskStep(old(client.kv), RequeueNow(id), now)
      ensures changed == (id != "" && Find(old(client.kv), id).Some? && Find(old(client.kv), id).value.state != Done)
      ensures OwnsId(old(client.kv), id) ==> Requeued(old(client.kv), client.kv, id, now)
    {
      var row := GetTaskRecord(id);
      var next := None;
      if id != "" && row.Some? && row.value.state != Done {
        var t := row.value.(state := Pending, scheduledAt := now);
        next := Some(t.(startedAt := None, finishedAt := None, lastError := None));
      }
      Transition(RequeueNow(id), row, next, now);
      changed := next.Some?;
    }

    method CancelTieringTask(id: string, reason: string, now: int) returns (changed: bool)
      modifies client
      ensures client.kv == TaskStep(old(client.kv), CancelTask(id, reason), now)
      ensures changed == (id != "" && Find(old(client.kv), id).Some? && !Terminal(Find(old(client.kv), id).value))
      ensures OwnsId(old(client.kv), id) ==> Cancelled(old(client.kv), client.kv, id, reason, now)
    {
      var row := GetTaskRecord(id);
      var next := None;
      if id != "" && row.Some? && row.value.state != Done && row.value.state != Failed {
        var t := row.value.(state := Failed, lastError := Some(if reason == "" then "cancelled_by_admin" else reason));
        next := Some(t.(finishedAt := Some(now)));
      }
      Transition(CancelTask(id, reason), row, next, now);
      changed := next.Some?;
    }

    method MarkTieringTaskDone(id: string, now: int)
      modifies client
      ensures client.kv == TaskStep(old(client.kv), MarkDone(id), now)
      ensures OwnsId(old(client.kv), id) ==> MarkedDone(old(client.kv), client.kv, id, now)
    {
      var row := GetTaskRecord(id);
      var next := if row.None? then None else Some(row.value.(state := Done, finishedAt := Some(now)));
      Transition(MarkDone(id), row, next, now);
    }

    method MarkTieringTaskRetry(id: string, err: string, nextRunAt: Option<int>, now: int)
      modifies client
      ensures client.kv == TaskStep(old(client.kv), MarkRetry(id, err, nextRunAt), now)
      ensures OwnsId(old(client.kv), id) ==>
                MarkedRetry(old(client.kv), client.kv, id, err, if nextRunAt.Some? then nextRunAt.value else now)
    {
      var row := GetTaskRecord(id);
      var next := None;
      if row.Some? {
        var t := row.value.(state := RetryWait, retryCount := row.value.retryCount + 1, lastError := Some(err));
        next := Some(t.(scheduledAt := At(nextRunAt, now), finishedAt := None));
      }
      Transition(MarkRetry(id, err, nextRunAt), row, next, now);
    }

    method MarkTieringTaskFailed(id: string, err: string, now: int)
      modifies client
      ensures client.kv == TaskStep(old(client.kv), MarkFailed(id, err), now)
      ensures OwnsId(old(client.kv), id) ==> MarkedFailed(old(client.kv), client.kv, id, err, now)
    {
      var row := GetTaskRecord(id);
      var message := if err == "" then "failed_without_error_message" else err;
      var next := if row.None? then None
                  else Some(row.value.(state := Failed, lastError := Some(message), finishedAt := Some(now)));
      Transition(MarkFailed(id, err), row, next, now);
    }

    /** The bounded loop both passes share: visit keys in order, gathering one batch.  `cancelled`
        says whether the caller has given up when the loop reaches a key. */
    method FillBatch(keys: seq<string>, visit: string -> Visit, limit: nat, cancelled: nat -> bool)
      returns (batch: Ops, touched: nat, ok: bool)
      ensures ok ==> Scan(batch, touched) == ScanKeys(keys, visit, limit)
      ensures !ok ==> exists i :: 0 <= i < |keys| && cancelled(i)
    {
      batch, touched, ok := [], 0, true;
      var i := 0;
      while i < |keys| && touched < limit
        invariant i <= |keys| && touched <= limit && ScanSplit(keys, visit, limit, i, batch, touched)
      {
        if cancelled(i) { return batch, touched, false; }
        ScanAdvance(keys, visit, limit, i, batch, touched);
        match visit(keys[i]) {
          case Stop => break;
          case Step(ops, counted) =>
            batch := batch + ops;
            if counted { touched := touched + 1; }
        }
        i := i + 1;
      }
    }

    /** One bounded pass over the wait index, committed as one batch. */
    method PromoteDueWaitingTasks(now: int, maxPromote: int) returns (touched: nat)
      modifies client
      ensures client.kv == Promote(old(client.kv), now, maxPromote)
      ensures touched == PromoteScan(old(client.kv), now, maxPromote).touched
      ensures SameRows(old(client.kv), client.kv)
    {
      PromoteKeepsRows(client.kv, now, maxPromote);
      var keys := client.NewPrefixIter(TASK_WAIT);
      var batch, ok;
      batch, touched, ok := FillBatch(keys, PromoteVisit(client.kv, now), PromoteLimit(maxPromote), i => false);
      client.CommitBatch(batch);
    }

    /** Pass over the terminal index removing old history, committed as one batch.  A caller that
        gives up on the way gets an error and nothing is removed. */
    method PurgeTerminalTieringTasks(cutoff: Option<int>, maxPurge: int, now: int, cancelled: nat -> bool)
      returns (purged: nat, ok: bool)
      modifies client
      ensures ok && cutoff.Some? ==>
                && client.kv == Purge(old(client.kv), cutoff.value, now, maxPurge)
                && purged == PurgeScan(old(client.kv), cutoff.value, now, maxPurge).touched
      ensures cutoff.None? ==> ok && purged == 0
      ensures cutoff.None? || !ok ==> client.kv == old(client.kv)
      ensures !ok ==> exists i :: 0 <= i < |PrefixKeys(old(client.kv), TASK_TERMINAL)| && cancelled(i)
    {
      if cutoff.None? { return 0, true; }
      var keys := client.NewPrefixIter(TASK_TERMINAL);
      var batch;
      batch, purged, ok := FillBatch(keys, PurgeVisit(client.kv, cutoff.value, now), PurgeLimit(maxPurge), cancelled);
      if !ok { return; }
      client.CommitBatch(batch);
    }

    /** The transaction that takes a task: it reads the row again and takes it only if it still fits. */
    method TryClaimTask(key: string, indexedType: string, id: string, now: int) returns (task: Option<Task>)
      modifies client
      ensures var row := Find(old(client.kv), id);
              if id != "" && row.Some? && Claimable(row.value, indexedType, now) then
                && task == Some(Claimed(row.value, id, now))
                && client.kv == Apply(old(client.kv), ClaimOps(key, id, Claimed(row.value, id, now)))
              else
                && task.None?
                && client.kv ==
                     if id != "" && TaskKey(id) !in old(client.kv) then old(client.kv) - {key} else old(client.kv)
      ensures task.Some? && IndexKey(key) ==> ClaimedRow(old(client.kv), client.kv, id, task.value, now, indexedType)
      ensures task.None? && IndexKey(key) ==> SameRows(old(client.kv), client.kv)
    {
      if IndexKey(key) { DropKeepsRows(client.kv, key); }
      if id == "" { return None; }
      var txn := new Txn<Value>(client.kv);
      var raw := txn.Get(TaskKey(id));
      if raw.None? {
        txn.Delete(key);
        client.Commit(txn);
        return None;
      }
      if !raw.value.Row? { return None; }
      var rec := raw.value.task;
      if rec.id == "" { rec := rec.(id := id); }
      if rec.taskType != indexedType || !Runnable(rec) || rec.scheduledAt > now { return None; }
      rec := rec.(state := Running, startedAt := Some(now), finishedAt := None, lastError := None);
      txn.Set(TaskKey(id), Row(rec));
      txn.Delete(key);
      txn.Delete(Ready(rec));
      txn.Delete(Wait(rec));
      ApplyFour(client.kv, Put(TaskKey(id), Row(rec)), Del(key), Del(Ready(rec)), Del(Wait(rec)));
      if IndexKey(key) { ClaimFinds(client.kv, key, id, rec); }
      client.Commit(txn);
      task := Some(rec);
    }

    method ClaimFromReadyIndex(now: int, taskType: string) returns (task: Option<Task>)
      modifies client
      ensures Claim(client.kv, task) == ClaimScan(old(client.kv), PrefixKeys(old(client.kv), TASK_READY), now, taskType)
      ensures task.Some? ==> exists id :: ClaimedRow(old(client.kv), client.kv, id, task.value, now, taskType)
      ensures task.None? ==> SameRows(old(client.kv), client.kv)
    {
      var keys := client.NewPrefixIter(TASK_READY);
      ClaimScanSound(client.kv, keys, now, taskType);
      for i := 0 to |keys|
        invariant ClaimScan(client.kv, keys[i..], now, taskType) == ClaimScan(old(client.kv), keys, now, taskType)
      {
        var key := keys[i];
        assert keys[i..][1..] == keys[i + 1..];
        var e := ParseReady(key);
        if e.None? {
          client.kv := client.kv - {key};
          continue;
        }
        if taskType != "" && e.value.taskType != taskType { continue; }
        var row := GetTaskRecord(e.value.id);
        if row.None? {
          client.kv := client.kv - {key};
          continue;
        }
        if row.value.taskType != e.value.taskType || !Runnable(row.value) || row.value.scheduledAt > now {
          client.CommitBatch(ReindexOps(row.value, now));
          continue;
        }
        task := TryClaimTask(key, e.value.taskType, e.value.id, now);
        return;
      }
      task := None;
    }

    /** One promotion round: whether it filled its limit, and what is then left of the plan. */
    method PromoteRound(now: int, limit: nat, ghost left: nat, ghost rest: nat, adaptiveMax: nat, ghost goal: Kv)
      returns (filled: bool, next: nat)
      requires limit > 0 && left == rest + 1 && RoundsTo(client.kv, now, limit, left, adaptiveMax, goal)
      modifies client
      ensures next > 0
      ensures !filled ==> client.kv == goal
      ensures filled ==> RoundsTo(client.kv, now, next, rest, adaptiveMax, goal)
    {
      ghost var after, next', rest', filled' := RoundUnfolds(client.kv, now, limit, left, adaptiveMax, goal);
      var promoted := PromoteDueWaitingTasks(now, limit);
      filled := promoted >= limit;
      next := DoubledLimit(limit, adaptiveMax);
      assert client.kv == after && next == next' && rest == rest' && filled == filled';
    }

    /** Rounds of promotion with a doubling limit, until a round does not fill its limit. */
    method PromoteWithPlan(plan: Plan, now: int)
      requires plan.base > 0
      modifies client
      ensures client.kv == PromoteRounds(old(client.kv), now, plan.base, plan.rounds, plan.adaptiveMax)
      ensures SameRows(old(client.kv), client.kv)
    {
      var limit, left := plan.base, plan.rounds;
      ghost var goal := PromoteRounds(client.kv, now, plan.base, plan.rounds, plan.adaptiveMax);
      RoundsKeepRows(client.kv, now, plan.base, plan.rounds, plan.adaptiveMax, goal);
      while left > 0
        invariant limit > 0 && RoundsTo(client.kv, now, limit, left, plan.adaptiveMax, goal)
      {
        var rest := left - 1;
        var filled, next := PromoteRound(now, limit, left, rest, plan.adaptiveMax, goal);
        if !filled { return; }
        limit, left := next, rest;
      }
    }

    method ClaimNextTieringTask(taskType: string, base: int, rounds: int, adaptiveMax: int, now: int)
      returns (task: Option<Task>)
      modifies client
      ensures var plan := ResolvePlan(base, rounds, adaptiveMax, 256);
              Claim(client.kv, task) ==
                ClaimNext(old(client.kv), now, taskType, plan.base, plan.rounds, plan.adaptiveMax)
      ensures task.Some? ==> exists id :: ClaimedRow(old(client.kv), client.kv, id, task.value, now, taskType)
      ensures task.None? ==> SameRows(old(client.kv), client.kv)
    {
      ghost var before := client.kv;
      var plan := ResolvePlan(base, rounds, adaptiveMax, 256);
      PromoteWithPlan(plan, now);
      ghost var promoted := client.kv;
      task := ClaimFromReadyIndex(now, taskType);
      SoundFrom(before, promoted, Claim(client.kv, task), now, taskType);
    }
  }
}
