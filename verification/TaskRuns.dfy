/** Purge of terminal history, and coherence of the task store over whole runs. */
module TaskRuns {
  import opened MetaTypes
  import opened ByteOrder
  import opened Keys
  import opened KvClient
  import opened Int64
  import opened ScanPlan
  import opened TaskIndex
  import opened TaskScans
  import opened TaskRows
  import opened TaskQueue

  // ---- purge ----

  ghost function TerminalSet(kv: Kv): set<string> { set k | k in kv && HasPrefix(k, TASK_TERMINAL) }

  /** A terminal row whose key is among `gone` has been removed; any other row is as it was. */
  ghost predicate PurgedRow(kv: Kv, after: Kv, gone: set<string>, id: string) {
    var t := Find(kv, id);
    if t.Some? && Terminal(t.value) && TerminalKeys(t.value) <= gone then TaskKey(id) !in after
    else SameRow(kv, after, id)
  }

  /** What purging the first n listed terminal keys leaves behind. */
  ghost predicate Purged(kv: Kv, after: Kv, keys: seq<string>, n: nat, now: int) {
    n <= |keys| && Coherent(after, now) && forall id :: PurgedRow(kv, after, First(keys, n), id)
  }

  lemma PurgeOneApply(kv: Kv, cur: Kv, k: string, t: Task, cutoff: int, now: int)
    requires EntryOf(kv, k, ParseTerminal(k), t) && Terminal(t) && t.finishedAt.Some? && k == Term(t)
    requires t.finishedAt.value <= cutoff
    ensures PurgeOne(kv, k, cutoff, now).Step? && PurgeOne(kv, k, cutoff, now).counted
    ensures Apply(cur, PurgeOne(kv, k, cutoff, now).ops) == RemoveRow(cur, t)
  {
    var a, b, c, d: Ops := [Del(k)], DeleteRunnable(t), DeleteTerminal(t), [Del(TaskKey(t.id))];
    ApplyAppend(cur, a, b + c + d);
    ApplyOne(cur, Del(k));
    ApplyAppend(cur - {k}, b + c, d); ApplyAppend(cur - {k}, b, c);
    ApplyDeletes(cur - {k}, t); ApplyDeletes(cur - {k} - RunnableKeys(t), t);
    ApplyOne(cur - {k} - RunnableKeys(t) - TerminalKeys(t), Del(TaskKey(t.id)));
    assert cur - {k} - RunnableKeys(t) - TerminalKeys(t) == cur - AllKeys(t);
  }

  lemma RemoveRows(kv: Kv, t: Task, id: string)
    requires WellFormed(t) && id != t.id
    ensures SameRow(kv, RemoveRow(kv, t), id)
  {
    OwnKeys(t, id);
    if TaskKey(id) == TaskKey(t.id) { TaskKeyInjective(id, t.id); }
  }

  lemma OtherTerm(kv: Kv, t: Task, id: string, now: int)
    requires Coherent(kv, now) && WellFormed(t) && t.finishedAt.Some? && id != t.id
    ensures Find(kv, id).Some? ==> Term(t) !in TerminalKeys(Find(kv, id).value)
  {
    assert RowOk(kv, id);
    if Find(kv, id).Some? { KeysApart(Find(kv, id).value, t); }
  }

  lemma PurgedStep(kv: Kv, cur: Kv, keys: seq<string>, n: nat, cutoff: int, now: int)
    requires Coherent(kv, now) && Purged(kv, cur, keys, n, now)
    requires Lists(keys, TerminalSet(kv)) && n < |keys| && OldTerminal(keys[n], cutoff)
    ensures PurgeOne(kv, keys[n], cutoff, now).Step? && PurgeOne(kv, keys[n], cutoff, now).counted
    ensures Purged(kv, Apply(cur, PurgeOne(kv, keys[n], cutoff, now).ops), keys, n + 1, now)
  {
    var k := keys[n];
    assert k in TerminalSet(kv);
    var t := TerminalKeyRow(kv, k, now);
    NotAmongFirst(keys, n);
    PurgeOneApply(kv, cur, k, t, cutoff, now);
    assert k in TerminalKeys(t);
    assert PurgedRow(kv, cur, First(keys, n), t.id);
    RemoveKeeps(cur, t, now);
    var after := RemoveRow(cur, t);
    var gone := First(keys, n + 1);
    forall id ensures PurgedRow(kv, after, gone, id) {
      if id != t.id {
        assert PurgedRow(kv, cur, First(keys, n), id);
        OtherTerm(kv, t, id, now);
        RemoveRows(cur, t, id);
      }
    }
  }

  lemma PurgeRemoves(kv: Kv, k: string, cutoff: int, now: int)
    requires Coherent(kv, now) && k in TerminalSet(kv) && OldTerminal(k, cutoff)
    ensures PurgeOne(kv, k, cutoff, now).Step? && PurgeOne(kv, k, cutoff, now).counted
  {
    var t := TerminalKeyRow(kv, k, now);
    PurgeOneApply(kv, kv, k, t, cutoff, now);
  }

  lemma PurgeStart(kv: Kv, keys: seq<string>, now: int)
    requires Coherent(kv, now)
    ensures Purged(kv, kv, keys, 0, now)
  {
    var none := First(keys, 0);
    forall id ensures PurgedRow(kv, kv, none, id) { assert RowOk(kv, id); }
  }

  lemma PurgeVisitStep(kv: Kv, cur: Kv, keys: seq<string>, n: nat, cutoff: int, now: int, visit: string -> Visit)
    requires Coherent(kv, now) && Purged(kv, cur, keys, n, now)
    requires Lists(keys, TerminalSet(kv)) && n < |keys| && visit == PurgeVisit(kv, cutoff, now) && visit(keys[n]).Step?
    ensures visit(keys[n]).counted && Purged(kv, Apply(cur, visit(keys[n]).ops), keys, n + 1, now)
  {
    PurgedStep(kv, cur, keys, n, cutoff, now);
  }

  /** The purge as a scan each of whose steps purges one more key. */
  lemma PurgeSteps(kv: Kv, cutoff: int, now: int, limit: int, keys: seq<string>) returns (visit: string -> Visit)
    requires Coherent(kv, now) && keys == PrefixKeys(kv, TASK_TERMINAL)
    ensures PurgeScan(kv, cutoff, now, limit) == ScanKeys(keys, visit, PurgeLimit(limit))
    ensures forall c, i: nat :: Purged(kv, c, keys, i, now) && i < |keys| && visit(keys[i]).Step? ==>
              visit(keys[i]).counted && Purged(kv, Apply(c, visit(keys[i]).ops), keys, i + 1, now)
  {
    visit := PurgeVisit(kv, cutoff, now);
    var v := visit;
    forall c, i: nat | Purged(kv, c, keys, i, now) && i < |keys| && v(keys[i]).Step?
      ensures v(keys[i]).counted && Purged(kv, Apply(c, v(keys[i]).ops), keys, i + 1, now)
    {
      PurgeVisitStep(kv, c, keys, i, cutoff, now, v);
    }
  }

  lemma PurgeMoves(kv: Kv, cutoff: int, now: int, limit: int)
    requires Coherent(kv, now)
    ensures Purged(kv, Purge(kv, cutoff, now, limit), PrefixKeys(kv, TASK_TERMINAL),
                   PurgeScan(kv, cutoff, now, limit).touched, now)
  {
    var keys := PrefixKeys(kv, TASK_TERMINAL);
    var visit := PurgeSteps(kv, cutoff, now, limit, keys);
    PurgeStart(kv, keys, now);
    ScanInduction(kv, keys, 0, visit, PurgeLimit(limit), (c: Kv, i: nat) => Purged(kv, c, keys, i, now));
    assert keys[0..] == keys;
  }

  /** The purge as a scan that counts every key it does not stop at. */
  lemma PurgeCounts(kv: Kv, cutoff: int, now: int, limit: int) returns (visit: string -> Visit)
    requires Coherent(kv, now)
    ensures PurgeScan(kv, cutoff, now, limit) == ScanKeys(PrefixKeys(kv, TASK_TERMINAL), visit, PurgeLimit(limit))
    ensures forall k :: k in PrefixKeys(kv, TASK_TERMINAL) ==>
              (visit(k).Step? <==> OldTerminal(k, cutoff)) && (visit(k).Step? ==> visit(k).counted)
  {
    visit := PurgeVisit(kv, cutoff, now);
    forall k | k in PrefixKeys(kv, TASK_TERMINAL)
      ensures (visit(k).Step? <==> OldTerminal(k, cutoff)) && (visit(k).Step? ==> visit(k).counted)
    {
      assert k in TerminalSet(kv);
      if OldTerminal(k, cutoff) { PurgeRemoves(kv, k, cutoff, now); }
    }
  }

  lemma PurgeStops(kv: Kv, cutoff: int, now: int, limit: int)
    requires Coherent(kv, now)
    ensures var keys := PrefixKeys(kv, TASK_TERMINAL);
            var n := PurgeScan(kv, cutoff, now, limit).touched;
            && n <= |keys| && n <= PurgeLimit(limit)
            && (forall i :: 0 <= i < n ==> OldTerminal(keys[i], cutoff))
            && (n < PurgeLimit(limit) && n < |keys| ==> !OldTerminal(keys[n], cutoff))
  {
    var keys := PrefixKeys(kv, TASK_TERMINAL);
    var visit := PurgeCounts(kv, cutoff, now, limit);
    ScanStops(keys, visit, PurgeLimit(limit));
  }

  lemma TerminalLeft(kv: Kv, after: Kv, gone: set<string>, now: int)
    requires Coherent(kv, now) && Coherent(after, now) && forall id :: PurgedRow(kv, after, gone, id)
    ensures TerminalSet(after) == TerminalSet(kv) - gone
  {
    forall k | k in TerminalSet(after) ensures k in TerminalSet(kv) - gone {
      var t := TerminalKeyRow(after, k, now);
      assert PurgedRow(kv, after, gone, t.id) && RowOk(kv, t.id);
    }
    forall k | k in TerminalSet(kv) - gone ensures k in TerminalSet(after) {
      var t := TerminalKeyRow(kv, k, now);
      assert k in TerminalKeys(t);
      assert PurgedRow(kv, after, gone, t.id) && RowOk(after, t.id);
    }
  }

  ghost predicate TerminalRow(kv: Kv, t: Task) { Find(kv, t.id) == Some(t) && Terminal(t) && t.finishedAt.Some? }

  /** Where the terminal key of a row stands among the listed keys. */
  lemma TermIndex(kv: Kv, t: Task, keys: seq<string>, now: int) returns (i: nat)
    requires Coherent(kv, now) && TerminalRow(kv, t) && Lists(keys, TerminalSet(kv))
    ensures WellFormed(t) && i < |keys| && keys[i] == Term(t)
    ensures forall cutoff :: OldTerminal(keys[i], cutoff) <==> t.finishedAt.value <= cutoff
  {
    assert RowOk(kv, t.id);
    KeyFamilies(t);
    assert Term(t) in TerminalSet(kv);
    i :| 0 <= i < |keys| && keys[i] == Term(t);
  }

  /** A row goes exactly when its terminal key is among the purged keys. */
  lemma GoneRow(kv: Kv, after: Kv, keys: seq<string>, n: nat, now: int, t: Task)
    requires Coherent(kv, now) && Purged(kv, after, keys, n, now) && Find(kv, t.id) == Some(t)
    ensures Find(after, t.id) == Some(t) || Find(after, t.id).None?
    ensures Find(after, t.id).None? <==> TerminalRow(kv, t) && Term(t) in First(keys, n)
  {
    assert PurgedRow(kv, after, First(keys, n), t.id) && RowOk(kv, t.id);
    assert TerminalKeys(t) == if t.finishedAt.Some? then {Term(t)} else {};
  }

  lemma FirstIndex(keys: seq<string>, n: nat, i: nat)
    requires StrictlySorted(keys) && n <= |keys| && i < |keys|
    ensures keys[i] in First(keys, n) <==> i < n
  {
    if i < n { assert keys[..n][i] == keys[i]; }
    if keys[i] in First(keys, n) {
      var j :| 0 <= j < n && keys[..n][j] == keys[i];
      LessIrreflexive(keys[i]);
    }
  }

  /** Purged rows finished by the cutoff, before every terminal row that stays. */
  lemma PurgedFirst(kv: Kv, after: Kv, keys: seq<string>, n: nat, now: int, t: Task, u: Task)
    requires Coherent(kv, now) && Purged(kv, after, keys, n, now) && Lists(keys, TerminalSet(kv))
    requires TerminalRow(kv, t) && Find(after, t.id).None? && TerminalRow(kv, u) && Find(after, u.id).Some?
    ensures t.finishedAt.value <= u.finishedAt.value
  {
    GoneRow(kv, after, keys, n, now, t); GoneRow(kv, after, keys, n, now, u);
    var i := TermIndex(kv, t, keys, now);
    var j := TermIndex(kv, u, keys, now);
    FirstIndex(keys, n, i); FirstIndex(keys, n, j);
    assert Less(keys[i], keys[j]);
    TerminalOrder(t.finishedAt.value, t.id, u.finishedAt.value, u.id);
  }

  lemma PurgedOld(kv: Kv, after: Kv, keys: seq<string>, n: nat, cutoff: int, now: int, t: Task)
    requires Coherent(kv, now) && Purged(kv, after, keys, n, now) && Lists(keys, TerminalSet(kv))
    requires forall i :: 0 <= i < n ==> OldTerminal(keys[i], cutoff)
    requires Find(kv, t.id) == Some(t)
    ensures Find(after, t.id).None? ==> TerminalRow(kv, t) && t.finishedAt.value <= cutoff
    ensures (n == |keys| || !OldTerminal(keys[n], cutoff)) && TerminalRow(kv, t) && Find(after, t.id).Some? ==>
              t.finishedAt.value > cutoff
  {
    GoneRow(kv, after, keys, n, now, t);
    if TerminalRow(kv, t) {
      var i := TermIndex(kv, t, keys, now);
      FirstIndex(keys, n, i);
      if n < i {
        assert keys[n] in TerminalSet(kv);
        var u := TerminalKeyRow(kv, keys[n], now);
        assert Less(keys[n], keys[i]);
        TerminalOrder(u.finishedAt.value, u.id, t.finishedAt.value, t.id);
      }
    }
  }

  /** Purge of terminal history: it removes only terminal rows finished by the cutoff, oldest first,
      as many as it reports, and all of them when it reports fewer than the limit. */
  lemma PurgeExact(kv: Kv, cutoff: int, now: int, limit: int, t: Task, u: Task)
    requires Coherent(kv, now) && Find(kv, t.id) == Some(t) && Find(kv, u.id) == Some(u)
    ensures var after, n := Purge(kv, cutoff, now, limit), PurgeScan(kv, cutoff, now, limit).touched;
            && n <= PurgeLimit(limit) && |TerminalSet(after)| == |TerminalSet(kv)| - n
            && (Find(after, t.id) == Some(t) || Find(after, t.id).None?)
            && (Find(after, t.id).None? ==> TerminalRow(kv, t) && t.finishedAt.value <= cutoff)
            && (n < PurgeLimit(limit) && TerminalRow(kv, t) && t.finishedAt.value <= cutoff ==> Find(after, t.id).None?)
            && (Find(after, t.id).None? && TerminalRow(kv, u) && Find(after, u.id).Some? ==>
                  t.finishedAt.value <= u.finishedAt.value)
  {
    var after, n := Purge(kv, cutoff, now, limit), PurgeScan(kv, cutoff, now, limit).touched;
    var keys := PrefixKeys(kv, TASK_TERMINAL);
    PurgeMoves(kv, cutoff, now, limit);
    PurgeStops(kv, cutoff, now, limit);
    TerminalLeft(kv, after, First(keys, n), now);
    FirstCount(keys, n);
    forall k | k in First(keys, n) ensures k in TerminalSet(kv) { assert k in keys; }
    GoneRow(kv, after, keys, n, now, t);
    PurgedOld(kv, after, keys, n, cutoff, now, t);
    if TerminalRow(kv, t) && Find(after, t.id).None? && TerminalRow(kv, u) && Find(after, u.id).Some? {
      PurgedFirst(kv, after, keys, n, now, t, u);
    }
  }

  // ---- every operation, over whole runs ----

  ghost predicate TimeOk(at: int) { 0 <= at <= MAX_INT64 }

  /** Inputs: times that fit the key encoding, and task types without a slash. */
  ghost predicate OpOk(op: TaskOp, now: int) {
    && TimeOk(now)
    && match op
       case EnqueueTask(_, _, _, taskType, _, at) => SlashFree(taskType) && TimeOk(At(at, now))
       case EnqueueOrRevive(_, _, _, taskType, _) => SlashFree(taskType)
       case MarkRetry(_, _, at) => TimeOk(At(at, now))
       case _ => true
  }

  lemma NextRowWellFormed(op: TaskOp, row: Option<Task>, now: int)
    requires OpOk(op, now) && !op.ClaimTask? && !op.PurgeTerminal?
    requires row.Some? ==> row.value.id == op.id && WellFormed(row.value)
    ensures NextRow(op, row, now).Some? ==> NextRow(op, row, now).value.id == op.id
    ensures NextRow(op, row, now).Some? && op.id != "" ==> WellFormed(NextRow(op, row, now).value)
  {
  }

  lemma WriteStepKeeps(kv: Kv, op: TaskOp, now: int)
    requires Coherent(kv, now) && OpOk(op, now) && !op.ClaimTask? && !op.PurgeTerminal?
    ensures Coherent(TaskStep(kv, op, now), now)
  {
    var prev := Find(kv, op.id);
    assert RowOk(kv, op.id);
    NextRowWellFormed(op, prev, now);
    var next := NextRow(op, prev, now);
    if next.Some? && next.value.id != "" {
      ApplyWrite(kv, prev, next.value, now);
      WriteKeeps(kv, next.value, now);
    }
  }

  lemma TakeKeeps(kv: Kv, t: Task, now: int)
    requires Coherent(kv, now) && Find(kv, t.id) == Some(t)
    ensures Coherent(WriteRow(kv, Some(t), Claimed(t, t.id, now), now), now)
  {
    assert RowOk(kv, t.id);
    WriteKeeps(kv, Claimed(t, t.id, now), now);
  }

  /** A write changes the row it names and no other. */
  lemma WriteRows(kv: Kv, prev: Option<Task>, next: Task, now: int, id: string)
    requires WellFormed(next) && (prev.Some? ==> WellFormed(prev.value))
    ensures var after := WriteRow(kv, prev, next, now);
            if id == next.id then Find(after, id) == Some(next) else SameRow(kv, after, id)
  {
    OwnKeys(next, id);
    AllowedOwn(next, now);
    if prev.Some? { OwnKeys(prev.value, id); }
    if TaskKey(id) == TaskKey(next.id) { TaskKeyInjective(id, next.id); }
  }

  lemma TakeRows(kv: Kv, t: Task, now: int, id: string)
    requires WellFormed(t)
    ensures var after := WriteRow(kv, Some(t), Claimed(t, t.id, now), now);
            if id == t.id then Find(after, id) == Some(Claimed(t, id, now)) else SameRow(kv, after, id)
  {
    WriteRows(kv, Some(t), Claimed(t, t.id, now), now, id);
  }

  lemma CoherentOwns(kv: Kv, now: int, id: string)
    requires Coherent(kv, now) && id != ""
    ensures OwnsId(kv, id)
  {
    assert RowOk(kv, id);
  }

  /** Enqueueing a task id again changes nothing. */
  lemma EnqueueIdempotent(kv: Kv, op: TaskOp, again: TaskOp, now: int, later: int)
    requires Coherent(kv, now) && OpOk(op, now) && op.EnqueueTask? && again.EnqueueTask? && again.id == op.id
    ensures TaskStep(TaskStep(kv, op, now), again, later) == TaskStep(kv, op, now)
    ensures Find(kv, op.id).Some? ==> TaskStep(kv, op, now) == kv
    ensures Find(kv, op.id).None? && op.id != "" ==>
              Find(TaskStep(kv, op, now), op.id) ==
                Some(Task(op.id, op.objectId, op.version, op.taskType, Pending, op.priority, 0, None,
                          if op.scheduledAt.Some? then op.scheduledAt.value else now, None, None))
  {
    if op.id != "" {
      CoherentOwns(kv, now, op.id);
      StepRows(kv, op, now);
    }
  }

  /** A cancelled task put back in the queue is the task it was, pending and due now. */
  lemma CancelThenRequeue(kv: Kv, id: string, reason: string, now: int, later: int, t: Task)
    requires Coherent(kv, now) && TimeOk(now) && now <= later && TimeOk(later)
    requires Find(kv, id) == Some(t) && !Terminal(t) && id != ""
    ensures var cancelled := TaskStep(kv, CancelTask(id, reason), now);
            && Find(cancelled, id).Some? && Find(cancelled, id).value.state == Failed
            && Find(cancelled, id).value.finishedAt == Some(now)
            && Find(TaskStep(cancelled, RequeueNow(id), later), id) ==
               Some(t.(state := Pending, scheduledAt := later, startedAt := None, finishedAt := None,
                       lastError := None))
  {
    var cancelled := TaskStep(kv, CancelTask(id, reason), now);
    CoherentOwns(kv, now, id);
    StepRows(kv, CancelTask(id, reason), now);
    WriteStepKeeps(kv, CancelTask(id, reason), now);
    CoherentLater(cancelled, now, later);
    CoherentOwns(cancelled, later, id);
    StepRows(cancelled, RequeueNow(id), later);
  }

  lemma ClaimKeeps(kv: Kv, now: int, taskType: string, plan: Plan)
    requires Coherent(kv, now) && plan.base > 0
    ensures Coherent(ClaimNext(kv, now, taskType, plan.base, plan.rounds, plan.adaptiveMax).kv, now)
  {
    var after := PromoteRounds(kv, now, plan.base, plan.rounds, plan.adaptiveMax);
    RoundsDrain(kv, now, plan.base, plan.rounds, plan.adaptiveMax);
    var t := ClaimAfterPromotion(after, now, taskType);
    if t.Some? { TakeKeeps(after, t.value, now); }
  }

  /** A claim changes exactly the row it returns. */
  lemma ClaimRows(kv: Kv, now: int, taskType: string, plan: Plan, id: string)
    requires Coherent(kv, now) && plan.base > 0
    ensures var c := ClaimNext(kv, now, taskType, plan.base, plan.rounds, plan.adaptiveMax);
            if c.task.Some? && c.task.value.id == id then Find(c.kv, id) == c.task else SameRow(kv, c.kv, id)
  {
    var after := PromoteRounds(kv, now, plan.base, plan.rounds, plan.adaptiveMax);
    RoundsDrain(kv, now, plan.base, plan.rounds, plan.adaptiveMax);
    assert SameRow(kv, after, id);
    var t := ClaimAfterPromotion(after, now, taskType);
    if t.Some? {
      assert RowOk(after, t.value.id);
      TakeRows(after, t.value, now, id);
    }
  }

  lemma TaskStepKeeps(kv: Kv, op: TaskOp, now: int)
    requires Coherent(kv, now) && OpOk(op, now) && (op.ClaimTask? ==> op.plan.base > 0)
    ensures Coherent(TaskStep(kv, op, now), now)
  {
    match op
    case ClaimTask(taskType, plan) => ClaimKeeps(kv, now, taskType, plan);
    case PurgeTerminal(cutoff, limit) => if cutoff.Some? { PurgeMoves(kv, cutoff.value, now, limit); }
    case _ => WriteStepKeeps(kv, op, now);
  }

  datatype Event = Event(op: TaskOp, now: int)

  ghost predicate Clocked(run: seq<Event>) {
    && (forall i :: 0 <= i < |run| ==>
          OpOk(run[i].op, run[i].now) && (run[i].op.ClaimTask? ==> run[i].op.plan.base > 0))
    && (forall i, j :: 0 <= i < j < |run| ==> run[i].now <= run[j].now)
  }

  ghost function Run(run: seq<Event>): Kv {
    if |run| == 0 then map[] else TaskStep(Run(run[..|run| - 1]), run[|run| - 1].op, run[|run| - 1].now)
  }

  /** Every run of task operations on a store that starts empty keeps index and table coherent. */
  lemma {:induction false} RunCoherent(run: seq<Event>, now: int)
    requires Clocked(run) && (|run| > 0 ==> run[|run| - 1].now <= now)
    ensures Coherent(Run(run), now)
  {
    if |run| > 0 {
      var last := run[|run| - 1];
      RunCoherent(run[..|run| - 1], last.now);
      TaskStepKeeps(Run(run[..|run| - 1]), last.op, last.now);
      CoherentLater(Run(run), last.now, now);
    }
  }

  /** So in every reachable state each task has exactly the index keys its state calls for. */
  lemma RunIndexExact(run: seq<Event>, now: int, id: string)
    requires Clocked(run) && (|run| > 0 ==> run[|run| - 1].now <= now)
    ensures EntriesExact(Run(run), now, id) && EntriesNameRows(Run(run))
  {
    RunCoherent(run, now);
    IndexExact(Run(run), now, id);
  }

  /** The self-heal of a row met under a ready key it does not match keeps coherence. */
  lemma HealKeeps(kv: Kv, t: Task, now: int)
    requires Coherent(kv, now) && Find(kv, t.id) == Some(t)
    ensures Coherent(Apply(kv, ReindexOps(t, now)), now)
  {
    assert RowOk(kv, t.id);
    ApplyReindex(kv, t, now);
    ReindexKeeps(kv, t, now);
  }

  // ---- the claim on any store, coherent or not ----

  /** Whatever the index contains, a claimed task was a runnable, due row of the requested type; it
      is returned and stored as taken, and no other row changes. */
  lemma ClaimSound(kv: Kv, now: int, taskType: string, limit: nat, rounds: nat, adaptiveMax: nat)
    ensures Sound(kv, ClaimNext(kv, now, taskType, limit, rounds, adaptiveMax), now, taskType)
  {
    var after := PromoteRounds(kv, now, limit, rounds, adaptiveMax);
    RoundsKeepRows(kv, now, limit, rounds, adaptiveMax, after);
    ClaimScanSound(after, PrefixKeys(after, TASK_READY), now, taskType);
    SoundFrom(kv, after, ClaimNext(kv, now, taskType, limit, rounds, adaptiveMax), now, taskType);
  }

  // ---- where rows come from ----

  /** The same work: object, version and type. */
  predicate SameWork(t: Task, u: Task) {
    t.id == u.id && t.objectId == u.objectId && t.version == u.version && t.taskType == u.taskType
  }

  /** The operation enqueues this work. */
  predicate Asks(op: TaskOp, t: Task) {
    && (op.EnqueueTask? || op.EnqueueOrRevive?) && op.id == t.id
    && op.objectId == t.objectId && op.version == t.version && op.taskType == t.taskType
  }

  /** The row of the id, if there is one afterwards, is for the same work as before or as asked. */
  ghost predicate Origin(kv: Kv, kv': Kv, op: TaskOp, id: string) {
    Find(kv', id).Some? ==>
      || Asks(op, Find(kv', id).value)
      || (Find(kv, id).Some? && SameWork(Find(kv, id).value, Find(kv', id).value))
  }

  lemma OutsideOrigin(kv: Kv, op: TaskOp, now: int, id: string)
    requires op.EnqueueTask? || op.EnqueueOrRevive? || op.RequeueNow? || op.CancelTask?
    requires OwnsId(kv, op.id)
    ensures Origin(kv, TaskStep(kv, op, now), op, id)
  {
    StepRows(kv, op, now);
  }

  lemma MarkOrigin(kv: Kv, op: TaskOp, now: int, id: string)
    requires (op.MarkDone? || op.MarkRetry? || op.MarkFailed?) && OwnsId(kv, op.id)
    ensures Origin(kv, TaskStep(kv, op, now), op, id)
  {
    MarkRows(kv, op, now);
  }

  lemma ClaimOrigin(kv: Kv, op: TaskOp, now: int, id: string)
    requires op.ClaimTask? && (Find(kv, id).Some? ==> Find(kv, id).value.id == id) && id != ""
    ensures Origin(kv, TaskStep(kv, op, now), op, id)
  {
    var c := ClaimNext(kv, now, op.taskType, op.plan.base, op.plan.rounds, op.plan.adaptiveMax);
    ClaimSound(kv, now, op.taskType, op.plan.base, op.plan.rounds, op.plan.adaptiveMax);
    if c.task.Some? {
      var taken :| ClaimedRow(kv, c.kv, taken, c.task.value, now, op.taskType);
      assert Find(c.kv, id) == if id == taken then c.task else Find(kv, id);
    } else {
      SameFind(kv, c.kv, id);
    }
  }

  lemma PurgeOrigin(kv: Kv, op: TaskOp, now: int, id: string)
    requires Coherent(kv, now) && op.PurgeTerminal?
    ensures Origin(kv, TaskStep(kv, op, now), op, id)
  {
    if op.cutoff.Some? {
      PurgeMoves(kv, op.cutoff.value, now, op.limit);
      var keys, n := PrefixKeys(kv, TASK_TERMINAL), PurgeScan(kv, op.cutoff.value, now, op.limit).touched;
      assert PurgedRow(kv, TaskStep(kv, op, now), First(keys, n), id);
    }
  }

  lemma StepOrigin(kv: Kv, op: TaskOp, now: int, id: string)
    requires Coherent(kv, now) && id != ""
    ensures Origin(kv, TaskStep(kv, op, now), op, id)
  {
    CoherentOwns(kv, now, id);
    match op
    case ClaimTask(_, _) => ClaimOrigin(kv, op, now, id);
    case PurgeTerminal(_, _) => PurgeOrigin(kv, op, now, id);
    case _ =>
      if op.id != "" {
        CoherentOwns(kv, now, op.id);
        if op.MarkDone? || op.MarkRetry? || op.MarkFailed? { MarkOrigin(kv, op, now, id); }
        else { OutsideOrigin(kv, op, now, id); }
      } else {
        assert RowOk(kv, "");
      }
  }

  ghost predicate AskedAt(run: seq<Event>, i: nat, t: Task) { i < |run| && Asks(run[i].op, t) }

  /** Over every run, each row stands for work some operation asked for: no step ever turns a task
      into one for another object, version or type. */
  lemma {:induction false} RowsWereAskedFor(run: seq<Event>, t: Task)
    requires Clocked(run) && Find(Run(run), t.id) == Some(t)
    ensures exists i :: AskedAt(run, i, t)
  {
    if |run| > 0 {
      var n := |run| - 1;
      var before, last := run[..n], run[n];
      RunCoherent(before, last.now);
      RunCoherent(run, last.now);
      assert RowOk(Run(run), t.id);
      StepOrigin(Run(before), last.op, last.now, t.id);
      if Asks(last.op, t) {
        assert AskedAt(run, n, t);
      } else {
        var u := Find(Run(before), t.id).value;
        RowsWereAskedFor(before, u);
        var i: nat :| AskedAt(before, i, u);
        assert AskedAt(run, i, t);
      }
    }
  }
}
