/** The batches the task store commits, and the scans over the wait, ready and terminal indexes. */
module TaskScans {
  import opened MetaTypes
  import opened ByteOrder
  import opened Keys
  import opened KvClient
  import opened ScanPlan
  import opened TaskIndex

  type Ops = seq<Op<Value>>

  // ---- batch fragments ----

  function DeleteRunnable(t: Task): Ops { if t.id == "" then [] else [Del(Ready(t)), Del(Wait(t))] }

  function DeleteTerminal(t: Task): Ops { if t.id == "" || t.finishedAt.None? then [] else [Del(Term(t))] }

  function PutRunnable(t: Task, now: int): Ops {
    if t.id == "" || !Runnable(t) then []
    else [Put(if t.scheduledAt > now then Wait(t) else Ready(t), Marker)]
  }

  function PutTerminal(t: Task): Ops {
    if t.id == "" || !Terminal(t) || t.finishedAt.None? then [] else [Put(Term(t), Marker)]
  }

  function ReindexOps(t: Task, now: int): Ops {
    DeleteRunnable(t) + DeleteTerminal(t) + PutRunnable(t, now) + PutTerminal(t)
  }

  function WriteOps(prev: Option<Task>, next: Task, now: int): Ops {
    (if prev.Some? then DeleteRunnable(prev.value) + DeleteTerminal(prev.value) else []) +
    [Put(TaskKey(next.id), Row(next))] + PutRunnable(next, now) + PutTerminal(next)
  }

  lemma ApplyOne(kv: Kv, op: Op<Value>)
    ensures Apply(kv, [op]) == ApplyOp(kv, op)
  {
    assert [op][..0] == [];
  }

  lemma ApplyFour(kv: Kv, a: Op<Value>, b: Op<Value>, c: Op<Value>, d: Op<Value>)
    ensures Apply(kv, [a, b, c, d]) == ApplyOp(ApplyOp(ApplyOp(ApplyOp(kv, a), b), c), d)
  {
    assert [a, b, c, d] == [a, b, c] + [d] && [a, b, c] == [a, b] + [c] && [a, b] == [a] + [b];
    ApplyAppend(kv, [a, b, c], [d]); ApplyAppend(kv, [a, b], [c]); ApplyAppend(kv, [a], [b]);
    ApplyOne(kv, a);
    var kv1 := ApplyOp(kv, a);
    ApplyOne(kv1, b);
    var kv2 := ApplyOp(kv1, b);
    ApplyOne(kv2, c);
    ApplyOne(ApplyOp(kv2, c), d);
  }

  lemma ApplyDeletes(kv: Kv, t: Task)
    requires t.id != ""
    ensures Apply(kv, DeleteRunnable(t)) == kv - RunnableKeys(t)
    ensures Apply(kv, DeleteTerminal(t)) == kv - TerminalKeys(t)
  {
    ApplyOne(kv, Del(Ready(t)));
    assert DeleteRunnable(t) == [Del(Ready(t))] + [Del(Wait(t))];
    ApplyAppend(kv, [Del(Ready(t))], [Del(Wait(t))]);
    ApplyOne(kv - {Ready(t)}, Del(Wait(t)));
    if t.finishedAt.Some? { ApplyOne(kv, Del(Term(t))); }
  }

  lemma ApplyPuts(kv: Kv, t: Task, now: int)
    requires t.id != ""
    ensures Apply(Apply(kv, PutRunnable(t, now)), PutTerminal(t)) == Mark(kv, EntryKeys(t, now))
    ensures Runnable(t) ==> Apply(kv, PutRunnable(t, now)) == Mark(kv, EntryKeys(t, now))
  {
    if Runnable(t) { ApplyOne(kv, PutRunnable(t, now)[0]); }
    if Terminal(t) && t.finishedAt.Some? { ApplyOne(kv, PutTerminal(t)[0]); }
  }

  lemma ApplyReindex(kv: Kv, t: Task, now: int)
    requires t.id != ""
    ensures Apply(kv, ReindexOps(t, now)) == Reindex(kv, t, now)
  {
    var a, b, c, d := DeleteRunnable(t), DeleteTerminal(t), PutRunnable(t, now), PutTerminal(t);
    ApplyAppend(kv, a + b + c, d); ApplyAppend(kv, a + b, c); ApplyAppend(kv, a, b);
    ApplyDeletes(kv, t); ApplyDeletes(kv - RunnableKeys(t), t);
    assert kv - RunnableKeys(t) - TerminalKeys(t) == kv - AllKeys(t);
    ApplyPuts(kv - AllKeys(t), t, now);
  }

  lemma ApplyWrite(kv: Kv, prev: Option<Task>, next: Task, now: int)
    requires next.id != "" && (prev.Some? ==> prev.value.id != "")
    ensures Apply(kv, WriteOps(prev, next, now)) == WriteRow(kv, prev, next, now)
  {
    var del: Ops := if prev.Some? then DeleteRunnable(prev.value) + DeleteTerminal(prev.value) else [];
    var put: Ops := [Put(TaskKey(next.id), Row(next))];
    var cleared := if prev.Some? then kv - AllKeys(prev.value) else kv;
    assert Apply(kv, del) == cleared by {
      if prev.Some? {
        ApplyAppend(kv, DeleteRunnable(prev.value), DeleteTerminal(prev.value));
        ApplyDeletes(kv, prev.value); ApplyDeletes(kv - RunnableKeys(prev.value), prev.value);
        assert kv - RunnableKeys(prev.value) - TerminalKeys(prev.value) == cleared;
      }
    }
    ApplyAppend(kv, del + put + PutRunnable(next, now), PutTerminal(next));
    ApplyAppend(kv, del + put, PutRunnable(next, now));
    ApplyAppend(kv, del, put);
    ApplyOne(cleared, put[0]);
    ApplyPuts(cleared[TaskKey(next.id) := Row(next)], next, now);
  }

  // ---- bounded scans that fill one batch ----

  /** What a scan does at a key: stop there, or add operations and count the key or not. */
  datatype Visit = Stop | Step(ops: Ops, counted: bool)

  datatype Scan = Scan(ops: Ops, touched: nat)

  /** Visit keys in order until the end, a stop, or `limit` counted keys. */
  function ScanKeys(keys: seq<string>, visit: string -> Visit, limit: nat): Scan
    decreases |keys|
  {
    if |keys| == 0 || limit == 0 then Scan([], 0)
    else
      match visit(keys[0])
      case Stop => Scan([], 0)
      case Step(ops, counted) =>
        var rest := ScanKeys(keys[1..], visit, if counted then limit - 1 else limit);
        Scan(ops + rest.ops, rest.touched + if counted then 1 else 0)
  }

  /** Induction over a scan all of whose visited keys count, for any property P of the map and the
      number of keys visited. */
  lemma {:induction false} ScanInduction(cur: Kv, keys: seq<string>, n: nat, visit: string -> Visit, limit: nat,
                                         P: (Kv, nat) -> bool)
    requires n <= |keys| && P(cur, n)
    requires forall c, i: nat :: P(c, i) && i < |keys| && visit(keys[i]).Step? ==>
               visit(keys[i]).counted && P(Apply(c, visit(keys[i]).ops), i + 1)
    ensures var s := ScanKeys(keys[n..], visit, limit);
            n + s.touched <= |keys| && P(Apply(cur, s.ops), n + s.touched)
    decreases |keys| - n
  {
    if n < |keys| && limit > 0 && visit(keys[n]).Step? {
      var ops := visit(keys[n]).ops;
      var next := Apply(cur, ops);
      assert P(next, n + 1);
      ScanInduction(next, keys, n + 1, visit, limit - 1, P);
      assert keys[n..][1..] == keys[n + 1..];
      ApplyAppend(cur, ops, ScanKeys(keys[n + 1..], visit, limit - 1).ops);
    }
  }

  /** Such a scan ends at its limit, at the end of the keys, or at the first stop. */
  lemma {:induction false} ScanStops(keys: seq<string>, visit: string -> Visit, limit: nat)
    requires forall i :: 0 <= i < |keys| && visit(keys[i]).Step? ==> visit(keys[i]).counted
    ensures var n := ScanKeys(keys, visit, limit).touched;
            && n <= |keys| && n <= limit
            && (forall i :: 0 <= i < n ==> visit(keys[i]).Step?)
            && (n < limit && n < |keys| ==> visit(keys[n]).Stop?)
    decreases |keys|
  {
    if |keys| > 0 && limit > 0 && visit(keys[0]).Step? {
      ScanStops(keys[1..], visit, limit - 1);
    }
  }

  // ---- the scan as a loop ----

  /** After i keys with `batch` and `touched` so far, the rest of the scan completes the whole. */
  ghost predicate ScanSplit(keys: seq<string>, visit: string -> Visit, limit: nat, i: nat, batch: Ops, touched: nat)
    requires i <= |keys| && touched <= limit
  {
    var rest := ScanKeys(keys[i..], visit, limit - touched);
    ScanKeys(keys, visit, limit) == Scan(batch + rest.ops, touched + rest.touched)
  }

  lemma ScanAdvance(keys: seq<string>, visit: string -> Visit, limit: nat, i: nat, batch: Ops, touched: nat)
    requires i < |keys| && touched < limit && ScanSplit(keys, visit, limit, i, batch, touched)
    ensures match visit(keys[i])
            case Stop => ScanKeys(keys, visit, limit) == Scan(batch, touched)
            case Step(ops, counted) =>
              ScanSplit(keys, visit, limit, i + 1, batch + ops, if counted then touched + 1 else touched)
  {
    assert keys[i..][1..] == keys[i + 1..];
    if visit(keys[i]).Step? {
      var t := if visit(keys[i]).counted then touched + 1 else touched;
      var rest := ScanKeys(keys[i + 1..], visit, limit - t);
      assert batch + (visit(keys[i]).ops + rest.ops) == batch + visit(keys[i]).ops + rest.ops;
    } else {
      assert batch + [] == batch;
    }
  }

  // ---- wait -> ready promotion ----

  /** One visited wait key that is malformed or due: it goes, and its row is entered again. */
  function PromoteOne(kv: Kv, k: string, now: int): Ops {
    [Del(k)] +
    match ParseWait(k)
    case None => []
    case Some(e) =>
      match Find(kv, e.id)
      case None => []
      case Some(t) => DeleteRunnable(t) + PutRunnable(t, now)
  }

  /** A wait key the promotion does not stop at. */
  predicate DueWait(k: string, now: int) { ParseWait(k).Some? ==> ParseWait(k).value.at <= now }

  function PromoteVisit(kv: Kv, now: int): string -> Visit {
    k => if DueWait(k, now) then Step(PromoteOne(kv, k, now), true) else Stop
  }

  ghost function PromoteScan(kv: Kv, now: int, limit: int): Scan {
    ScanKeys(PrefixKeys(kv, TASK_WAIT), PromoteVisit(kv, now), PromoteLimit(limit))
  }

  function PromoteLimit(limit: int): (n: nat)
    ensures n > 0 && (limit > 0 ==> n == limit) && (limit <= 0 ==> n == 256)
  {
    if limit <= 0 then 256 else limit
  }

  ghost function Promote(kv: Kv, now: int, limit: int): Kv {
    Apply(kv, PromoteScan(kv, now, limit).ops)
  }

  // ---- claim from the ready index ----

  datatype Claim = Claim(kv: Kv, task: Option<Task>)

  function Claimed(t: Task, id: string, now: int): Task {
    t.(id := if t.id == "" then id else t.id, state := Running, startedAt := Some(now),
       finishedAt := None, lastError := None)
  }

  /** The transaction body that takes a task: row to RUNNING, visited key and own keys deleted. */
  function ClaimOps(k: string, id: string, t: Task): Ops {
    [Put(TaskKey(id), Row(t)), Del(k), Del(Ready(t)), Del(Wait(t))]
  }

  predicate Claimable(t: Task, taskType: string, now: int) {
    t.taskType == taskType && Runnable(t) && t.scheduledAt <= now
  }

  /** Visit ready keys in order; drop malformed and orphan keys, rebuild the index of rows that
      do not match, skip other types, and take the first claimable row. */
  function ClaimScan(kv: Kv, keys: seq<string>, now: int, taskType: string): Claim
    decreases |keys|
  {
    if |keys| == 0 then Claim(kv, None)
    else
      var k := keys[0];
      match ParseReady(k)
      case None => ClaimScan(kv - {k}, keys[1..], now, taskType)
      case Some(e) =>
        if taskType != "" && e.taskType != taskType then ClaimScan(kv, keys[1..], now, taskType)
        else
          match Find(kv, e.id)
          case None => ClaimScan(kv - {k}, keys[1..], now, taskType)
          case Some(t) =>
            if !Claimable(t, e.taskType, now) then ClaimScan(Apply(kv, ReindexOps(t, now)), keys[1..], now, taskType)
            else
              var taken := Claimed(t, e.id, now);
              Claim(Apply(kv, ClaimOps(k, e.id, taken)), Some(taken))
  }

  // ---- claim with adaptive promotion ----

  /** Rounds of promotion, doubling the limit, until a round promotes less than its limit. */
  ghost function PromoteRounds(kv: Kv, now: int, limit: nat, rounds: nat, adaptiveMax: nat): Kv
    decreases rounds
  {
    if rounds == 0 then kv
    else
      var touched := PromoteScan(kv, now, limit).touched;
      if touched < limit then Promote(kv, now, limit)
      else PromoteRounds(Promote(kv, now, limit), now, NextLimit(limit, adaptiveMax), rounds - 1, adaptiveMax)
  }

  /** The remaining rounds lead from the current map to `goal`. */
  ghost predicate RoundsTo(kv: Kv, now: int, limit: nat, rounds: nat, adaptiveMax: nat, goal: Kv) {
    PromoteRounds(kv, now, limit, rounds, adaptiveMax) == goal
  }

  lemma RoundOpens(kv: Kv, now: int, limit: nat, rounds: nat, adaptiveMax: nat, goal: Kv)
    requires rounds > 0 && RoundsTo(kv, now, limit, rounds, adaptiveMax, goal)
    requires PromoteScan(kv, now, limit).touched >= limit
    ensures RoundsTo(Promote(kv, now, limit), now, NextLimit(limit, adaptiveMax), rounds - 1, adaptiveMax, goal)
  {
  }

  lemma SameRounds(kv: Kv, now: int, limit: nat, rounds: nat, adaptiveMax: nat, goal: Kv, kv': Kv, limit': nat,
                   rounds': nat)
    requires kv == kv' && limit == limit' && rounds == rounds' && RoundsTo(kv, now, limit, rounds, adaptiveMax, goal)
    ensures RoundsTo(kv', now, limit', rounds', adaptiveMax, goal)
  {
  }

  /** One round, then the rest of the rounds. */
  lemma RoundUnfolds(kv: Kv, now: int, limit: nat, rounds: nat, adaptiveMax: nat, goal: Kv)
    returns (after: Kv, next: nat, rest: nat, filled: bool)
    requires rounds > 0 && RoundsTo(kv, now, limit, rounds, adaptiveMax, goal)
    ensures after == Promote(kv, now, limit) && next == NextLimit(limit, adaptiveMax) && rest == rounds - 1
    ensures filled == (PromoteScan(kv, now, limit).touched >= limit)
    ensures if filled then RoundsTo(after, now, next, rest, adaptiveMax, goal) else after == goal
  {
    after, next, rest := Promote(kv, now, limit), NextLimit(limit, adaptiveMax), rounds - 1;
    filled := PromoteScan(kv, now, limit).touched >= limit;
    if filled {
      RoundOpens(kv, now, limit, rounds, adaptiveMax, goal);
      SameRounds(Promote(kv, now, limit), now, NextLimit(limit, adaptiveMax), rounds - 1, adaptiveMax, goal, after,
                 next, rest);
    }
  }

  ghost function ClaimNext(kv: Kv, now: int, taskType: string, limit: nat, rounds: nat, adaptiveMax: nat): Claim {
    var promoted := PromoteRounds(kv, now, limit, rounds, adaptiveMax);
    ClaimScan(promoted, PrefixKeys(promoted, TASK_READY), now, taskType)
  }

  // ---- purge of terminal history ----

  /** One visited terminal key at or before the cutoff: the key of a missing row goes, the index of
      a row that does not match is rebuilt, and an old terminal row goes with its keys and counts. */
  function PurgeOne(kv: Kv, k: string, cutoff: int, now: int): Visit {
    match ParseTerminal(k)
    case None => Step([Del(k)], false)
    case Some(e) =>
      match Find(kv, e.id)
      case None => Step([Del(k)], false)
      case Some(t) =>
        if !Terminal(t) || t.finishedAt.None? then Step([Del(k)] + ReindexOps(t, now), false)
        else if t.finishedAt.value > cutoff then Step([Del(k)] + PutTerminal(t), false)
        else Step([Del(k)] + (DeleteRunnable(t) + DeleteTerminal(t) + [Del(TaskKey(e.id))]), true)
  }

  /** A terminal key the purge does not stop at. */
  predicate OldTerminal(k: string, cutoff: int) { ParseTerminal(k).Some? ==> ParseTerminal(k).value.at <= cutoff }

  function PurgeVisit(kv: Kv, cutoff: int, now: int): string -> Visit {
    k => if OldTerminal(k, cutoff) then PurgeOne(kv, k, cutoff, now) else Stop
  }

  function PurgeLimit(limit: int): (n: nat)
    ensures 0 < n <= 5000 && (0 < limit <= 5000 ==> n == limit) && (limit <= 0 ==> n == 200)
    ensures limit > 5000 ==> n == 5000
  {
    if limit <= 0 then 200 else if limit > 5000 then 5000 else limit
  }

  ghost function PurgeScan(kv: Kv, cutoff: int, now: int, limit: int): Scan {
    ScanKeys(PrefixKeys(kv, TASK_TERMINAL), PurgeVisit(kv, cutoff, now), PurgeLimit(limit))
  }

  ghost function Purge(kv: Kv, cutoff: int, now: int, limit: int): Kv {
    Apply(kv, PurgeScan(kv, cutoff, now, limit).ops)
  }

  // ---- single-task transitions ----

  datatype TaskOp =
    | EnqueueTask(id: string, objectId: string, version: int, taskType: string, priority: int, scheduledAt: Option<int>)
    | EnqueueOrRevive(id: string, objectId: string, version: int, taskType: string, priority: int)
    | RequeueNow(id: string)
    | CancelTask(id: string, reason: string)
    | ClaimTask(taskType: string, plan: Plan)
    | MarkDone(id: string)
    | MarkRetry(id: string, err: string, nextRunAt: Option<int>)
    | MarkFailed(id: string, err: string)
    | PurgeTerminal(cutoff: Option<int>, limit: int)

  function At(time: Option<int>, now: int): int { if time.Some? then time.value else now }

  function NewTask(id: string, objectId: string, version: int, taskType: string, priority: int,
                   scheduledAt: int): Task {
    Task(id, objectId, version, taskType, Pending, priority, 0, None, scheduledAt, None, None)
  }

  /** The row a single-task operation writes, or None when it leaves the row alone.  The marks have
      no state guard. */
  function NextRow(op: TaskOp, row: Option<Task>, now: int): Option<Task> {
    match (op, row)
    case (EnqueueTask(id, o, v, ty, p, at), None) => Some(NewTask(id, o, v, ty, p, At(at, now)))
    case (EnqueueOrRevive(id, o, v, ty, p), None) => Some(NewTask(id, o, v, ty, p, now))
    case (EnqueueOrRevive(_, _, _, _, p), Some(t)) =>
      if !Terminal(t) then None
      else Some(t.(state := Pending, priority := p, retryCount := 0, lastError := None,
                   scheduledAt := now, startedAt := None, finishedAt := None))
    case (RequeueNow(id), Some(t)) =>
      if id == "" || t.state == Done then None
      else Some(t.(state := Pending, scheduledAt := now, startedAt := None, finishedAt := None, lastError := None))
    case (CancelTask(id, reason), Some(t)) =>
      if id == "" || Terminal(t) then None
      else Some(t.(state := Failed, lastError := Some(if reason == "" then "cancelled_by_admin" else reason),
                   finishedAt := Some(now)))
    case (MarkDone(_), Some(t)) => Some(t.(state := Done, finishedAt := Some(now)))
    case (MarkRetry(_, err, at), Some(t)) =>
      Some(t.(state := RetryWait, retryCount := t.retryCount + 1, lastError := Some(err),
              scheduledAt := At(at, now), finishedAt := None))
    case (MarkFailed(_, err), Some(t)) =>
      Some(t.(state := Failed, lastError := Some(if err == "" then "failed_without_error_message" else err),
              finishedAt := Some(now)))
    case _ => None
  }

  /** What one operation of the task store does to the map; a row without an id is never written. */
  ghost function TaskStep(kv: Kv, op: TaskOp, now: int): Kv {
    match op
    case ClaimTask(taskType, plan) => ClaimNext(kv, now, taskType, plan.base, plan.rounds, plan.adaptiveMax).kv
    case PurgeTerminal(cutoff, limit) => if cutoff.None? then kv else Purge(kv, cutoff.value, now, limit)
    case _ =>
      var prev := Find(kv, op.id);
      var next := NextRow(op, prev, now);
      if next.None? || next.value.id == "" then kv else Apply(kv, WriteOps(prev, next.value, now))
  }
}
