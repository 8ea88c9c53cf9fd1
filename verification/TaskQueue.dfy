/** The task queue over whole runs: coherence of every operation, and the claim as a
    refinement of a full table scan. */
module TaskQueue {
  import opened MetaTypes
  import opened ByteOrder
  import opened Keys
  import opened KvClient
  import opened ScanPlan
  import opened TaskIndex
  import opened TaskScans
  import opened TaskRows
  import opened Counting

  // ---- the row behind an index key of a coherent store ----

  /** The task that a coherent store's index key belongs to. */
  ghost predicate EntryOf(kv: Kv, k: string, e: Option<IndexEntry>, t: Task) {
    && WellFormed(t) && Find(kv, t.id) == Some(t)
    && e.Some? && e.value.id == t.id
  }

  lemma WaitKeyRow(kv: Kv, k: string, now: int) returns (t: Task)
    requires Coherent(kv, now) && k in kv && HasPrefix(k, TASK_WAIT)
    ensures EntryOf(kv, k, ParseWait(k), t) && Runnable(t) && k == Wait(t) && ParseWait(k).value.at == t.scheduledAt
  {
    assert EntryOk(kv, k, now);
    var u :| Owned(kv, k, u, now);
    t := Find(kv, u).value;
    assert RowOk(kv, u);
    KeyFamilies(t);
    FamilyApart(k);
  }

  lemma ReadyKeyRow(kv: Kv, k: string, now: int) returns (t: Task)
    requires Coherent(kv, now) && k in kv && HasPrefix(k, TASK_READY)
    ensures EntryOf(kv, k, ParseReady(k), t) && k == Ready(t)
    ensures ParseReady(k).value.taskType == t.taskType && Claimable(t, t.taskType, now)
  {
    assert EntryOk(kv, k, now);
    var u :| Owned(kv, k, u, now);
    t := Find(kv, u).value;
    assert RowOk(kv, u);
    KeyFamilies(t);
    FamilyApart(k);
  }

  lemma TerminalKeyRow(kv: Kv, k: string, now: int) returns (t: Task)
    requires Coherent(kv, now) && k in kv && HasPrefix(k, TASK_TERMINAL)
    ensures EntryOf(kv, k, ParseTerminal(k), t) && Terminal(t) && t.finishedAt.Some? && k == Term(t)
    ensures ParseTerminal(k).value.at == t.finishedAt.value
  {
    assert EntryOk(kv, k, now);
    var u :| Owned(kv, k, u, now);
    t := Find(kv, u).value;
    assert RowOk(kv, u);
    KeyFamilies(t);
    FamilyApart(k);
  }

  /** A runnable row of a coherent store has no terminal key. */
  lemma NoTerminalKey(kv: Kv, t: Task, now: int)
    requires Coherent(kv, now) && Find(kv, t.id) == Some(t) && !Terminal(t)
    ensures TerminalKeys(t) !! kv.Keys
  {
    assert RowOk(kv, t.id);
    OwnKeys(t, t.id);
    forall k | k in TerminalKeys(t) ensures k !in kv {
      if k in kv {
        assert EntryOk(kv, k, now);
        var u :| Owned(kv, k, u, now);
        assert RowOk(kv, u);
        AllowedOwn(Find(kv, u).value, now);
        if u != t.id { KeysApart(Find(kv, u).value, t); }
      }
    }
  }

  // ---- promotion ----

  /** Wait keys of the store. */
  ghost function WaitSet(kv: Kv): set<string> { set k | k in kv && HasPrefix(k, TASK_WAIT) }

  ghost function DueSet(kv: Kv, now: int): set<string> { set k | k in WaitSet(kv) && DueWait(k, now) }

  ghost function First(keys: seq<string>, n: nat): set<string>
    requires n <= |keys|
  {
    set k | k in keys[..n]
  }

  ghost predicate ReadyKept(kv: Kv, kv': Kv) {
    forall k :: k in kv && HasPrefix(k, TASK_READY) ==> k in kv'
  }

  function Moved(kv: Kv, t: Task): Kv { (kv - {Wait(t)})[Ready(t) := Marker] }

  lemma MoveKeeps(kv: Kv, t: Task, now: int)
    requires Coherent(kv, now) && Find(kv, t.id) == Some(t) && Runnable(t) && t.scheduledAt <= now && Wait(t) in kv
    ensures Coherent(Moved(kv, t), now) && Ready(t) !in kv && Ready(t) != Wait(t)
  {
    assert RowOk(kv, t.id);
    OwnKeys(t, t.id);
    NoTerminalKey(kv, t, now);
    ReindexKeeps(kv, t, now);
    assert kv - AllKeys(t) == kv - {Wait(t)};
    assert Moved(kv, t) == Reindex(kv, t, now);
  }

  lemma MoveRows(kv: Kv, t: Task)
    requires WellFormed(t)
    ensures SameRows(kv, Moved(kv, t)) && ReadyKept(kv, Moved(kv, t))
    ensures WaitSet(Moved(kv, t)) == WaitSet(kv) - {Wait(t)}
  {
    KeyFamilies(t); FamilyApart(Ready(t)); FamilyApart(Wait(t));
    forall id ensures TaskKey(id) != Wait(t) && TaskKey(id) != Ready(t) { OwnKeys(t, id); }
  }

  lemma PromoteOneApply(kv: Kv, cur: Kv, k: string, t: Task, now: int)
    requires EntryOf(kv, k, ParseWait(k), t) && Runnable(t) && k == Wait(t) && t.scheduledAt <= now && Ready(t) !in cur
    ensures Apply(cur, PromoteOne(kv, k, now)) == Moved(cur, t)
  {
    ApplyAppend(cur, [Del(k)], DeleteRunnable(t) + PutRunnable(t, now));
    ApplyOne(cur, Del(k));
    ApplyAppend(cur - {k}, DeleteRunnable(t), PutRunnable(t, now));
    ApplyDeletes(cur - {k}, t);
    assert cur - {k} - RunnableKeys(t) == cur - {k};
    ApplyPuts(cur - {k}, t, now);
  }

  /** Promoting one due key moves its row's entry from wait to ready. */
  lemma PromoteOneMoves(kv: Kv, cur: Kv, k: string, now: int) returns (next: Kv)
    requires Coherent(kv, now) && Coherent(cur, now) && SameRows(kv, cur)
    requires k in kv && k in cur && HasPrefix(k, TASK_WAIT) && DueWait(k, now)
    ensures Apply(cur, PromoteOne(kv, k, now)) == next
    ensures Coherent(next, now) && SameRows(kv, next) && ReadyKept(cur, next)
    ensures WaitSet(next) == WaitSet(cur) - {k}
  {
    var t := WaitKeyRow(kv, k, now);
    next := Moved(cur, t);
    SameFind(kv, cur, t.id);
    MoveKeeps(cur, t, now);
    MoveRows(cur, t);
    PromoteOneApply(kv, cur, k, t, now);
    SameRowsTrans(kv, cur, next);
  }

  /** What promoting the first n of the listed wait keys leaves behind. */
  ghost predicate Promoted(kv: Kv, after: Kv, keys: seq<string>, n: nat, now: int) {
    && Coherent(after, now) && SameRows(kv, after) && ReadyKept(kv, after)
    && n <= |keys| && WaitSet(after) == WaitSet(kv) - First(keys, n)
  }

  lemma NotAmongFirst(keys: seq<string>, n: nat)
    requires StrictlySorted(keys) && n < |keys|
    ensures keys[n] !in First(keys, n)
    ensures First(keys, n + 1) == First(keys, n) + {keys[n]}
  {
    forall k | k in First(keys, n) ensures k != keys[n] {
      var i :| 0 <= i < n && keys[i] == k;
      LessIrreflexive(k);
    }
    assert keys[..n + 1] == keys[..n] + [keys[n]];
  }

  lemma PromotedStep(kv: Kv, cur: Kv, keys: seq<string>, n: nat, now: int)
    requires Coherent(kv, now) && Promoted(kv, cur, keys, n, now)
    requires Lists(keys, WaitSet(kv)) && n < |keys| && DueWait(keys[n], now)
    ensures Promoted(kv, Apply(cur, PromoteOne(kv, keys[n], now)), keys, n + 1, now)
  {
    NotAmongFirst(keys, n);
    assert keys[n] in WaitSet(kv) && keys[n] in WaitSet(cur);
    var next := PromoteOneMoves(kv, cur, keys[n], now);
    assert ReadyKept(kv, next);
  }

  /** A promotion pass: coherence, rows, and exactly which keys move. */
  lemma PromoteMoves(kv: Kv, now: int, limit: int)
    requires Coherent(kv, now)
    ensures Promoted(kv, Promote(kv, now, limit), PrefixKeys(kv, TASK_WAIT), PromoteScan(kv, now, limit).touched, now)
  {
    var keys, visit := PrefixKeys(kv, TASK_WAIT), PromoteVisit(kv, now);
    var P := (c: Kv, n: nat) => Promoted(kv, c, keys, n, now);
    assert P(kv, 0) by {
      assert WaitSet(kv) - First(keys, 0) == WaitSet(kv);
      assert SameRows(kv, kv);
    }
    forall c, i: nat | P(c, i) && i < |keys| && visit(keys[i]).Step? ensures P(Apply(c, visit(keys[i]).ops), i + 1) {
      PromotedStep(kv, c, keys, i, now);
    }
    ScanInduction(kv, keys, 0, visit, PromoteLimit(limit), P);
    assert keys[0..] == keys;
  }

  // ---- how much one claim promotes ----

  lemma DuePrefix(kv: Kv, keys: seq<string>, now: int, i: nat, j: nat)
    requires Coherent(kv, now) && Lists(keys, WaitSet(kv)) && i < j < |keys| && DueWait(keys[j], now)
    ensures DueWait(keys[i], now)
  {
    assert keys[i] in WaitSet(kv) && keys[j] in WaitSet(kv);
    var t := WaitKeyRow(kv, keys[i], now);
    var u := WaitKeyRow(kv, keys[j], now);
    WaitOrder(t.taskType, t.scheduledAt, t.id, u.taskType, u.scheduledAt, u.id);
  }

  lemma {:induction false} FirstCount(keys: seq<string>, n: nat)
    requires StrictlySorted(keys) && n <= |keys|
    ensures |First(keys, n)| == n
  {
    if n > 0 {
      FirstCount(keys, n - 1);
      NotAmongFirst(keys, n - 1);
    }
  }

  /** The first n listed wait keys are exactly the due ones when the next one is not due. */
  lemma DueIsFirst(kv: Kv, keys: seq<string>, now: int, n: nat)
    requires Coherent(kv, now) && Lists(keys, WaitSet(kv)) && n <= |keys|
    requires forall i :: 0 <= i < n ==> DueWait(keys[i], now)
    ensures First(keys, n) <= DueSet(kv, now)
    ensures n == |keys| || !DueWait(keys[n], now) ==> DueSet(kv, now) == First(keys, n)
  {
    forall k | k in First(keys, n) ensures k in DueSet(kv, now) {
      var i :| 0 <= i < n && keys[i] == k;
      assert k in WaitSet(kv);
    }
    if n == |keys| || !DueWait(keys[n], now) {
      forall k | k in DueSet(kv, now) ensures k in First(keys, n) {
        assert k in WaitSet(kv);
        var i :| 0 <= i < |keys| && keys[i] == k;
        if i > n { DuePrefix(kv, keys, now, n, i); }
        assert keys[i] in keys[..n];
      }
    }
  }

  /** One pass promotes the smaller of its limit and the number of due wait keys. */
  lemma PromoteCount(kv: Kv, now: int, limit: int)
    requires Coherent(kv, now)
    ensures var n := PromoteScan(kv, now, limit).touched;
            var due := |DueSet(kv, now)|;
            && n == (if due <= PromoteLimit(limit) then due else PromoteLimit(limit))
            && |DueSet(Promote(kv, now, limit), now)| == due - n
  {
    var keys, after := PrefixKeys(kv, TASK_WAIT), Promote(kv, now, limit);
    var n := PromoteScan(kv, now, limit).touched;
    ScanStops(keys, PromoteVisit(kv, now), PromoteLimit(limit));
    PromoteMoves(kv, now, limit);
    DueIsFirst(kv, keys, now, n);
    FirstCount(keys, n);
    assert DueSet(after, now) == DueSet(kv, now) - First(keys, n);
  }

  function Minus(a: nat, b: nat): nat { if a <= b then 0 else a - b }

  /** One round: what it leaves due. */
  lemma RoundDrains(kv: Kv, now: int, limit: nat)
    requires Coherent(kv, now) && limit > 0
    ensures var next := Promote(kv, now, limit);
            && Coherent(next, now) && SameRows(kv, next) && |DueSet(next, now)| == Minus(|DueSet(kv, now)|, limit)
            && (PromoteScan(kv, now, limit).touched < limit ==> |DueSet(kv, now)| < limit)
  {
    PromoteMoves(kv, now, limit);
    PromoteCount(kv, now, limit);
  }

  lemma BudgetOpens(limit: nat, rounds: nat, adaptiveMax: nat, next: nat, rest: nat)
    requires rounds == rest + 1 && next == NextLimit(limit, adaptiveMax)
    ensures Budget(limit, rounds, adaptiveMax) == limit + Budget(next, rest, adaptiveMax)
  {
  }

  lemma {:induction false} RoundsDrainTo(kv: Kv, now: int, limit: nat, rounds: nat, adaptiveMax: nat, goal: Kv)
    requires Coherent(kv, now) && limit > 0 && RoundsTo(kv, now, limit, rounds, adaptiveMax, goal)
    ensures Coherent(goal, now) && SameRows(kv, goal)
    ensures |DueSet(goal, now)| == Minus(|DueSet(kv, now)|, Budget(limit, rounds, adaptiveMax))
    decreases rounds
  {
    if rounds == 0 {
      assert SameRows(kv, kv);
    } else {
      var after, next, rest, filled := RoundUnfolds(kv, now, limit, rounds, adaptiveMax, goal);
      RoundDrains(kv, now, limit);
      BudgetOpens(limit, rounds, adaptiveMax, next, rest);
      if filled {
        RoundsDrainTo(after, now, next, rest, adaptiveMax, goal);
        SameRowsTrans(kv, after, goal);
      }
    }
  }

  /** The promotion rounds leave exactly the due wait keys beyond the budget. */
  lemma RoundsDrain(kv: Kv, now: int, limit: nat, rounds: nat, adaptiveMax: nat)
    requires Coherent(kv, now) && limit > 0
    ensures var after := PromoteRounds(kv, now, limit, rounds, adaptiveMax);
            && Coherent(after, now) && SameRows(kv, after)
            && |DueSet(after, now)| == Minus(|DueSet(kv, now)|, Budget(limit, rounds, adaptiveMax))
  {
    RoundsDrainTo(kv, now, limit, rounds, adaptiveMax, PromoteRounds(kv, now, limit, rounds, adaptiveMax));
  }

  // ---- the claim ----

  /** The order of the queue: clamped priority descending, then time, then type and id. */
  predicate Before(t: Task, u: Task) {
    || ClampPriority(t.priority) > ClampPriority(u.priority)
    || (ClampPriority(t.priority) == ClampPriority(u.priority) &&
        (t.scheduledAt < u.scheduledAt ||
         (t.scheduledAt == u.scheduledAt && Less(TypedId(t.taskType, t.id), TypedId(u.taskType, u.id)))))
  }

  /** A row a full table scan would offer to this claim. */
  predicate Eligible(kv: Kv, t: Task, now: int, taskType: string) {
    Find(kv, t.id) == Some(t) && Runnable(t) && t.scheduledAt <= now && (taskType == "" || t.taskType == taskType)
  }

  ghost function ReadySet(kv: Kv): set<string> { set k | k in kv && HasPrefix(k, TASK_READY) }

  lemma WriteThenDelete(kv: Kv, tk: string, row: Value, r: string, w: string, keys: set<string>)
    requires tk !in keys && r in keys && w in keys && forall k :: k in keys && k in kv ==> k == r || k == w
    ensures Apply(kv, [Put(tk, row), Del(r), Del(r), Del(w)]) == Mark((kv - keys)[tk := row], {})
  {
    ApplyFour(kv, Put(tk, row), Del(r), Del(r), Del(w));
    assert kv[tk := row] - {r} - {r} - {w} == (kv - keys)[tk := row];
  }

  /** Taking a task writes its row and removes its one index key. */
  lemma ClaimWrites(kv: Kv, t: Task, now: int)
    requires WellFormed(t) && TerminalKeys(t) !! kv.Keys
    ensures var taken := Claimed(t, t.id, now);
            Apply(kv, ClaimOps(Ready(t), t.id, taken)) == WriteRow(kv, Some(t), taken, now)
  {
    var tk, r, w, keys := TaskKey(t.id), Ready(t), Wait(t), AllKeys(t);
    assert tk !in keys by { OwnKeys(t, t.id); }
    WriteThenDelete(kv, tk, Row(Claimed(t, t.id, now)), r, w, keys);
  }

  /** What a claim that takes row t comes to. */
  ghost predicate TakesRow(kv: Kv, c: Claim, t: Task, now: int) {
    c == Claim(WriteRow(kv, Some(t), Claimed(t, t.id, now), now), Some(Claimed(t, t.id, now)))
  }

  lemma TakesHead(kv: Kv, keys: seq<string>, now: int, taskType: string, t: Task)
    requires |keys| > 0 && EntryOf(kv, keys[0], ParseReady(keys[0]), t) && keys[0] == Ready(t)
    requires ParseReady(keys[0]).value.taskType == t.taskType && Claimable(t, t.taskType, now)
    requires taskType == "" || t.taskType == taskType
    requires TerminalKeys(t) !! kv.Keys
    ensures TakesRow(kv, ClaimScan(kv, keys, now, taskType), t, now)
  {
    ClaimWrites(kv, t, now);
  }

  /** Over listed ready keys, the claim takes the first whose type matches. */
  lemma {:induction false} ClaimScanFirst(kv: Kv, keys: seq<string>, now: int, taskType: string)
    returns (i: nat, t: Option<Task>)
    requires Coherent(kv, now) && forall k :: k in keys ==> k in ReadySet(kv)
    ensures i <= |keys| && (t.Some? <==> i < |keys|)
    ensures forall j :: 0 <= j < i ==>
              ParseReady(keys[j]).Some? && taskType != "" && ParseReady(keys[j]).value.taskType != taskType
    ensures t.None? ==> ClaimScan(kv, keys, now, taskType) == Claim(kv, None)
    ensures t.Some? ==>
              && Eligible(kv, t.value, now, taskType) && keys[i] == Ready(t.value)
              && TakesRow(kv, ClaimScan(kv, keys, now, taskType), t.value, now)
    decreases |keys|
  {
    i, t := 0, None;
    if |keys| > 0 {
      assert keys[0] in ReadySet(kv);
      var u := ReadyKeyRow(kv, keys[0], now);
      if taskType != "" && u.taskType != taskType {
        i, t := ClaimScanFirst(kv, keys[1..], now, taskType);
        i := i + 1;
      } else {
        NoTerminalKey(kv, u, now);
        TakesHead(kv, keys, now, taskType, u);
        t := Some(u);
      }
    }
  }

  /** An eligible row whose wait key is gone is in the ready index, under its own key. */
  lemma EligibleIsReady(kv: Kv, t: Task, now: int, taskType: string)
    requires Coherent(kv, now) && Eligible(kv, t, now, taskType)
    ensures WellFormed(t)
    ensures Ready(t) in ReadySet(kv) || Wait(t) in DueSet(kv, now)
  {
    assert RowOk(kv, t.id);
    KeyFamilies(t);
  }

  /** The listed key of an eligible row is not before the first matching key. */
  lemma FirstIsLeast(kv: Kv, keys: seq<string>, i: nat, t: Task, u: Task, now: int, taskType: string)
    requires Coherent(kv, now) && Lists(keys, ReadySet(kv)) && i <= |keys|
    requires forall j :: 0 <= j < i ==>
               ParseReady(keys[j]).Some? && taskType != "" && ParseReady(keys[j]).value.taskType != taskType
    requires Eligible(kv, u, now, taskType) && Ready(u) in ReadySet(kv)
    ensures i < |keys|
    ensures Eligible(kv, t, now, taskType) && keys[i] == Ready(t) ==> t == u || Before(t, u)
  {
    EligibleIsReady(kv, u, now, taskType);
    KeyFamilies(u);
    var j :| 0 <= j < |keys| && keys[j] == Ready(u);
    assert j >= i;
    if Eligible(kv, t, now, taskType) && keys[i] == Ready(t) {
      EligibleIsReady(kv, t, now, taskType);
      KeyFamilies(t);
      if j > i {
        ReadyOrder(t.taskType, t.priority, t.scheduledAt, t.id, u.taskType, u.priority, u.scheduledAt, u.id);
      }
    }
  }

  lemma SmallerMisses(a: set<string>, b: set<string>)
    requires |a| < |b|
    ensures exists k :: k in b && k !in a
  {
    if b <= a { SubsetCount(b, a); }
  }

  /** A due wait key that has gone has become a ready key. */
  lemma SomethingReady(kv: Kv, after: Kv, now: int)
    requires Coherent(kv, now) && Coherent(after, now) && SameRows(kv, after)
    requires |DueSet(after, now)| < |DueSet(kv, now)|
    ensures ReadySet(after) != {}
  {
    SmallerMisses(DueSet(after, now), DueSet(kv, now));
    var k :| k in DueSet(kv, now) && k !in DueSet(after, now);
    assert k in WaitSet(kv);
    var t := WaitKeyRow(kv, k, now);
    SameFind(kv, after, t.id);
    assert RowOk(after, t.id);
    KeyFamilies(t);
    assert Ready(t) in ReadySet(after);
  }

  /** The claim as a table scan, given what the promotion rounds left. */
  lemma ClaimAfterPromotion(kv: Kv, now: int, taskType: string) returns (t: Option<Task>)
    requires Coherent(kv, now)
    ensures var c := ClaimScan(kv, PrefixKeys(kv, TASK_READY), now, taskType);
            && (t.None? ==> c == Claim(kv, None))
            && (t.Some? ==>
                  && Eligible(kv, t.value, now, taskType)
                  && c == Claim(WriteRow(kv, t, Claimed(t.value, t.value.id, now), now),
                                Some(Claimed(t.value, t.value.id, now))))
    ensures forall u :: Eligible(kv, u, now, taskType) && Ready(u) in ReadySet(kv) ==>
              t.Some? && (t.value == u || Before(t.value, u))
    ensures taskType == "" && t.None? ==> ReadySet(kv) == {}
  {
    var keys := PrefixKeys(kv, TASK_READY);
    var i;
    i, t := ClaimScanFirst(kv, keys, now, taskType);
    ListHead(keys, ReadySet(kv));
    assert taskType == "" ==> i == 0;
    forall u | Eligible(kv, u, now, taskType) && Ready(u) in ReadySet(kv)
      ensures t.Some? && (t.value == u || Before(t.value, u))
    {
      FirstIsLeast(kv, keys, i, if t.Some? then t.value else u, u, now, taskType);
    }
  }

  lemma SameEligible(kv: Kv, kv': Kv, u: Task, now: int, taskType: string)
    requires SameRows(kv, kv')
    ensures Eligible(kv, u, now, taskType) == Eligible(kv', u, now, taskType)
  {
    SameFind(kv, kv', u.id);
  }

  /** The claim found no row, or took this one. */
  ghost predicate FoundRow(kv: Kv, c: Claim, t: Option<Task>, now: int, taskType: string) {
    && (t.None? ==> c.task.None? && SameRows(kv, c.kv))
    && (t.Some? ==>
          && Eligible(kv, t.value, now, taskType) && c.task.Some? && c.task.value.id == t.value.id
          && TakenFrom(t.value, c.task.value, now) && RowsBecome(kv, c.kv, t.value.id, c.task))
  }

  lemma TakenRows(kv: Kv, after: Kv, t: Task, now: int)
    requires SameRows(kv, after) && t.id != ""
    ensures var taken := Claimed(t, t.id, now);
            && taken.id == t.id && TakenFrom(t, taken, now)
            && RowsBecome(kv, WriteRow(after, Some(t), taken, now), t.id, Some(taken))
  {
    var taken := Claimed(t, t.id, now);
    ApplyWrite(after, Some(t), taken, now);
    WriteFinds(after, Some(t), taken, now);
    forall i ensures Find(after, i) == Find(kv, i) { SameFind(kv, after, i); }
  }

  lemma FoundAfter(kv: Kv, after: Kv, c: Claim, t: Option<Task>, now: int, taskType: string)
    requires SameRows(kv, after) && Coherent(after, now)
    requires t.None? ==> c == Claim(after, None)
    requires t.Some? ==> Eligible(after, t.value, now, taskType) && TakesRow(after, c, t.value, now)
    ensures FoundRow(kv, c, t, now, taskType)
  {
    if t.Some? {
      assert RowOk(after, t.value.id);
      SameEligible(kv, after, t.value, now, taskType);
      TakenRows(kv, after, t.value, now);
    }
  }

  lemma OfferedRow(kv: Kv, after: Kv, now: int, taskType: string, u: Task)
    requires Coherent(kv, now) && Coherent(after, now) && SameRows(kv, after) && Eligible(kv, u, now, taskType)
    requires |DueSet(after, now)| == 0 || |DueSet(after, now)| < |DueSet(kv, now)|
    ensures Eligible(after, u, now, taskType) && ReadySet(after) != {}
    ensures |DueSet(after, now)| == 0 ==> Ready(u) in ReadySet(after)
  {
    SameEligible(kv, after, u, now, taskType);
    EligibleIsReady(after, u, now, taskType);
    if |DueSet(after, now)| < |DueSet(kv, now)| { SomethingReady(kv, after, now); }
  }

  /** ClaimNextTieringTask refines a full table scan.  A claimed task was an eligible row, and it
      alone changes, to RUNNING.  If the due wait keys are within the promotion budget, the claim
      takes the first eligible row in queue order and finds none only if there is none.  Without a
      type filter it finds none only if there is none, whatever the budget. */
  lemma ClaimRefinesTableScan(kv: Kv, now: int, taskType: string, limit: nat, rounds: nat, adaptiveMax: nat)
    returns (t: Option<Task>)
    requires Coherent(kv, now) && limit > 0 && rounds > 0
    ensures FoundRow(kv, ClaimNext(kv, now, taskType, limit, rounds, adaptiveMax), t, now, taskType)
    ensures |DueSet(kv, now)| <= Budget(limit, rounds, adaptiveMax) ==>
              forall u :: Eligible(kv, u, now, taskType) ==> t.Some? && (t.value == u || Before(t.value, u))
    ensures taskType == "" ==> forall u :: Eligible(kv, u, now, taskType) ==> t.Some?
  {
    var after := PromoteRounds(kv, now, limit, rounds, adaptiveMax);
    RoundsDrain(kv, now, limit, rounds, adaptiveMax);
    t := ClaimAfterPromotion(after, now, taskType);
    FoundAfter(kv, after, ClaimNext(kv, now, taskType, limit, rounds, adaptiveMax), t, now, taskType);
    forall u | Eligible(kv, u, now, taskType)
      ensures |DueSet(kv, now)| <= Budget(limit, rounds, adaptiveMax) ==>
                t.Some? && (t.value == u || Before(t.value, u))
      ensures taskType == "" ==> t.Some?
    {
      OfferedRow(kv, after, now, taskType, u);
    }
  }
}
