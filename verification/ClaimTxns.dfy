/** Claims by many workers over snapshot transactions that abort on a write conflict.  All other
    writers, and any damage to the index, are arbitrary batches. */
module ClaimTxns {
  import opened MetaTypes
  import opened Keys
  import opened KvClient
  import opened TaskIndex
  import opened TaskScans
  import opened TaskRows
  import opened Counting

  /** An open transaction: the time it started and the store it reads. */
  datatype Open = Open(start: nat, snap: Kv)

  /** A row version: its key and the commit time of the write that made it. */
  datatype Made = Made(key: string, at: nat)

  /** A committed claim: the row version taken, as it was, and when it was taken. */
  datatype Taken = Taken(made: Made, row: Task, now: int, taskType: string)

  datatype State = State(
    kv: Kv, stamps: map<string, nat>, clock: nat, open: map<nat, Open>,
    runnable: map<Made, Task>, log: seq<Taken>)

  datatype Action =
    | Begin(worker: nat)
    | Claim(worker: nat, key: string, taskType: string, id: string, now: int)
    | Batch(ops: Ops)

  function Stamp(s: State, key: string): nat { if key in s.stamps then s.stamps[key] else 0 }

  predicate RunnableAt(kv: Kv, key: string) { key in kv && kv[key].Row? && Runnable(kv[key].task) }

  /** Commit of a batch at the next time: every key written gets that time, and every runnable row
      written is a new runnable version. */
  function Commit(s: State, ops: Ops): State {
    var kv, at := Apply(s.kv, ops), s.clock + 1;
    s.(kv := kv, clock := at,
       stamps := s.stamps + map op | op in ops :: op.key := at,
       runnable := s.runnable + map op | op in ops && RunnableAt(kv, op.key) :: Made(op.key, at) := kv[op.key].task)
  }

  predicate Conflict(s: State, ops: Ops, start: nat) { exists op :: op in ops && Stamp(s, op.key) > start }

  /** What the claim transaction writes, and the row it takes if it takes one. */
  function ClaimBody(snap: Kv, key: string, taskType: string, id: string, now: int): (Ops, Option<Task>) {
    if id == "" then ([], None)
    else if TaskKey(id) !in snap then ([Del(key)], None)
    else
      match Find(snap, id)
      case None => ([], None)
      case Some(t) => if Claimable(t, taskType, now) then (ClaimOps(key, id, Claimed(t, id, now)), Some(t))
                      else ([], None)
  }

  function Next(s: State, a: Action): State {
    match a
    case Begin(w) => s.(open := s.open[w := Open(s.clock, s.kv)])
    case Batch(ops) => Commit(s, ops)
    case Claim(w, key, taskType, id, now) =>
      if w !in s.open then s
      else
        var txn := s.open[w];
        var (ops, row) := ClaimBody(txn.snap, key, taskType, id, now);
        var s' := s.(open := s.open - {w});
        if Conflict(s, ops, txn.start) then s'
        else if row.None? then Commit(s', ops)
        else
          var taken := Taken(Made(TaskKey(id), Stamp(s, TaskKey(id))), row.value, now, taskType);
          Commit(s', ops).(log := s.log + [taken])
  }

  function Run(actions: seq<Action>): State {
    if |actions| == 0 then State(map[], map[], 0, map[], map[], [])
    else Next(Run(actions[..|actions| - 1]), actions[|actions| - 1])
  }

  // ---- what every step keeps ----

  ghost predicate StampsPast(s: State) { forall k :: Stamp(s, k) <= s.clock }

  /** A key not written since a transaction started is as the transaction sees it. */
  ghost predicate SnapshotOk(s: State, txn: Open) {
    txn.start <= s.clock && forall k :: Stamp(s, k) <= txn.start ==> Lookup(txn.snap, k) == Lookup(s.kv, k)
  }

  ghost predicate IsVersion(s: State, m: Made, row: Task) { m in s.runnable && s.runnable[m] == row }

  ghost predicate RunnableMade(s: State) {
    forall k :: RunnableAt(s.kv, k) ==> IsVersion(s, Made(k, Stamp(s, k)), s.kv[k].task)
  }

  ghost predicate VersionsPast(s: State) { forall m :: m in s.runnable ==> m.at <= s.clock }

  ghost predicate TakenOk(s: State, t: Taken) {
    IsVersion(s, t.made, t.row) && t.made.at < Stamp(s, t.made.key) && Claimable(t.row, t.taskType, t.now)
  }

  ghost predicate LogOk(s: State) {
    && (forall i :: 0 <= i < |s.log| ==> TakenOk(s, s.log[i]))
    && (forall i, j :: 0 <= i < j < |s.log| ==> s.log[i].made != s.log[j].made)
  }

  ghost predicate Inv(s: State) {
    && StampsPast(s) && RunnableMade(s) && VersionsPast(s) && LogOk(s)
    && forall w :: w in s.open ==> SnapshotOk(s, s.open[w])
  }

  lemma {:induction false} ApplyElsewhere(kv: Kv, ops: Ops, k: string)
    requires forall op :: op in ops ==> op.key != k
    ensures Lookup(Apply(kv, ops), k) == Lookup(kv, k)
  {
    if |ops| > 0 {
      ApplyElsewhere(kv, ops[..|ops| - 1], k);
      assert ops[|ops| - 1] in ops;
    }
  }

  lemma CommitStamp(s: State, ops: Ops, k: string)
    ensures Stamp(Commit(s, ops), k) == if exists op :: op in ops && op.key == k then s.clock + 1 else Stamp(s, k)
  {
  }

  lemma CommitKeeps(s: State, ops: Ops)
    requires Inv(s)
    ensures Inv(Commit(s, ops))
  {
    var s' := Commit(s, ops);
    forall k ensures Stamp(s', k) <= s'.clock && Stamp(s, k) <= Stamp(s', k)
      ensures Stamp(s', k) <= s.clock ==> Lookup(s'.kv, k) == Lookup(s.kv, k) && Stamp(s', k) == Stamp(s, k)
    {
      CommitStamp(s, ops, k);
      if Stamp(s', k) <= s.clock { ApplyElsewhere(s.kv, ops, k); }
    }
    forall k | RunnableAt(s'.kv, k) ensures IsVersion(s', Made(k, Stamp(s', k)), s'.kv[k].task) {
      CommitStamp(s, ops, k);
    }
  }

  /** A claim that commits takes the row version that is current when it commits. */
  lemma ClaimCurrent(s: State, txn: Open, key: string, taskType: string, id: string, now: int)
    requires Inv(s) && SnapshotOk(s, txn)
    requires ClaimBody(txn.snap, key, taskType, id, now).1.Some?
    requires !Conflict(s, ClaimBody(txn.snap, key, taskType, id, now).0, txn.start)
    ensures var row := ClaimBody(txn.snap, key, taskType, id, now).1.value;
            && Find(s.kv, id) == Some(row) && Claimable(row, taskType, now)
            && IsVersion(s, Made(TaskKey(id), Stamp(s, TaskKey(id))), row)
  {
    var (ops, row) := ClaimBody(txn.snap, key, taskType, id, now);
    assert ops[0] in ops && ops[0].key == TaskKey(id);
    assert Lookup(txn.snap, TaskKey(id)) == Lookup(s.kv, TaskKey(id));
    assert RunnableAt(s.kv, TaskKey(id));
  }

  lemma CloseKeeps(s: State, w: nat)
    requires Inv(s)
    ensures Inv(s.(open := s.open - {w}))
  {
    var s' := s.(open := s.open - {w});
    assert forall k :: Stamp(s', k) == Stamp(s, k);
    assert forall t :: TakenOk(s, t) ==> TakenOk(s', t);
    forall w' | w' in s'.open ensures SnapshotOk(s', s'.open[w']) { assert SnapshotOk(s, s.open[w']); }
  }

  lemma BeginKeeps(s: State, w: nat)
    requires Inv(s)
    ensures Inv(s.(open := s.open[w := Open(s.clock, s.kv)]))
  {
    var s' := s.(open := s.open[w := Open(s.clock, s.kv)]);
    assert forall k :: Stamp(s', k) == Stamp(s, k);
    assert forall t :: TakenOk(s, t) ==> TakenOk(s', t);
    forall w' | w' in s'.open ensures SnapshotOk(s', s'.open[w']) { if w' != w { assert SnapshotOk(s, s.open[w']); } }
  }

  /** A logged version is older than its key's last write, so a version current before that write is new to the log. */
  lemma LogKeeps(s: State, s': State, t: Taken)
    requires Inv(s) && Inv(s') && s'.log == s.log
    requires IsVersion(s', t.made, t.row) && Claimable(t.row, t.taskType, t.now)
    requires t.made.at == Stamp(s, t.made.key) < Stamp(s', t.made.key)
    ensures Inv(s'.(log := s.log + [t]))
  {
    var s'' := s'.(log := s.log + [t]);
    assert forall k :: Stamp(s'', k) == Stamp(s', k);
    forall i | 0 <= i < |s''.log| ensures TakenOk(s'', s''.log[i]) {
      if i < |s.log| { assert TakenOk(s', s'.log[i]); }
    }
    forall i | 0 <= i < |s.log| ensures s.log[i].made != t.made { assert TakenOk(s, s.log[i]); }
    forall w | w in s''.open ensures SnapshotOk(s'', s''.open[w]) { assert SnapshotOk(s', s'.open[w]); }
  }

  /** A committed claim joins the log. */
  lemma ClaimLogged(s: State, s0: State, s1: State, ops: Ops, t: Taken)
    requires Inv(s0) && Inv(s1) && s1 == Commit(s0, ops) && s0.log == s.log
    requires IsVersion(s0, t.made, t.row) && Claimable(t.row, t.taskType, t.now) && t.made.at == Stamp(s0, t.made.key)
    requires exists op :: op in ops && op.key == t.made.key
    ensures Inv(s1.(log := s.log + [t]))
  {
    CommitStamp(s0, ops, t.made.key);
    assert t.made.at <= s0.clock;
    VersionKept(s0, ops, t.made, t.row);
    LogKeeps(s0, s1, t);
  }

  lemma VersionKept(s: State, ops: Ops, m: Made, row: Task)
    requires IsVersion(s, m, row) && m.at <= s.clock
    ensures IsVersion(Commit(s, ops), m, row)
  {
  }

  /** The log entry of a claim that meets no conflict names the version current when it commits. */
  lemma ClaimEntry(s: State, w: nat, key: string, taskType: string, id: string, now: int) returns (t: Taken)
    requires Inv(s) && w in s.open
    requires var (ops, row) := ClaimBody(s.open[w].snap, key, taskType, id, now);
             row.Some? && !Conflict(s, ops, s.open[w].start)
    ensures var (ops, row) := ClaimBody(s.open[w].snap, key, taskType, id, now);
            && t == Taken(Made(TaskKey(id), Stamp(s, TaskKey(id))), row.value, now, taskType)
            && IsVersion(s, t.made, t.row) && Claimable(t.row, taskType, now)
            && exists op :: op in ops && op.key == t.made.key
  {
    var (ops, row) := ClaimBody(s.open[w].snap, key, taskType, id, now);
    ClaimCurrent(s, s.open[w], key, taskType, id, now);
    t := Taken(Made(TaskKey(id), Stamp(s, TaskKey(id))), row.value, now, taskType);
    assert ops[0] in ops && ops[0].key == TaskKey(id);
  }

  lemma ClaimKeeps(s: State, w: nat, key: string, taskType: string, id: string, now: int)
    requires Inv(s) && w in s.open
    ensures Inv(Next(s, Action.Claim(w, key, taskType, id, now)))
  {
    var txn := s.open[w];
    var (ops, row) := ClaimBody(txn.snap, key, taskType, id, now);
    var s0 := s.(open := s.open - {w});
    CloseKeeps(s, w);
    if !Conflict(s, ops, txn.start) {
      CommitKeeps(s0, ops);
      if row.Some? {
        var t := ClaimEntry(s, w, key, taskType, id, now);
        ClaimLogged(s, s0, Commit(s0, ops), ops, t);
      }
    }
  }

  lemma NextKeeps(s: State, a: Action)
    requires Inv(s)
    ensures Inv(Next(s, a))
  {
    match a
    case Begin(w) => BeginKeeps(s, w);
    case Batch(ops) => CommitKeeps(s, ops);
    case Claim(w, key, taskType, id, now) => if w in s.open { ClaimKeeps(s, w, key, taskType, id, now); }
  }

  lemma {:induction false} RunInv(actions: seq<Action>)
    ensures Inv(Run(actions))
  {
    if |actions| > 0 {
      RunInv(actions[..|actions| - 1]);
      NextKeeps(Run(actions[..|actions| - 1]), actions[|actions| - 1]);
    }
  }

  // ---- claims against runnable writes ----

  /** Under every interleaving, no row version is taken twice, and whatever the index contained
      every row taken was a runnable version, of the requested type and due. */
  lemma NoVersionTakenTwice(actions: seq<Action>, j: nat)
    requires j < |Run(actions).log|
    ensures var log := Run(actions).log;
            && IsVersion(Run(actions), log[j].made, log[j].row) && Claimable(log[j].row, log[j].taskType, log[j].now)
            && forall i :: 0 <= i < j ==> log[i].made != log[j].made
  {
    RunInv(actions);
  }

  ghost function ClaimsOf(log: seq<Taken>, key: string): nat {
    if |log| == 0 then 0 else ClaimsOf(log[..|log| - 1], key) + if log[|log| - 1].made.key == key then 1 else 0
  }

  ghost function TakenOf(log: seq<Taken>, key: string): set<Made> {
    if |log| == 0 then {}
    else TakenOf(log[..|log| - 1], key) + if log[|log| - 1].made.key == key then {log[|log| - 1].made} else {}
  }

  lemma {:induction false} TakenFrom(log: seq<Taken>, key: string, m: Made)
    requires m in TakenOf(log, key)
    ensures m.key == key && exists i :: 0 <= i < |log| && log[i].made == m
  {
    var rest := log[..|log| - 1];
    if m in TakenOf(rest, key) {
      TakenFrom(rest, key, m);
      var i :| 0 <= i < |rest| && rest[i].made == m;
      assert log[i].made == m;
    }
  }

  lemma {:induction false} ClaimsCounted(log: seq<Taken>, key: string)
    requires forall i, j :: 0 <= i < j < |log| ==> log[i].made != log[j].made
    ensures |TakenOf(log, key)| == ClaimsOf(log, key)
  {
    if |log| > 0 {
      var rest, last := log[..|log| - 1], log[|log| - 1];
      ClaimsCounted(rest, key);
      if last.made in TakenOf(rest, key) { TakenFrom(rest, key, last.made); }
    }
  }

  /** The committed claims of a task never exceed the committed writes that made it runnable. */
  lemma ClaimsWithinRunnableWrites(actions: seq<Action>, key: string)
    ensures ClaimsOf(Run(actions).log, key) <= |set m | m in Run(actions).runnable && m.key == key|
  {
    var s := Run(actions);
    RunInv(actions);
    ClaimsCounted(s.log, key);
    var writes := set m | m in s.runnable && m.key == key;
    forall m | m in TakenOf(s.log, key) ensures m in writes {
      TakenFrom(s.log, key, m);
      var i :| 0 <= i < |s.log| && s.log[i].made == m;
      assert TakenOk(s, s.log[i]);
    }
    SubsetCount(TakenOf(s.log, key), writes);
  }

  // ---- what a claim transaction comes to ----

  /** No write to the key has committed since the transaction began. */
  predicate Untouched(s: State, w: nat, key: string)
    requires w in s.open
  {
    Stamp(s, key) <= s.open[w].start
  }

  lemma ClaimConflict(s: State, key: string, id: string, t: Task, start: nat)
    ensures Conflict(s, ClaimOps(key, id, t), start) <==>
              || Stamp(s, TaskKey(id)) > start || Stamp(s, key) > start
              || Stamp(s, Ready(t)) > start || Stamp(s, Wait(t)) > start
  {
    var ops := ClaimOps(key, id, t);
    assert ops[0] in ops && ops[1] in ops && ops[2] in ops && ops[3] in ops;
  }

  lemma ClaimSees(s: State, w: nat, key: string, taskType: string, id: string, now: int, t: Task)
    requires Inv(s) && w in s.open && id != "" && Find(s.kv, id) == Some(t) && Claimable(t, taskType, now)
    requires Untouched(s, w, TaskKey(id))
    ensures ClaimBody(s.open[w].snap, key, taskType, id, now) == (ClaimOps(key, id, Claimed(t, id, now)), Some(t))
  {
    assert SnapshotOk(s, s.open[w]);
    assert Lookup(s.open[w].snap, TaskKey(id)) == Lookup(s.kv, TaskKey(id));
  }

  lemma ClaimSteps(s: State, w: nat, key: string, taskType: string, id: string, now: int, t: Task, ops: Ops)
    requires w in s.open && ClaimBody(s.open[w].snap, key, taskType, id, now) == (ops, Some(t))
    ensures var s' := Next(s, Action.Claim(w, key, taskType, id, now));
            if Conflict(s, ops, s.open[w].start) then s'.kv == s.kv && s'.log == s.log
            else
              && s'.kv == Apply(s.kv, ops)
              && s'.log == s.log + [Taken(Made(TaskKey(id), Stamp(s, TaskKey(id))), t, now, taskType)]
  {
  }

  /** What the claim of a row comes to: taken, with no other row changed, or nothing at all. */
  ghost predicate Decided(s: State, s': State, id: string, t: Task, now: int, taskType: string, taken: bool) {
    if taken then
      && s'.log == s.log + [Taken(Made(TaskKey(id), Stamp(s, TaskKey(id))), t, now, taskType)]
      && Find(s'.kv, id).Some? && ClaimedRow(s.kv, s'.kv, id, Find(s'.kv, id).value, now, taskType)
    else
      s'.kv == s.kv && s'.log == s.log
  }

  /** In every interleaving, a claim of a row that is due and has not been written since the
      transaction began takes it exactly when its index keys have not been written either. */
  lemma ClaimCommits(actions: seq<Action>, w: nat, key: string, taskType: string, id: string, now: int, t: Task)
    requires w in Run(actions).open && id != "" && IndexKey(key) && t.id == id
    requires Find(Run(actions).kv, id) == Some(t) && Claimable(t, taskType, now)
    requires Untouched(Run(actions), w, TaskKey(id))
    ensures var s, s' := Run(actions), Next(Run(actions), Action.Claim(w, key, taskType, id, now));
            Decided(s, s', id, t, now, taskType,
                    Untouched(s, w, key) && Untouched(s, w, Ready(t)) && Untouched(s, w, Wait(t)))
  {
    RunInv(actions);
    ClaimDecides(Run(actions), w, key, taskType, id, now, t);
  }

  lemma ClaimDecides(s: State, w: nat, key: string, taskType: string, id: string, now: int, t: Task)
    requires Inv(s) && w in s.open && id != "" && IndexKey(key) && t.id == id
    requires Find(s.kv, id) == Some(t) && Claimable(t, taskType, now) && Untouched(s, w, TaskKey(id))
    ensures Decided(s, Next(s, Action.Claim(w, key, taskType, id, now)), id, t, now, taskType,
                    Untouched(s, w, key) && Untouched(s, w, Ready(t)) && Untouched(s, w, Wait(t)))
  {
    var taken := Claimed(t, id, now);
    ClaimSees(s, w, key, taskType, id, now, t);
    ClaimSteps(s, w, key, taskType, id, now, t, ClaimOps(key, id, taken));
    ClaimConflict(s, key, id, taken, s.open[w].start);
    ClaimFinds(s.kv, key, id, taken);
  }
}
