/** A run in which a torn store leaves a served replica without its bytes. */
module TornStores {
  import opened MetaTypes
  import opened MetaStore
  import opened TieringProtocol
  import opened TieringInvariant
  import opened TieringSafety

  const CONFIG := Config(1, 1, 1, 1, 2)
  const REV := Rev("o", 1)
  const AT_A := Place("a", HotPath(REV))
  const AT_B := Place("b", HotPath(REV))

  // ---- the worlds of the run, in order ----

  const STARTED := Become(Init, 0, PutWriting(REV, [])).(data := Init.data[REV := "x"])
  const STORED := Become(STARTED.(blobs := STARTED.blobs[AT_A := "x"]), 0, PutWriting(REV, [] + ["a"]))
  const COMMITTED :=
    Become(STORED, 0, LateWatching(REV, [])).(
      db := CommitPut(STORED.db, REV, [] + ["a"], 1, 0, 0), committed := STORED.committed + {REV})
  const LATE := Become(COMMITTED.(blobs := COMMITTED.blobs[AT_B := "x"]), 0, LateWatching(REV, [] + ["b"]))
  const SEEN := Become(LATE, 0, LateChecked(REV, [] + ["b"]))
  const CHECKED := Become(SEEN, 1, HotRepairChecked(REV))
  const LISTED := Become(CHECKED, 1, HotRepairListed(REV, ActiveNodes(ReplicasOf(CHECKED.db, REV))))
  const FETCHED := Become(LISTED, 1, HotRepairWriting(REV, "x", []))
  const TORN := FETCHED.(blobs := FETCHED.blobs[AT_B := ""], torn := FETCHED.torn + {REV})
  const RECORDED := Finish(TORN, 0).(db := UpsertReplicas(TORN.db, REV, [] + ["b"]))

  // ---- its steps ----

  lemma PutStarts()
    ensures Step(CONFIG, Init, PutStart(0, REV, "x")) == Some(STARTED)
  {
  }

  lemma PutStores()
    ensures Step(CONFIG, STARTED, StoreHot(0, "a", true)) == Some(STORED)
  {
  }

  lemma PutCommits()
    ensures Step(CONFIG, STORED, PutCommit(0, 0, 0)) == Some(COMMITTED)
  {
  }

  /** What the metadata of the version says from the commit to the torn store. */
  lemma CommittedTables()
    ensures IsCurrent(COMMITTED.db, REV) && REV in COMMITTED.db.versions && COMMITTED.db.versions[REV].tier == Hot
    ensures ActiveNodes(ReplicasOf(COMMITTED.db, REV)) == {"a"}
  {
    assert ReplicasOf(COMMITTED.db, REV) == WithReplicas(map[], [] + ["a"]);
  }

  lemma LateStores()
    ensures Step(CONFIG, COMMITTED, StoreHot(0, "b", true)) == Some(LATE)
  {
  }

  lemma LateChecks()
    ensures Step(CONFIG, LATE, LateCheck(0)) == Some(SEEN)
  {
    CommittedTables();
  }

  lemma RepairStarts()
    ensures Step(CONFIG, SEEN, RepairStart(1, REV)) == Some(CHECKED)
  {
    CommittedTables();
  }

  lemma RepairLists()
    ensures Step(CONFIG, CHECKED, HotRepairList(1)) == Some(LISTED)
  {
    CommittedTables();
  }

  lemma FirstCopyHeld()
    ensures LISTED.workers[1] == HotRepairListed(REV, {"a"})
    ensures AT_A in LISTED.blobs && LISTED.blobs[AT_A] == "x"
  {
    CommittedTables();
    assert AT_A in COMMITTED.blobs && COMMITTED.blobs[AT_A] == "x";
  }

  lemma RepairFetches()
    ensures Step(CONFIG, LISTED, HotRepairFetch(1, "a")) == Some(FETCHED)
  {
    FirstCopyHeld();
  }

  /** The repair takes "b", which no row names yet, for a free node; its store there ends early. */
  lemma StoreTears()
    ensures UnsafeTear(FETCHED, REV, "b", "")
    ensures Step(CONFIG, FETCHED, TearHot(REV, "b", "")) == Some(TORN)
  {
    CommittedTables();
    assert 0 in FETCHED.workers && FETCHED.workers[0] == LateChecked(REV, [] + ["b"]);
    assert Relies(FETCHED.workers[0], REV, "b");
  }

  lemma LateUpserts()
    ensures Step(CONFIG, TORN, LateUpsert(0)) == Some(RECORDED)
  {
    assert 0 in TORN.workers && TORN.workers[0] == LateChecked(REV, [] + ["b"]);
  }

  lemma Then(actions: seq<Action>, world: World, a: Action, next: World)
    requires Run(CONFIG, actions) == Some(world) && Step(CONFIG, world, a) == Some(next)
    ensures Run(CONFIG, actions + [a]) == Some(next)
  {
    assert (actions + [a])[..|actions|] == actions;
  }

  lemma LateReplicaPending() returns (actions: seq<Action>)
    ensures Run(CONFIG, actions) == Some(SEEN)
  {
    PutStarts(); PutStores(); PutCommits(); LateStores(); LateChecks();
    Then([], Init, PutStart(0, REV, "x"), STARTED);
    actions := [] + [PutStart(0, REV, "x")];
    Then(actions, STARTED, StoreHot(0, "a", true), STORED);
    actions := actions + [StoreHot(0, "a", true)];
    Then(actions, STORED, PutCommit(0, 0, 0), COMMITTED);
    actions := actions + [PutCommit(0, 0, 0)];
    Then(actions, COMMITTED, StoreHot(0, "b", true), LATE);
    actions := actions + [StoreHot(0, "b", true)];
    Then(actions, LATE, LateCheck(0), SEEN);
    actions := actions + [LateCheck(0)];
  }

  lemma RepairTears() returns (actions: seq<Action>)
    ensures Run(CONFIG, actions) == Some(TORN)
  {
    RepairStarts(); RepairLists(); RepairFetches(); StoreTears();
    actions := LateReplicaPending();
    Then(actions, SEEN, RepairStart(1, REV), CHECKED);
    actions := actions + [RepairStart(1, REV)];
    Then(actions, CHECKED, HotRepairList(1), LISTED);
    actions := actions + [HotRepairList(1)];
    Then(actions, LISTED, HotRepairFetch(1, "a"), FETCHED);
    actions := actions + [HotRepairFetch(1, "a")];
    Then(actions, FETCHED, TearHot(REV, "b", ""), TORN);
    actions := actions + [TearHot(REV, "b", "")];
  }

  lemma RecordedIncomplete()
    ensures "o" in RECORDED.db.objects && !CopiesComplete(RECORDED, "o")
  {
    CommittedTables();
    assert "b" in ActiveNodes(ReplicasOf(RECORDED.db, REV)) && !Complete(RECORDED, "b", REV);
  }

  /** A PUT commits with "a" and its late observer has seen "b" succeed.  A repair that takes "b"
      for an unused node tears its copy; the observer then names "b" in an ACTIVE row, and the
      version is served from a node that does not hold its bytes. */
  lemma TornRunBreaksCopies() returns (actions: seq<Action>)
    ensures Run(CONFIG, actions) == Some(RECORDED)
    ensures "o" in RECORDED.db.objects && !CopiesComplete(RECORDED, "o")
  {
    LateUpserts();
    RecordedIncomplete();
    actions := RepairTears();
    Then(actions, TORN, LateUpsert(0), RECORDED);
    actions := actions + [LateUpsert(0)];
  }
}
