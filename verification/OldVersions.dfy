/** The retention scan that hands old versions to garbage collection. */
module OldVersions {
  import opened MetaTypes
  import opened MetaStore

  datatype Listed = Listed(version: int, createdAt: int)

  /** The rule by place in the list, newest first: outside the first `keep`, not current, old enough. */
  predicate Eligible(versions: seq<Listed>, i: nat, current: int, keep: nat, minAge: int, now: int)
    requires i < |versions|
  {
    i >= keep && versions[i].version != current && (minAge > 0 ==> now - versions[i].createdAt >= minAge)
  }

  /** The eligible versions among the first n, in order. */
  function EligibleOf(versions: seq<Listed>, n: nat, current: int, keep: nat, minAge: int, now: int): seq<int>
    requires n <= |versions|
  {
    if n == 0 then []
    else
      EligibleOf(versions, n - 1, current, keep, minAge, now) +
      if Eligible(versions, n - 1, current, keep, minAge, now) then [versions[n - 1].version] else []
  }

  ghost function Count(versions: seq<int>, changes: int -> bool): nat {
    if |versions| == 0 then 0
    else Count(versions[..|versions| - 1], changes) + if changes(versions[|versions| - 1]) then 1 else 0
  }

  lemma CountAppend(versions: seq<int>, v: int, changes: int -> bool)
    ensures Count(versions + [v], changes) == Count(versions, changes) + if changes(v) then 1 else 0
  {
    assert (versions + [v])[..|versions|] == versions;
  }

  /** The inner loop for one object.  `changes` says whether enqueueing a version's task changes
      anything.  What is handed over is the eligible versions in order, all of them unless the task
      budget ran out; and the count grows by the tasks that changed. */
  method EnqueueOldVersions(versions: seq<Listed>, current: int, keep: nat, minAge: int, now: int,
                            changes: int -> bool, maxTasks: nat, already: nat)
    returns (handed: seq<int>, enqueued: nat)
    requires already < maxTasks
    ensures handed <= EligibleOf(versions, |versions|, current, keep, minAge, now)
    ensures enqueued == already + Count(handed, changes) <= maxTasks
    ensures enqueued < maxTasks ==> handed == EligibleOf(versions, |versions|, current, keep, minAge, now)
  {
    handed, enqueued := [], already;
    if |versions| <= keep {
      NoneEligible(versions, |versions|, current, keep, minAge, now);
      return;
    }
    var retained := 0;
    for i := 0 to |versions|
      invariant i <= keep ==> retained == i
      invariant i >= keep ==> retained >= keep
      invariant handed == EligibleOf(versions, i, current, keep, minAge, now)
      invariant enqueued == already + Count(handed, changes) < maxTasks
    {
      var v := versions[i];
      EligibleStep(versions, i, current, keep, minAge, now);
      if v.version == current { retained := retained + 1; continue; }
      if retained < keep { retained := retained + 1; continue; }
      if minAge > 0 && now - v.createdAt < minAge { continue; }
      CountAppend(handed, v.version, changes);
      handed := handed + [v.version];
      if changes(v.version) {
        enqueued := enqueued + 1;
        if enqueued >= maxTasks {
          EligibleGrows(versions, i + 1, |versions|, current, keep, minAge, now);
          return;
        }
      }
    }
  }

  lemma EligibleStep(versions: seq<Listed>, i: nat, current: int, keep: nat, minAge: int, now: int)
    requires i < |versions|
    ensures EligibleOf(versions, i + 1, current, keep, minAge, now) ==
            EligibleOf(versions, i, current, keep, minAge, now) +
              if Eligible(versions, i, current, keep, minAge, now) then [versions[i].version] else []
  {
  }

  lemma {:induction false} NoneEligible(versions: seq<Listed>, n: nat, current: int, keep: nat, minAge: int, now: int)
    requires n <= |versions| && n <= keep
    ensures EligibleOf(versions, n, current, keep, minAge, now) == []
  {
    if n > 0 { NoneEligible(versions, n - 1, current, keep, minAge, now); }
  }

  lemma {:induction false} EligibleGrows(versions: seq<Listed>, i: nat, n: nat, current: int, keep: nat, minAge: int,
                                         now: int)
    requires i <= n <= |versions|
    ensures EligibleOf(versions, i, current, keep, minAge, now) <= EligibleOf(versions, n, current, keep, minAge, now)
    decreases n
  {
    if i < n { EligibleGrows(versions, i, n - 1, current, keep, minAge, now); }
  }

  // ---- the sweep over all objects ----

  datatype Head = Head(id: ObjectId, current: int)

  /** The version rows of an object as the store lists them, newest first. */
  type Listing = ObjectId -> seq<Listed>

  function Named(id: ObjectId, versions: seq<int>): seq<Rev> {
    seq(|versions|, i requires 0 <= i < |versions| => Rev(id, versions[i]))
  }

  function EligibleIn(head: Head, list: Listing, keep: nat, minAge: int, now: int): seq<Rev> {
    Named(head.id, EligibleOf(list(head.id), |list(head.id)|, head.current, keep, minAge, now))
  }

  /** The eligible versions of these objects, object by object. */
  function AllEligible(heads: seq<Head>, list: Listing, keep: nat, minAge: int, now: int): seq<Rev> {
    if |heads| == 0 then []
    else
      AllEligible(heads[..|heads| - 1], list, keep, minAge, now) +
      EligibleIn(heads[|heads| - 1], list, keep, minAge, now)
  }

  ghost function Changed(revs: seq<Rev>, changes: Rev -> bool): nat {
    if |revs| == 0 then 0
    else Changed(revs[..|revs| - 1], changes) + if changes(revs[|revs| - 1]) then 1 else 0
  }

  lemma {:induction false} ChangedJoin(a: seq<Rev>, id: ObjectId, versions: seq<int>, changes: Rev -> bool)
    ensures Changed(a + Named(id, versions), changes) == Changed(a, changes) + Count(versions, v => changes(Rev(id, v)))
  {
    var b := Named(id, versions);
    if |versions| == 0 {
      assert a + b == a;
    } else {
      var n := |versions| - 1;
      ChangedJoin(a, id, versions[..n], changes);
      assert (a + b)[..|a + b| - 1] == a + Named(id, versions[..n]);
    }
  }

  lemma {:induction false} AllEligibleGrows(heads: seq<Head>, i: nat, list: Listing, keep: nat, minAge: int, now: int)
    requires i <= |heads|
    ensures AllEligible(heads[..i], list, keep, minAge, now) <= AllEligible(heads, list, keep, minAge, now)
    decreases |heads|
  {
    if i == |heads| {
      assert heads[..i] == heads;
    } else {
      assert heads[..|heads| - 1][..i] == heads[..i];
      AllEligibleGrows(heads[..|heads| - 1], i, list, keep, minAge, now);
    }
  }

  lemma AllEligibleStep(heads: seq<Head>, i: nat, list: Listing, keep: nat, minAge: int, now: int)
    requires i < |heads|
    ensures AllEligible(heads[..i + 1], list, keep, minAge, now) ==
              AllEligible(heads[..i], list, keep, minAge, now) + EligibleIn(heads[i], list, keep, minAge, now)
  {
    assert heads[..i + 1][..i] == heads[..i];
  }

  function Keep(keepLatest: int): (n: nat)
    ensures n >= 1 && (keepLatest > 0 ==> n == keepLatest) && (keepLatest <= 0 ==> n == 1)
  {
    if keepLatest <= 0 then 1 else keepLatest
  }

  function Tasks(maxTasks: int): (n: nat)
    ensures n >= 1 && (maxTasks > 0 ==> n == maxTasks) && (maxTasks <= 0 ==> n == 200)
  {
    if maxTasks <= 0 then 200 else maxTasks
  }

  /** The whole sweep hands over the eligible versions of all objects in order, all of them unless
      the task budget ran out, and counts the tasks that changed. */
  method EnqueueOldVersionGCCandidates(heads: seq<Head>, list: Listing, keepLatest: int, minAge: int, now: int,
                                       changes: Rev -> bool, maxTasks: int)
    returns (handed: seq<Rev>, enqueued: nat)
    ensures handed <= AllEligible(heads, list, Keep(keepLatest), minAge, now)
    ensures enqueued == Changed(handed, changes) <= Tasks(maxTasks)
    ensures enqueued < Tasks(maxTasks) ==> handed == AllEligible(heads, list, Keep(keepLatest), minAge, now)
  {
    var keep, budget := Keep(keepLatest), Tasks(maxTasks);
    handed, enqueued := [], 0;
    for i := 0 to |heads|
      invariant handed <= AllEligible(heads[..i], list, keep, minAge, now)
      invariant enqueued == Changed(handed, changes) <= budget
      invariant enqueued < budget ==> handed == AllEligible(heads[..i], list, keep, minAge, now)
    {
      if enqueued >= budget {
        AllEligibleGrows(heads, i, list, keep, minAge, now);
        return;
      }
      var head := heads[i];
      AllEligibleStep(heads, i, list, keep, minAge, now);
      var versions, total := EnqueueOldVersions(list(head.id), head.current, keep, minAge, now,
                                                v => changes(Rev(head.id, v)), budget, enqueued);
      ChangedJoin(handed, head.id, versions, changes);
      handed, enqueued := handed + Named(head.id, versions), total;
    }
    assert heads[..|heads|] == heads;
  }

  // ---- the loop against the rows ----

  /** The version rows of one object, newest first. */
  ghost predicate ListsVersions(versions: seq<Listed>, db: Db, id: ObjectId) {
    && (forall i, j :: 0 <= i < j < |versions| ==> versions[i].version > versions[j].version)
    && (forall i :: 0 <= i < |versions| ==>
          && Rev(id, versions[i].version) in db.versions
          && db.versions[Rev(id, versions[i].version)].createdAt == versions[i].createdAt)
    && (forall r :: r in db.versions && r.id == id ==>
          exists i :: 0 <= i < |versions| && versions[i].version == r.version)
  }

  ghost function FirstRevs(versions: seq<Listed>, id: ObjectId, n: nat): set<Rev>
    requires n <= |versions|
  {
    set i | 0 <= i < n :: Rev(id, versions[i].version)
  }

  lemma {:induction false} FirstRevsSize(versions: seq<Listed>, id: ObjectId, n: nat)
    requires n <= |versions| && forall i, j :: 0 <= i < j < |versions| ==> versions[i].version > versions[j].version
    ensures |FirstRevs(versions, id, n)| == n
  {
    if n > 0 {
      FirstRevsSize(versions, id, n - 1);
      assert FirstRevs(versions, id, n) == FirstRevs(versions, id, n - 1) + {Rev(id, versions[n - 1].version)};
    }
  }

  /** A version's place in the list is the number of newer version rows. */
  lemma PlaceIsNewer(versions: seq<Listed>, db: Db, id: ObjectId, i: nat)
    requires ListsVersions(versions, db, id) && i < |versions|
    ensures |Newer(db, Rev(id, versions[i].version))| == i
  {
    var rev := Rev(id, versions[i].version);
    forall r | r in Newer(db, rev) ensures r in FirstRevs(versions, id, i) {
      var j :| 0 <= j < |versions| && versions[j].version == r.version;
      assert j < i by { assert forall m :: i < m < |versions| ==> versions[m].version < versions[i].version; }
    }
    forall r | r in FirstRevs(versions, id, i) ensures r in Newer(db, rev) {
      var j :| 0 <= j < i && r == Rev(id, versions[j].version);
      assert versions[j].version > versions[i].version;
    }
    assert Newer(db, rev) == FirstRevs(versions, id, i);
    FirstRevsSize(versions, id, i);
  }

  lemma {:induction false} EligibleMember(versions: seq<Listed>, n: nat, current: int, keep: nat, minAge: int,
                                          now: int, v: int)
    requires n <= |versions|
    ensures v in EligibleOf(versions, n, current, keep, minAge, now) <==>
              exists i :: 0 <= i < n && versions[i].version == v && Eligible(versions, i, current, keep, minAge, now)
  {
    if n > 0 {
      EligibleMember(versions, n - 1, current, keep, minAge, now, v);
      if Eligible(versions, n - 1, current, keep, minAge, now) && versions[n - 1].version == v {
        assert v in EligibleOf(versions, n, current, keep, minAge, now);
      }
    }
  }

  /** The versions the scan may hand over are exactly those outside the newest `keep`, not current
      and old enough. */
  lemma ScanHandsReapable(versions: seq<Listed>, db: Db, id: ObjectId, keep: nat, minAge: int, now: int, v: int)
    requires id in db.objects && ListsVersions(versions, db, id)
    ensures v in EligibleOf(versions, |versions|, db.objects[id].current, keep, minAge, now) <==>
              Reapable(db, Rev(id, v), keep, minAge, now)
  {
    EligibleMember(versions, |versions|, db.objects[id].current, keep, minAge, now, v);
    if Rev(id, v) in db.versions {
      var i :| 0 <= i < |versions| && versions[i].version == v;
      PlaceIsNewer(versions, db, id, i);
    }
  }

  /** The object rows and version rows as the sweep reads them. */
  ghost predicate ListsDb(heads: seq<Head>, list: Listing, db: Db) {
    && (forall h :: h in heads ==> h.id in db.objects && db.objects[h.id].current == h.current)
    && (forall id :: id in db.objects ==> Head(id, db.objects[id].current) in heads && ListsVersions(list(id), db, id))
  }

  lemma {:induction false} AllEligibleMember(heads: seq<Head>, list: Listing, keep: nat, minAge: int, now: int,
                                             rev: Rev)
    ensures rev in AllEligible(heads, list, keep, minAge, now) <==>
              exists h :: h in heads && rev in EligibleIn(h, list, keep, minAge, now)
  {
    if |heads| > 0 {
      var n := |heads| - 1;
      AllEligibleMember(heads[..n], list, keep, minAge, now, rev);
      assert heads == heads[..n] + [heads[n]];
    }
  }

  /** The versions the sweep may hand over are exactly those the retention rule allows to purge. */
  lemma SweepHandsReapable(heads: seq<Head>, list: Listing, db: Db, keep: nat, minAge: int, now: int, rev: Rev)
    requires ListsDb(heads, list, db)
    ensures rev in AllEligible(heads, list, keep, minAge, now) <==> Reapable(db, rev, keep, minAge, now)
  {
    AllEligibleMember(heads, list, keep, minAge, now, rev);
    if rev.id in db.objects {
      var head := Head(rev.id, db.objects[rev.id].current);
      ScanHandsReapable(list(rev.id), db, rev.id, keep, minAge, now, rev.version);
      NamedMember(head, list, keep, minAge, now, rev);
    }
    forall h | h in heads && rev in EligibleIn(h, list, keep, minAge, now)
      ensures h == Head(rev.id, h.current) && rev.id in db.objects && h.current == db.objects[rev.id].current
    {
      NamedMember(h, list, keep, minAge, now, rev);
    }
  }

  lemma NamedMember(head: Head, list: Listing, keep: nat, minAge: int, now: int, rev: Rev)
    ensures rev in EligibleIn(head, list, keep, minAge, now) <==>
              && rev.id == head.id
              && rev.version in EligibleOf(list(head.id), |list(head.id)|, head.current, keep, minAge, now)
  {
    var versions := EligibleOf(list(head.id), |list(head.id)|, head.current, keep, minAge, now);
    if rev.id == head.id && rev.version in versions {
      var i :| 0 <= i < |versions| && versions[i] == rev.version;
      assert Named(head.id, versions)[i] == rev;
    }
  }
}

/** The quorum loop of a replicated write. */
module WriteQuorum {
  import opened MetaTypes

  /** The reply of one replica node, in order of arrival. */
  datatype Reply = Reply(node: NodeId, ok: bool)

  function Successes(replies: seq<Reply>): seq<NodeId> {
    if |replies| == 0 then []
    else Successes(replies[..|replies| - 1]) + if replies[|replies| - 1].ok then [replies[|replies| - 1].node] else []
  }

  /** The successes are the nodes of the replies that succeeded, in the order of arrival. */
  lemma {:induction false} SuccessesAre(a: seq<Reply>, b: seq<Reply>)
    ensures Successes(a + b) == Successes(a) + Successes(b)
    ensures |b| == 1 ==> Successes(b) == if b[0].ok then [b[0].node] else []
  {
    if |b| == 0 {
      assert a + b == a;
    } else {
      var n := |b| - 1;
      assert (a + b)[..|a + b| - 1] == a + b[..n];
      SuccessesAre(a, b[..n]);
      assert b[..n] == [] ==> Successes(b[..n]) == [];
    }
  }

  /** The quorum a write must reach; one more than there are replicas when it cannot be met. */
  function Required(configured: int, replicas: nat): (q: nat)
    ensures q >= 1
    ensures configured > replicas > 0 ==> q > replicas
    ensures configured <= replicas ==> q == if configured < 1 then 1 else configured
  {
    var quorum := if configured <= 0 then 1 else configured;
    if replicas > 0 && quorum > replicas then replicas + 1 else quorum
  }

  lemma {:induction false} SuccessesGrow(replies: seq<Reply>, i: nat)
    requires i <= |replies|
    ensures Successes(replies[..i]) <= Successes(replies) && |Successes(replies)| <= |replies|
  {
    if |replies| == 0 {
      assert replies[..i] == replies;
    } else if i == |replies| {
      assert replies[..i] == replies;
      SuccessesGrow(replies[..|replies| - 1], |replies| - 1);
    } else {
      assert replies[..|replies| - 1][..i] == replies[..i];
      SuccessesGrow(replies[..|replies| - 1], i);
    }
  }

  lemma SuccessesPrefix(replies: seq<Reply>, i: nat, j: nat)
    requires i <= j <= |replies|
    ensures |Successes(replies[..i])| <= |Successes(replies[..j])|
  {
    SuccessesGrow(replies[..j], i);
    assert replies[..j][..i] == replies[..i];
  }

  datatype Outcome = Met | NotMet | Cancelled

  /** The caller gives up after so many replies, while replies are still out and the quorum is not in. */
  predicate GivesUp(replies: seq<Reply>, configured: int, cancelAfter: Option<nat>) {
    && cancelAfter.Some? && cancelAfter.value < |replies|
    && |Successes(replies[..cancelAfter.value])| < Required(configured, |replies|)
  }

  /** The loop stops as soon as the quorum is in: unless the caller gives up before, the write
      commits exactly when enough replicas store it, and the nodes recorded are the first of them
      to reply; later replies are left over. */
  method AwaitQuorum(replies: seq<Reply>, configured: int, cancelAfter: Option<nat>)
    returns (outcome: Outcome, written: seq<NodeId>, observed: nat)
    ensures outcome == Cancelled <==> GivesUp(replies, configured, cancelAfter)
    ensures outcome == Met <==>
              && !GivesUp(replies, configured, cancelAfter)
              && |Successes(replies)| >= configured && |Successes(replies)| >= 1
    ensures observed <= |replies| && written == Successes(replies[..observed]) && written <= Successes(replies)
    ensures outcome == Met ==>
              |written| == Required(configured, |replies|) && |written| >= configured && |written| >= 1
    ensures outcome == NotMet ==> observed == |replies|
  {
    var required := Required(configured, |replies|);
    observed, written := 0, [];
    while |written| < required && observed < |replies|
      invariant observed <= |replies| && written == Successes(replies[..observed]) && |written| <= required
      invariant cancelAfter.Some? ==> observed <= cancelAfter.value
    {
      if cancelAfter == Some(observed) {
        SuccessesGrow(replies, observed);
        return Cancelled, written, observed;
      }
      assert replies[..observed + 1][..observed] == replies[..observed];
      if replies[observed].ok { written := written + [replies[observed].node]; }
      observed := observed + 1;
    }
    SuccessesGrow(replies, observed);
    SuccessesGrow(replies[..observed], observed);
    assert replies[..|replies|] == replies;
    if cancelAfter.Some? && cancelAfter.value < |replies| { SuccessesPrefix(replies, observed, cancelAfter.value); }
    outcome := if |written| >= required then Met else NotMet;
  }
}
