/** The whole candidate pass: the burst scan, the ordering of the candidates, the selection and the
    writes for the selected ones.  Run without interruption it is a sequence of the protocol's
    PruneDue and SelectDue steps. */
module CandidatePass {
  import opened MetaTypes
  import opened ByteOrder
  import opened Keys
  import opened KvClient
  import opened ScanPlan
  import opened MetaStore
  import opened TieringProtocol
  import opened TieringInvariant
  import opened DueScan
  import opened Counting

  // ---- the order of the candidates ----

  datatype Found = Found(key: string, rev: Rev, size: int, updatedAt: int)

  /** Oldest first, then the larger, then the smaller object id. */
  predicate Before(a: Found, b: Found) {
    if a.updatedAt != b.updatedAt then a.updatedAt < b.updatedAt
    else if a.size != b.size then a.size > b.size
    else Less(a.rev.id, b.rev.id)
  }

  lemma BeforeTransitive(a: Found, b: Found, d: Found)
    requires !Before(b, a) && !Before(d, b)
    ensures !Before(d, a)
  {
    if a.updatedAt == b.updatedAt == d.updatedAt && a.size == b.size == d.size && Less(d.rev.id, a.rev.id) {
      if a.rev.id != b.rev.id { LessTotal(a.rev.id, b.rev.id); LessTransitive(d.rev.id, a.rev.id, b.rev.id); }
    }
  }

  lemma BeforeAsymmetric(a: Found, b: Found)
    requires Before(a, b)
    ensures !Before(b, a)
  {
    if a.updatedAt == b.updatedAt && a.size == b.size { LessAsymmetric(a.rev.id, b.rev.id); }
  }

  ghost predicate Ordered(s: seq<Found>) { forall i, j :: 0 <= i < j < |s| ==> !Before(s[j], s[i]) }

  function Insert(s: seq<Found>, x: Found): (r: seq<Found>)
    ensures multiset(r) == multiset(s) + multiset{x}
  {
    if |s| == 0 || Before(x, s[0]) then
      [x] + s
    else
      assert s == [s[0]] + s[1..];
      [s[0]] + Insert(s[1..], x)
  }

  function Sort(s: seq<Found>): (r: seq<Found>)
    ensures multiset(r) == multiset(s)
  {
    if |s| == 0 then [] else
    assert s == s[..|s| - 1] + [s[|s| - 1]];
    Insert(Sort(s[..|s| - 1]), s[|s| - 1])
  }

  lemma {:induction false} InsertOrdered(s: seq<Found>, x: Found)
    requires Ordered(s)
    ensures Ordered(Insert(s, x))
  {
    if |s| > 0 && !Before(x, s[0]) {
      InsertOrdered(s[1..], x);
      var rest := Insert(s[1..], x);
      forall y | y in rest ensures !Before(y, s[0]) {
        assert y in multiset(rest);
        if y != x { assert y in multiset(s[1..]); }
      }
    } else if |s| > 0 {
      BeforeAsymmetric(x, s[0]);
      forall j | 0 <= j < |s| ensures !Before(s[j], x) { if j > 0 { BeforeTransitive(x, s[0], s[j]); } }
    }
  }

  lemma {:induction false} SortSorts(s: seq<Found>)
    ensures Ordered(Sort(s))
  {
    if |s| > 0 {
      SortSorts(s[..|s| - 1]);
      InsertOrdered(Sort(s[..|s| - 1]), s[|s| - 1]);
    }
  }

  /** Objects unchanged for longest come first, of those the larger, of those the smaller id. */
  ghost predicate OldestFirst(s: seq<Found>) {
    forall i, j :: 0 <= i < j < |s| ==>
      && s[i].updatedAt <= s[j].updatedAt
      && (s[i].updatedAt == s[j].updatedAt ==> s[i].size >= s[j].size)
      && (s[i].updatedAt == s[j].updatedAt && s[i].size == s[j].size ==> !Less(s[j].rev.id, s[i].rev.id))
  }

  /** The candidates come in order, none lost and none repeated. */
  lemma SortOrdered(s: seq<Found>)
    ensures OldestFirst(Sort(s)) && multiset(Sort(s)) == multiset(s)
  {
    SortSorts(s);
    var r := Sort(s);
    forall i, j | 0 <= i < j < |r| ensures !Before(r[j], r[i]) {}
  }

  // ---- the entries of the index and the rows of the protocol ----

  /** The index holds exactly the due entries of the database. */
  ghost predicate Mirrors(db: Db, due: Due) {
    DuePaired(db) && EntriesStand(db, due) && RefsStand(db, due)
  }

  /** Every entry of the index is one of the database, under the key built from it. */
  ghost predicate EntriesStand(db: Db, due: Due) {
    forall k :: k in due ==>
      && due[k].rev in db.dueRefs && db.dueRefs[due[k].rev] == due[k].eligibleAt
      && k == DueKey(due[k].eligibleAt, due[k].rev)
  }

  /** Every entry of the database is one of the index. */
  ghost predicate RefsStand(db: Db, due: Due) {
    forall rev :: rev in db.dueRefs ==> HasEntry(due, DueKey(db.dueRefs[rev], rev), rev)
  }

  ghost predicate HasEntry(due: Due, k: string, rev: Rev) { k in due && due[k].rev == rev }

  lemma RemoveMirrors(db: Db, due: Due, k: string)
    requires Mirrors(db, due) && k in due
    ensures Mirrors(RemoveDue(db, due[k].rev), due - {k})
  {
    RemoveDuePaired(db, due[k].rev);
    RemoveEntries(db, due, k);
    RemoveRefs(db, due, k);
  }

  lemma RemoveEntries(db: Db, due: Due, k: string)
    requires EntriesStand(db, due) && k in due
    ensures EntriesStand(RemoveDue(db, due[k].rev), due - {k})
  {
  }

  lemma RemoveRefs(db: Db, due: Due, k: string)
    requires EntriesStand(db, due) && RefsStand(db, due) && k in due
    ensures RefsStand(RemoveDue(db, due[k].rev), due - {k})
  {
    var rev := due[k].rev;
    var db' := RemoveDue(db, rev);
    forall r | r in db'.dueRefs ensures HasEntry(due - {k}, DueKey(db'.dueRefs[r], r), r) {
      assert HasEntry(due, DueKey(db.dueRefs[r], r), r);
    }
  }

  /** Selecting changes no current version and keeps a HOT head HOT. */
  lemma SelectKeepsFresh(db: Db, rev: Rev, now: int, other: Rev)
    requires !StaleDue(db, other)
    ensures !StaleDue(SelectCandidate(db, rev, now), other)
  {
  }

  // ---- runs ----

  ghost predicate At(c: Config, history: seq<Action>, world: World) { Run(c, history) == Some(world) }

  lemma StepOn(c: Config, history: seq<Action>, world: World, a: Action)
    requires At(c, history, world) && Step(c, world, a).Some?
    ensures At(c, history + [a], Step(c, world, a).value)
  {
    var all := history + [a];
    assert all[..|all| - 1] == history;
  }

  predicate PassAction(a: Action) { a.PruneDue? || a.SelectDue? }

  ghost predicate Extends(history: seq<Action>, history': seq<Action>) {
    |history| <= |history'| && history'[..|history|] == history &&
    forall i :: |history| <= i < |history'| ==> PassAction(history'[i])
  }

  lemma ExtendsOn(history: seq<Action>, history': seq<Action>, a: Action)
    requires Extends(history, history') && PassAction(a)
    ensures Extends(history, history' + [a])
  {
    assert (history' + [a])[..|history|] == history'[..|history|];
  }

  /** Two worlds that differ in the due index only. */
  ghost predicate SameButDue(world: World, world': World) {
    world' == world.(db := world.db.(dueRefs := world'.db.dueRefs, dueKeys := world'.db.dueKeys))
  }

  lemma PruneStep(c: Config, world: World, rev: Rev)
    requires rev in world.db.dueRefs && StaleDue(world.db, rev)
    ensures Step(c, world, PruneDue(rev)) == Some(world.(db := RemoveDue(world.db, rev)))
  {
  }

  lemma SplitLast(keys: seq<string>)
    requires |keys| > 0
    ensures keys == keys[..|keys| - 1] + [keys[|keys| - 1]]
  {
  }

  lemma DropLast(due: Due, before: seq<string>, k: string, judge: string -> Verdict)
    ensures due - StaleOf(before + [k], judge) ==
              if judge(k) == Stale then due - StaleOf(before, judge) - {k} else due - StaleOf(before, judge)
  {
    assert StaleOf(before + [k], judge) == StaleOf(before, judge) + if judge(k) == Stale then {k} else {};
  }

  /** The world after the stale entries among these keys were dropped one after the other. */
  ghost function PrunedAll(world: World, due: Due, keys: seq<string>, judge: string -> Verdict): World
    requires forall k :: k in keys ==> k in due
  {
    if |keys| == 0 then world else
    var n := |keys| - 1;
    var before := PrunedAll(world, due, keys[..n], judge);
    if judge(keys[n]) == Stale then before.(db := RemoveDue(before.db, due[keys[n]].rev)) else before
  }

  lemma {:induction false} PrunedMirrors(world: World, due: Due, keys: seq<string>, judge: string -> Verdict)
    requires Mirrors(world.db, due) && Distinct(keys) && forall k :: k in keys ==> k in due
    ensures SameButDue(world, PrunedAll(world, due, keys, judge))
    ensures Mirrors(PrunedAll(world, due, keys, judge).db, due - StaleOf(keys, judge))
  {
    if |keys| == 0 {
      assert due - StaleOf(keys, judge) == due;
    } else {
      var n := |keys| - 1;
      var before, k := keys[..n], keys[n];
      PrunedMirrors(world, due, before, judge);
      SplitLast(keys);
      DropLast(due, before, k, judge);
      assert k !in before;
      if judge(k) == Stale { RemoveMirrors(PrunedAll(world, due, before, judge).db, due - StaleOf(before, judge), k); }
    }
  }

  // ---- the pass as steps ----

  /** The history goes on from `start` by pass actions only and ends in the world. */
  ghost predicate On(c: Config, start: seq<Action>, history: seq<Action>, world: World) {
    At(c, history, world) && Extends(start, history)
  }

  lemma PruneOne(c: Config, start: seq<Action>, history: seq<Action>, world: World, rev: Rev)
    requires On(c, start, history, world) && rev in world.db.dueRefs && StaleDue(world.db, rev)
    ensures On(c, start, history + [PruneDue(rev)], world.(db := RemoveDue(world.db, rev)))
  {
    PruneStep(c, world, rev);
    StepOn(c, history, world, PruneDue(rev));
    ExtendsOn(start, history, PruneDue(rev));
  }

  lemma StaleWaits(first: World, rows: Db, due: Due, eligibleBefore: int, before: seq<string>, k: string)
    requires Mirrors(first.db, due) && rows.objects == first.db.objects && rows.versions == first.db.versions
    requires Distinct(before) && (forall k' :: k' in before ==> k' in due) && k in due && k !in before
    requires JudgeOf(rows, due, eligibleBefore)(k) == Stale
    ensures var world := PrunedAll(first, due, before, JudgeOf(rows, due, eligibleBefore));
            due[k].rev in world.db.dueRefs && StaleDue(world.db, due[k].rev)
  {
    var judge := JudgeOf(rows, due, eligibleBefore);
    PrunedMirrors(first, due, before, judge);
    var left := due - StaleOf(before, judge);
    assert k in left && left[k] == due[k];
    VerdictSound(rows, due[k].rev, eligibleBefore);
  }

  /** The prunes of the scan are steps. */
  lemma {:induction false} PrunesAreSteps(c: Config, start: seq<Action>, first: World, rows: Db, due: Due,
                                          eligibleBefore: int, visited: seq<string>)
    returns (history: seq<Action>)
    requires At(c, start, first) && Mirrors(first.db, due)
    requires rows.objects == first.db.objects && rows.versions == first.db.versions
    requires Distinct(visited) && forall k :: k in visited ==> k in due
    ensures On(c, start, history, PrunedAll(first, due, visited, JudgeOf(rows, due, eligibleBefore)))
  {
    if |visited| == 0 {
      history := start;
    } else {
      var judge, n := JudgeOf(rows, due, eligibleBefore), |visited| - 1;
      history := PrunesAreSteps(c, start, first, rows, due, eligibleBefore, visited[..n]);
      if judge(visited[n]) == Stale {
        assert visited[n] !in visited[..n];
        StaleWaits(first, rows, due, eligibleBefore, visited[..n], visited[n]);
        PruneOne(c, start, history, PrunedAll(first, due, visited[..n], judge), due[visited[n]].rev);
        history := history + [PruneDue(due[visited[n]].rev)];
      }
    }
  }

  // ---- the pass ----

  function FoundOf(rows: Db, due: Due, k: string): Found
    requires k in due && due[k].rev.id in rows.objects && due[k].rev in rows.versions
  {
    Found(k, due[k].rev, rows.versions[due[k].rev].size, rows.objects[due[k].rev.id].updatedAt)
  }

  ghost predicate KeysApart(s: seq<Found>) { forall i, j :: 0 <= i < j < |s| ==> s[i].key != s[j].key }

  lemma {:induction false} InsertApart(s: seq<Found>, x: Found)
    requires KeysApart(s) && forall y :: y in s ==> y.key != x.key
    ensures KeysApart(Insert(s, x))
  {
    if |s| > 0 && !Before(x, s[0]) {
      InsertApart(s[1..], x);
      var rest := Insert(s[1..], x);
      forall y | y in rest ensures y.key != s[0].key {
        assert y in multiset(rest);
        if y != x { assert y in multiset(s[1..]); }
      }
    }
  }

  lemma {:induction false} SortApart(s: seq<Found>)
    requires KeysApart(s)
    ensures KeysApart(Sort(s))
  {
    if |s| > 0 {
      var before, x := s[..|s| - 1], s[|s| - 1];
      SortApart(before);
      forall y | y in Sort(before) ensures y.key != x.key {
        assert y in multiset(Sort(before)) && y in before;
      }
      InsertApart(Sort(before), x);
    }
  }

  lemma {:induction false} CandidateKeys(visited: seq<string>, judge: string -> Verdict)
    requires Distinct(visited)
    ensures Distinct(CandidatesOf(visited, judge))
    ensures forall k :: k in CandidatesOf(visited, judge) ==> k in visited && judge(k) == Candidate
  {
    if |visited| > 0 {
      var n := |visited| - 1;
      CandidateKeys(visited[..n], judge);
      assert visited[n] !in visited[..n];
    }
  }

  /** A candidate that can be selected: its entry stands in the index and its object is still HOT. */
  ghost predicate Selectable(db: Db, due: Due, f: Found) {
    f.key in due && due[f.key].rev == f.rev && !StaleDue(db, f.rev)
  }

  lemma SelectStep(c: Config, world: World, rev: Rev, now: int)
    requires rev in world.db.dueRefs && !StaleDue(world.db, rev)
    ensures Step(c, world, SelectDue(rev, now)) == Some(Selected(world, rev, now))
  {
  }

  ghost function Selected(world: World, rev: Rev, now: int): World {
    world.(db := SelectCandidate(world.db, rev, now),
           queued := world.queued + {rev}, taskRows := world.taskRows + {rev})
  }

  lemma SelectMirrors(db: Db, due: Due, f: Found, now: int)
    requires Mirrors(db, due) && Selectable(db, due, f)
    ensures Mirrors(SelectCandidate(db, f.rev, now), due - {f.key})
  {
    RemoveMirrors(db, due, f.key);
    var cleared, db' := RemoveDue(db, f.rev), SelectCandidate(db, f.rev, now);
    assert db'.dueRefs == cleared.dueRefs && db'.dueKeys == cleared.dueKeys;
  }

  /** The world after these versions were selected one after the other. */
  ghost function SelectedAll(world: World, revs: seq<Rev>, now: int): World {
    if |revs| == 0 then world else Selected(SelectedAll(world, revs[..|revs| - 1], now), revs[|revs| - 1], now)
  }

  lemma {:induction false} OthersWait(world: World, revs: seq<Rev>, now: int, rev: Rev)
    requires rev !in revs && rev in world.db.dueRefs && !StaleDue(world.db, rev)
    ensures var world' := SelectedAll(world, revs, now);
            rev in world'.db.dueRefs && !StaleDue(world'.db, rev)
  {
    if |revs| > 0 {
      var n := |revs| - 1;
      OthersWait(world, revs[..n], now, rev);
      SelectKeepsFresh(SelectedAll(world, revs[..n], now).db, revs[n], now, rev);
    }
  }

  lemma SelectOne(c: Config, start: seq<Action>, history: seq<Action>, world: World, rev: Rev, now: int)
    requires On(c, start, history, world) && rev in world.db.dueRefs && !StaleDue(world.db, rev)
    ensures On(c, start, history + [SelectDue(rev, now)], Selected(world, rev, now))
  {
    SelectStep(c, world, rev, now);
    StepOn(c, history, world, SelectDue(rev, now));
    ExtendsOn(start, history, SelectDue(rev, now));
  }

  /** Selecting different versions with fresh due entries is a sequence of SelectDue steps. */
  lemma {:induction false} SelectsAreSteps(c: Config, start: seq<Action>, before: seq<Action>, first: World,
                                           revs: seq<Rev>, now: int)
    returns (history: seq<Action>)
    requires On(c, start, before, first) && Distinct(revs)
    requires forall rev :: rev in revs ==> rev in first.db.dueRefs && !StaleDue(first.db, rev)
    ensures On(c, start, history, SelectedAll(first, revs, now))
  {
    if |revs| == 0 {
      history := before;
    } else {
      var n := |revs| - 1;
      history := SelectsAreSteps(c, start, before, first, revs[..n], now);
      OthersWait(first, revs[..n], now, revs[n]);
      SelectOne(c, start, history, SelectedAll(first, revs[..n], now), revs[n], now);
      history := history + [SelectDue(revs[n], now)];
    }
  }

  function SizesOf(order: seq<Found>): seq<int> { seq(|order|, i requires 0 <= i < |order| => order[i].size) }

  /** The candidates in the order in which they are taken. */
  ghost predicate IsOrder(rows: Db, due: Due, keys: seq<string>, order: seq<Found>) {
    && OldestFirst(order) && KeysApart(order) && |order| == |keys|
    && (forall f :: f in order ==> f.key in keys && f.key in due && due[f.key].rev == f.rev)
    && (forall f :: f in order ==> IsFound(rows, f))
    && (forall k :: k in keys ==> exists f :: f in order && f.key == k)
  }

  /** Size and age are those of the version row and the head. */
  ghost predicate IsFound(rows: Db, f: Found) {
    && f.rev.id in rows.objects && f.rev in rows.versions
    && f.size == rows.versions[f.rev].size && f.updatedAt == rows.objects[f.rev.id].updatedAt
  }

  function Arrange(rows: Db, due: Due, keys: seq<string>): seq<Found>
    requires forall k :: k in keys ==> k in due && due[k].rev.id in rows.objects && due[k].rev in rows.versions
  {
    Sort(FoundAll(rows, due, keys))
  }

  function FoundAll(rows: Db, due: Due, keys: seq<string>): seq<Found>
    requires forall k :: k in keys ==> k in due && due[k].rev.id in rows.objects && due[k].rev in rows.versions
  {
    seq(|keys|, i requires 0 <= i < |keys| => FoundOf(rows, due, keys[i]))
  }

  lemma ArrangeOrders(rows: Db, due: Due, keys: seq<string>)
    requires Distinct(keys)
    requires forall k :: k in keys ==> k in due && due[k].rev.id in rows.objects && due[k].rev in rows.versions
    ensures IsOrder(rows, due, keys, Arrange(rows, due, keys))
  {
    var found := FoundAll(rows, due, keys);
    SortOrdered(found);
    SortApart(found);
    SameElements(found, Sort(found));
    FoundMembers(rows, due, keys, Sort(found));
    FoundAllKeys(rows, due, keys, Sort(found));
  }

  lemma FoundMembers(rows: Db, due: Due, keys: seq<string>, order: seq<Found>)
    requires forall k :: k in keys ==> k in due && due[k].rev.id in rows.objects && due[k].rev in rows.versions
    requires forall f :: f in order ==> f in FoundAll(rows, due, keys)
    ensures forall f :: f in order ==> f.key in keys && f.key in due && due[f.key].rev == f.rev
    ensures forall f :: f in order ==> IsFound(rows, f)
  {
    forall f | f in order ensures f.key in keys && f == FoundOf(rows, due, f.key) {
      assert f in FoundAll(rows, due, keys);
    }
  }

  lemma FoundAllKeys(rows: Db, due: Due, keys: seq<string>, order: seq<Found>)
    requires forall k :: k in keys ==> k in due && due[k].rev.id in rows.objects && due[k].rev in rows.versions
    requires multiset(order) == multiset(FoundAll(rows, due, keys))
    ensures forall k :: k in keys ==> exists f :: f in order && f.key == k
  {
    var found := FoundAll(rows, due, keys);
    SameElements(order, found);
    forall k | k in keys ensures exists f :: f in order && f.key == k {
      var i :| 0 <= i < |keys| && keys[i] == k;
      assert found[i] in found && found[i] in order;
    }
  }

  lemma SameElements(s: seq<Found>, t: seq<Found>)
    requires multiset(s) == multiset(t)
    ensures |s| == |t| && forall f :: f in t ==> f in s
  {
    assert |s| == |multiset(s)| == |multiset(t)| == |t|;
    forall f | f in t ensures f in s { assert f in multiset(t); }
  }

  /** The picked candidates. */
  function Chosen(order: seq<Found>, picked: seq<nat>): seq<Found>
    requires forall j :: 0 <= j < |picked| ==> picked[j] < |order|
  {
    seq(|picked|, j requires 0 <= j < |picked| => order[picked[j]])
  }

  function RevsOf(chosen: seq<Found>): seq<Rev> { seq(|chosen|, j requires 0 <= j < |chosen| => chosen[j].rev) }

  ghost predicate AllSelectable(db: Db, due: Due, chosen: seq<Found>, i: nat) {
    forall j :: i <= j < |chosen| ==> Selectable(db, due, chosen[j])
  }

  lemma StillSelectable(db: Db, due: Due, chosen: seq<Found>, i: nat, now: int)
    requires KeysApart(chosen) && i < |chosen| && AllSelectable(db, due, chosen, i)
    ensures AllSelectable(SelectCandidate(db, chosen[i].rev, now), due - {chosen[i].key}, chosen, i + 1)
  {
    var f := chosen[i];
    forall j | i < j < |chosen| ensures Selectable(SelectCandidate(db, f.rev, now), due - {f.key}, chosen[j]) {
      SelectKeepsFresh(db, f.rev, now, chosen[j].rev);
    }
  }

  lemma SelectedSnoc(world: World, chosen: seq<Found>, i: nat, now: int)
    requires i < |chosen|
    ensures var revs := RevsOf(chosen);
            && revs[..i + 1] == revs[..i] + [chosen[i].rev]
            && SelectedAll(world, revs[..i + 1], now) ==
                 Selected(SelectedAll(world, revs[..i], now), chosen[i].rev, now)
  {
    var revs := RevsOf(chosen);
    assert revs[..i + 1][..i] == revs[..i];
  }

  lemma VisitedStand(due: Due, now: int, visited: seq<string>)
    requires FirstReady(Begin(due, now), visited)
    ensures Distinct(visited) && forall k :: k in visited ==> k in due
  {
    var keys := PrefixKeys(due, TIER_DUE);
    forall i, j | 0 <= i < j < |visited| ensures visited[i] != visited[j] { LessIrreflexive(keys[i]); }
    forall k | k in visited ensures k in due { assert k in keys; }
  }

  /** The gathered candidates keep their entries, and their objects are HOT. */
  ghost predicate Stand(rows: Db, due: Due, kv: Due, keys: seq<string>) {
    forall k :: k in keys ==> k in due && k in kv && kv[k] == due[k] && !StaleDue(rows, due[k].rev)
  }

  lemma CandidatesStand(rows: Db, due: Due, eligibleBefore: int, visited: seq<string>, keys: seq<string>, kv: Due)
    requires Distinct(visited) && forall k :: k in visited ==> k in due
    requires Progress(due, JudgeOf(rows, due, eligibleBefore), visited, keys, kv)
    ensures Distinct(keys) && Stand(rows, due, kv, keys)
  {
    var judge := JudgeOf(rows, due, eligibleBefore);
    CandidateKeys(visited, judge);
    forall k | k in keys ensures k in due && k in kv && kv[k] == due[k] && !StaleDue(rows, due[k].rev) {
      VerdictSound(rows, due[k].rev, eligibleBefore);
    }
  }

  lemma ChosenStand(rows: Db, due: Due, kv: Due, keys: seq<string>, order: seq<Found>, picked: seq<nat>)
    requires IsOrder(rows, due, keys, order) && Increasing(picked, |order|) && Stand(rows, due, kv, keys)
    ensures KeysApart(Chosen(order, picked)) && AllSelectable(rows, kv, Chosen(order, picked), 0)
  {
    var chosen := Chosen(order, picked);
    forall j | 0 <= j < |chosen| ensures Selectable(rows, kv, chosen[j]) { assert chosen[j] in order; }
  }

  /** The order is that of the candidates among the first ready entries. */
  ghost predicate IsChoice(rows: Db, due: Due, now: int, eligibleBefore: int, visited: seq<string>, order: seq<Found>) {
    && FirstReady(Begin(due, now), visited)
    && IsOrder(rows, due, CandidatesOf(visited, JudgeOf(rows, due, eligibleBefore)), order)
  }

  /** The scan saw all ready entries, or as many as its rounds allow, or (without a byte budget)
      enough of them to fill the object cap. */
  ghost predicate Covers(due: Due, now: int, plan: Plan, byteBudget: bool, maxObjects: int, visited: seq<string>,
                         order: seq<Found>) {
    || |visited| == Min(Begin(due, now).ready, Budget(plan.base, plan.rounds, plan.adaptiveMax))
    || (!byteBudget && |order| >= if maxObjects <= 0 then 200 else maxObjects)
  }

  /** The places the greedy selection takes. */
  function PickedOf(order: seq<Found>, byteBudget: bool, maxObjects: int, maxBytes: int): (picked: seq<nat>)
    ensures Increasing(picked, |order|)
  {
    var cap: nat := if maxObjects <= 0 then 200 else maxObjects;
    var budget := if byteBudget then maxBytes else 0;
    GreedyShape(SizesOf(order), |order|, cap, budget);
    Greedy(SizesOf(order), |order|, cap, budget).picked
  }

  lemma RevsStand(db: Db, kv: Due, chosen: seq<Found>)
    requires Mirrors(db, kv) && KeysApart(chosen) && AllSelectable(db, kv, chosen, 0)
    ensures Distinct(RevsOf(chosen))
    ensures forall rev :: rev in RevsOf(chosen) ==> rev in db.dueRefs && !StaleDue(db, rev)
  {
    var revs := RevsOf(chosen);
    forall i, j | 0 <= i < j < |revs| ensures revs[i] != revs[j] {
      assert Selectable(db, kv, chosen[i]) && Selectable(db, kv, chosen[j]);
    }
    forall rev | rev in revs ensures rev in db.dueRefs && !StaleDue(db, rev) {
      var j :| 0 <= j < |revs| && revs[j] == rev;
      assert Selectable(db, kv, chosen[j]);
    }
  }

  lemma ChoiceStands(rows: Db, due: Due, now: int, eligibleBefore: int, visited: seq<string>, keys: seq<string>,
                     kv: Due)
    requires FirstReady(Begin(due, now), visited)
    requires Progress(due, JudgeOf(rows, due, eligibleBefore), visited, keys, kv)
    ensures Distinct(keys) && Stand(rows, due, kv, keys)
  {
    VisitedStand(due, now, visited);
    CandidatesStand(rows, due, eligibleBefore, visited, keys, kv);
  }

  lemma ArrangeStands(rows: Db, due: Due, kv: Due, keys: seq<string>, byteBudget: bool, maxObjects: int, maxBytes: int)
    requires Distinct(keys) && Stand(rows, due, kv, keys)
    ensures var order := Arrange(rows, due, keys);
            var picked := PickedOf(order, byteBudget, maxObjects, maxBytes);
            && IsOrder(rows, due, keys, order)
            && KeysApart(Chosen(order, picked)) && AllSelectable(rows, kv, Chosen(order, picked), 0)
  {
    var order := Arrange(rows, due, keys);
    var picked := PickedOf(order, byteBudget, maxObjects, maxBytes);
    ArrangeOrders(rows, due, keys);
    ChosenStand(rows, due, kv, keys, order, picked);
  }

  /** The world the pass leaves behind. */
  ghost function PassWorld(first: World, rows: Db, due: Due, eligibleBefore: int, visited: seq<string>,
                           chosen: seq<Found>, now: int): World
    requires forall k :: k in visited ==> k in due
  {
    SelectedAll(PrunedAll(first, due, visited, JudgeOf(rows, due, eligibleBefore)), RevsOf(chosen), now)
  }

  lemma SelectableFrame(rows: Db, db: Db, kv: Due, chosen: seq<Found>)
    requires AllSelectable(rows, kv, chosen, 0) && db.objects == rows.objects && db.versions == rows.versions
    ensures AllSelectable(db, kv, chosen, 0)
  {
    forall j | 0 <= j < |chosen| ensures Selectable(db, kv, chosen[j]) { assert Selectable(rows, kv, chosen[j]); }
  }

  lemma MiddleStands(first: World, rows: Db, due: Due, now: int, eligibleBefore: int, visited: seq<string>,
                     chosen: seq<Found>)
    returns (middle: World)
    requires Mirrors(first.db, due) && FirstReady(Begin(due, now), visited)
    requires rows.objects == first.db.objects && rows.versions == first.db.versions
    requires AllSelectable(rows, due - StaleOf(visited, JudgeOf(rows, due, eligibleBefore)), chosen, 0)
    ensures (forall k :: k in visited ==> k in due) && SameButDue(first, middle)
    ensures var judge := JudgeOf(rows, due, eligibleBefore);
            var kv := due - StaleOf(visited, judge);
            && middle == PrunedAll(first, due, visited, judge)
            && Mirrors(middle.db, kv) && AllSelectable(middle.db, kv, chosen, 0)
  {
    var judge := JudgeOf(rows, due, eligibleBefore);
    VisitedStand(due, now, visited);
    PrunedMirrors(first, due, visited, judge);
    middle := PrunedAll(first, due, visited, judge);
    SelectableFrame(rows, middle.db, due - StaleOf(visited, judge), chosen);
  }

  /** A HOT_ACTIVE head waits for its migration from now on; any other is left alone. */
  function Waiting(row: ObjectRow, now: int): ObjectRow {
    if row.state == HotActive then ObjectRow(row.current, MigrationPending, now) else row
  }

  /** The heads of the chosen objects wait for their migration, every other head is as before. */
  ghost predicate HeadsWait(objects: map<ObjectId, ObjectRow>, objects': map<ObjectId, ObjectRow>,
                            chosen: seq<Found>, now: int) {
    forall id :: if id in objects && exists f :: f in chosen && f.rev.id == id
                 then id in objects' && objects'[id] == Waiting(objects[id], now)
                 else SameAt(objects, objects', id)
  }

  ghost function KeysOf(chosen: seq<Found>): set<string> { set f | f in chosen :: f.key }

  ghost function RevSet(chosen: seq<Found>): set<Rev> { set f | f in chosen :: f.rev }

  /** What selecting the chosen candidates makes of heads, tasks and due index. */
  ghost predicate Took(objects: map<ObjectId, ObjectRow>, tasks: set<Rev>, kv: Due,
                       objects': map<ObjectId, ObjectRow>, tasks': set<Rev>, kv': Due, chosen: seq<Found>, now: int) {
    && tasks' == tasks + RevSet(chosen) && kv' == kv - KeysOf(chosen)
    && HeadsWait(objects, objects', chosen, now)
  }

  ghost predicate HeadWaits(objects: map<ObjectId, ObjectRow>, objects': map<ObjectId, ObjectRow>, id: ObjectId,
                            now: int) {
    && id in objects && id in objects' && objects'[id] == Waiting(objects[id], now)
    && OnlyAt(objects, objects', id)
  }

  lemma TookNone(objects: map<ObjectId, ObjectRow>, tasks: set<Rev>, kv: Due, now: int)
    ensures Took(objects, tasks, kv, objects, tasks, kv, [], now)
  {
  }

  lemma TookOne(objects: map<ObjectId, ObjectRow>, tasks: set<Rev>, kv: Due, objects1: map<ObjectId, ObjectRow>,
                tasks1: set<Rev>, kv1: Due, objects2: map<ObjectId, ObjectRow>, taken: seq<Found>, f: Found, now: int)
    requires Took(objects, tasks, kv, objects1, tasks1, kv1, taken, now)
    requires HeadWaits(objects1, objects2, f.rev.id, now)
    ensures Took(objects, tasks, kv, objects2, tasks1 + {f.rev}, kv1 - {f.key}, taken + [f], now)
  {
    SetsSnoc(taken, f);
    HeadsWaitOne(objects, objects1, objects2, taken, f, now);
  }

  lemma PrefixGrows(s: seq<Found>, i: nat)
    requires i < |s|
    ensures s[..i] + [s[i]] == s[..i + 1]
  {
  }

  lemma WholePrefix(s: seq<Found>)
    ensures s[..|s|] == s && RevsOf(s)[..|s|] == RevsOf(s)
  {
  }

  lemma SetsSnoc(before: seq<Found>, f: Found)
    ensures RevSet(before + [f]) == RevSet(before) + {f.rev} && KeysOf(before + [f]) == KeysOf(before) + {f.key}
  {
    assert f in before + [f];
    forall g | g in before ensures g in before + [f] {}
  }

  lemma HeadsWaitOne(objects: map<ObjectId, ObjectRow>, objects1: map<ObjectId, ObjectRow>,
                     objects2: map<ObjectId, ObjectRow>, before: seq<Found>, f: Found, now: int)
    requires HeadsWait(objects, objects1, before, now) && HeadWaits(objects1, objects2, f.rev.id, now)
    ensures HeadsWait(objects, objects2, before + [f], now)
  {
    forall id
      ensures if id in objects && exists g :: g in before + [f] && g.rev.id == id
              then id in objects2 && objects2[id] == Waiting(objects[id], now)
              else SameAt(objects, objects2, id)
    {
      if id == f.rev.id { assert f in before + [f]; } else { assert SameAt(objects1, objects2, id); }
      if g :| g in before && g.rev.id == id { assert g in before + [f]; }
      assert SameAt(objects, objects1, id) || id in objects;
    }
  }

  class PolicyStore {
    const index: DueIndex
    const versions: map<Rev, VersionRow>
    var objects: map<ObjectId, ObjectRow>
    var tasks: set<Rev>

    constructor (index: DueIndex, versions: map<Rev, VersionRow>, objects: map<ObjectId, ObjectRow>, tasks: set<Rev>)
      ensures this.index == index && this.versions == versions && this.objects == objects && this.tasks == tasks
    {
      this.index, this.versions, this.objects, this.tasks := index, versions, objects, tasks;
    }

    function Rows(): Db
      reads this
    {
      Db(objects, versions, map[], map[], map[], {})
    }

    /** The stored rows and the due index are those of a state of the protocol. */
    ghost predicate Reflects(world: World)
      reads this, index, index.client
    {
      && objects == world.db.objects && versions == world.db.versions && tasks == world.taskRows
      && Paired(index.client.kv, index.refs) && Mirrors(world.db, index.client.kv)
    }

    /** The writes for one picked candidate: the task unless it exists, the due entry, the head. */
    method Take(f: Found, now: int, ghost world: World) returns (created: bool)
      requires Reflects(world) && Selectable(world.db, index.client.kv, f)
      modifies this`objects, this`tasks, index`refs, index.client
      ensures Reflects(Selected(world, f.rev, now))
      ensures created == (f.rev !in old(tasks)) && tasks == old(tasks) + {f.rev}
      ensures |tasks| == |old(tasks)| + if created then 1 else 0
      ensures index.client.kv == old(index.client.kv) - {f.key} && index.refs == old(index.refs) - {f.rev}
      ensures HeadWaits(old(objects), objects, f.rev.id, now)
    {
      RemovePaired(index.client.kv, index.refs, f.key);
      SelectMirrors(world.db, index.client.kv, f, now);
      created := f.rev !in tasks;
      if created { tasks := tasks + {f.rev}; } else { assert tasks == tasks + {f.rev}; }
      index.RemoveByReference(f.rev);
      if f.rev.id in objects {
        var row := objects[f.rev.id];
        if row.current == f.rev.version && row.state == HotActive {
          objects := objects[f.rev.id := row.(state := MigrationPending, updatedAt := now)];
        }
      }
    }

    /** The loop over the picked candidates. */
    method SelectAll(chosen: seq<Found>, now: int, ghost world: World) returns (enqueued: nat)
      requires Reflects(world) && KeysApart(chosen) && AllSelectable(world.db, index.client.kv, chosen, 0)
      modifies this`objects, this`tasks, index`refs, index.client
      ensures Reflects(SelectedAll(world, RevsOf(chosen), now))
      ensures |tasks| == |old(tasks)| + enqueued
      ensures Took(old(objects), old(tasks), old(index.client.kv), objects, tasks, index.client.kv, chosen, now)
    {
      ghost var objects0, tasks0, kv0, taken := objects, tasks, index.client.kv, chosen[..0];
      TookNone(objects, tasks, index.client.kv, now);
      ghost var revs, current := RevsOf(chosen), world;
      enqueued := 0;
      for i := 0 to |chosen|
        invariant current == SelectedAll(world, revs[..i], now) && Reflects(current)
        invariant AllSelectable(current.db, index.client.kv, chosen, i)
        invariant |tasks| == |tasks0| + enqueued && taken == chosen[..i]
        invariant Took(objects0, tasks0, kv0, objects, tasks, index.client.kv, taken, now)
      {
        ghost var objects1, tasks1, kv1 := objects, tasks, index.client.kv;
        SelectedSnoc(world, chosen, i, now);
        StillSelectable(current.db, index.client.kv, chosen, i, now);
        var created := Take(chosen[i], now, current);
        if created { enqueued := enqueued + 1; }
        TookOne(objects0, tasks0, kv0, objects1, tasks1, kv1, objects, taken, chosen[i], now);
        PrefixGrows(chosen, i);
        current, taken := Selected(current, chosen[i].rev, now), taken + [chosen[i]];
      }
      WholePrefix(chosen);
    }

    /** The scan, the ordering and the greedy choice. */
    method Choose(now: int, eligibleBefore: int, plan: Plan, byteBudget: bool, maxObjects: int, maxBytes: int)
      returns (order: seq<Found>, picked: seq<nat>, ghost visited: seq<string>)
      requires plan.base > 0 && Paired(index.client.kv, index.refs)
      modifies index`refs, index.client
      ensures Paired(index.client.kv, index.refs) && picked == PickedOf(order, byteBudget, maxObjects, maxBytes)
      ensures IsChoice(Rows(), old(index.client.kv), now, eligibleBefore, visited, order)
      ensures Covers(old(index.client.kv), now, plan, byteBudget, maxObjects, visited, order)
      ensures var judge := JudgeOf(Rows(), old(index.client.kv), eligibleBefore);
              index.client.kv == old(index.client.kv) - StaleOf(visited, judge)
      ensures KeysApart(Chosen(order, picked)) && AllSelectable(Rows(), index.client.kv, Chosen(order, picked), 0)
    {
      var due, rows := index.client.kv, Rows();
      var cap := if maxObjects <= 0 then 200 else maxObjects;
      var keys;
      keys, visited := index.BurstScan(now, plan, rows, eligibleBefore, byteBudget, cap);
      ChoiceStands(rows, due, now, eligibleBefore, visited, keys, index.client.kv);
      order := Arrange(rows, due, keys);
      picked := SelectWithinBudget(SizesOf(order), maxObjects, byteBudget, maxBytes);
      ArrangeStands(rows, due, index.client.kv, keys, byteBudget, maxObjects, maxBytes);
    }

    /** The whole pass: from any state of the protocol it leads to the state in which the stale
        entries it visited are pruned and the greedy choice of its candidates, oldest first, is
        selected. */
    method EnqueueTieringCandidates(now: int, eligibleBefore: int, plan: Plan, byteBudget: bool, maxObjects: int,
                                    maxBytes: int, ghost first: World)
      returns (enqueued: nat, ghost visited: seq<string>, ghost order: seq<Found>)
      requires plan.base > 0 && Reflects(first)
      modifies this`objects, this`tasks, index`refs, index.client
      ensures IsChoice(old(Rows()), old(index.client.kv), now, eligibleBefore, visited, order)
      ensures Covers(old(index.client.kv), now, plan, byteBudget, maxObjects, visited, order)
      ensures var chosen := Chosen(order, PickedOf(order, byteBudget, maxObjects, maxBytes));
              && Reflects(PassWorld(first, old(Rows()), old(index.client.kv), eligibleBefore, visited, chosen, now))
              && HeadsWait(old(objects), objects, chosen, now) && tasks == old(tasks) + RevSet(chosen)
              && forall k :: k in index.client.kv <==>
                   && k in old(index.client.kv) && k !in KeysOf(chosen)
                   && !(k in visited && VerdictOf(old(Rows()), old(index.client.kv)[k].rev, eligibleBefore) == Stale)
      ensures |tasks| == |old(tasks)| + enqueued
    {
      ghost var due, rows := index.client.kv, Rows();
      var sorted, picked, seen := Choose(now, eligibleBefore, plan, byteBudget, maxObjects, maxBytes);
      visited, order := seen, sorted;
      ghost var middle := MiddleStands(first, rows, due, now, eligibleBefore, visited, Chosen(order, picked));
      enqueued := SelectAll(Chosen(sorted, picked), now, middle);
    }
  }

  lemma ChosenWaits(db: Db, rows: Db, due: Due, eligibleBefore: int, visited: seq<string>, order: seq<Found>,
                    picked: seq<nat>)
    requires Distinct(visited) && (forall k :: k in visited ==> k in due) && Increasing(picked, |order|)
    requires IsOrder(rows, due, CandidatesOf(visited, JudgeOf(rows, due, eligibleBefore)), order)
    requires db.objects == rows.objects && db.versions == rows.versions
    requires Mirrors(db, due - StaleOf(visited, JudgeOf(rows, due, eligibleBefore)))
    ensures var revs := RevsOf(Chosen(order, picked));
            Distinct(revs) && forall rev :: rev in revs ==> rev in db.dueRefs && !StaleDue(db, rev)
  {
    var judge := JudgeOf(rows, due, eligibleBefore);
    var keys, kv, chosen := CandidatesOf(visited, judge), due - StaleOf(visited, judge), Chosen(order, picked);
    CandidatesStand(rows, due, eligibleBefore, visited, keys, kv);
    ChosenStand(rows, due, kv, keys, order, picked);
    SelectableFrame(rows, db, kv, chosen);
    RevsStand(db, kv, chosen);
  }

  /** That state is reached by a sequence of PruneDue and SelectDue steps. */
  lemma PassIsRun(c: Config, start: seq<Action>, first: World, rows: Db, due: Due, now: int, eligibleBefore: int,
                  visited: seq<string>, order: seq<Found>, picked: seq<nat>)
    returns (history: seq<Action>)
    requires At(c, start, first) && Mirrors(first.db, due)
    requires rows.objects == first.db.objects && rows.versions == first.db.versions
    requires IsChoice(rows, due, now, eligibleBefore, visited, order) && Increasing(picked, |order|)
    ensures forall k :: k in visited ==> k in due
    ensures On(c, start, history, PassWorld(first, rows, due, eligibleBefore, visited, Chosen(order, picked), now))
  {
    var judge := JudgeOf(rows, due, eligibleBefore);
    VisitedStand(due, now, visited);
    PrunedMirrors(first, due, visited, judge);
    var middle := PrunedAll(first, due, visited, judge);
    ChosenWaits(middle.db, rows, due, eligibleBefore, visited, order, picked);
    history := PrunesAreSteps(c, start, first, rows, due, eligibleBefore, visited);
    history := SelectsAreSteps(c, start, history, middle, RevsOf(Chosen(order, picked)), now);
  }
}
