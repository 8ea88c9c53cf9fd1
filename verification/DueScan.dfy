/** The candidate scan over the due index: windows after a cursor in rounds with a doubling limit,
    and the greedy selection under an object cap and a byte budget. */
module DueScan {
  import opened MetaTypes
  import opened Int64
  import opened ByteOrder
  import opened Keys
  import opened KvClient
  import opened ScanPlan
  import opened MetaStore
  import opened Counting

  datatype DueRecord = DueRecord(rev: Rev, eligibleAt: int)

  type Due = map<string, DueRecord>

  /** An entry the scan does not stop at. */
  predicate IsReady(due: Due, k: string, now: int) {
    k in due && (ParseDue(k).Some? ==> ParseDue(k).value.0 <= now) && due[k].eligibleAt <= now
  }

  /** How many entries are ready before the first that is not. */
  function ReadyCount(keys: seq<string>, due: Due, now: int): (n: nat)
    ensures n <= |keys|
    ensures forall i :: 0 <= i < n ==> IsReady(due, keys[i], now)
    ensures n < |keys| ==> !IsReady(due, keys[n], now)
  {
    if |keys| == 0 || !IsReady(due, keys[0], now) then 0 else 1 + ReadyCount(keys[1..], due, now)
  }

  lemma ReadyCountIs(keys: seq<string>, due: Due, now: int, n: nat)
    requires n <= |keys| && (forall i :: 0 <= i < n ==> IsReady(due, keys[i], now))
    requires n < |keys| ==> !IsReady(due, keys[n], now)
    ensures ReadyCount(keys, due, now) == n
  {
  }

  predicate Passed(k: string, cursor: string) { cursor != "" && AtMost(k, cursor) }

  /** The keys after a cursor. */
  function After(keys: seq<string>, cursor: string): seq<string> {
    if |keys| == 0 then [] else (if Passed(keys[0], cursor) then [] else [keys[0]]) + After(keys[1..], cursor)
  }

  lemma AfterStep(keys: seq<string>, i: nat, cursor: string)
    requires i < |keys|
    ensures After(keys[i..], cursor) ==
              (if Passed(keys[i], cursor) then [] else [keys[i]]) + After(keys[i + 1..], cursor)
  {
    assert keys[i..][1..] == keys[i + 1..];
  }

  lemma {:induction false} AfterIs(keys: seq<string>, cursor: string, n: nat)
    requires n <= |keys| && (forall i :: 0 <= i < n ==> Passed(keys[i], cursor))
    requires forall i :: n <= i < |keys| ==> !Passed(keys[i], cursor)
    ensures After(keys, cursor) == keys[n..]
    decreases |keys|
  {
    if |keys| > 0 {
      AfterIs(keys[1..], cursor, if n == 0 then 0 else n - 1);
      if n == 0 {
        assert keys[1..][0..] == keys[1..];
        assert keys[0..] == [keys[0]] + keys[1..];
      } else {
        assert keys[1..][n - 1..] == keys[n..];
      }
    } else {
      assert keys[n..] == [];
    }
  }

  /** Deleting some of the first n keys leaves the same keys after the n-th. */
  lemma AfterDeletes(due: Due, gone: set<string>, n: nat)
    requires var keys := PrefixKeys(due, TIER_DUE);
             n <= |keys| && forall k :: k in gone ==> k in keys[..n]
    ensures var keys := PrefixKeys(due, TIER_DUE);
            After(PrefixKeys(due - gone, TIER_DUE), if n == 0 then "" else keys[n - 1]) == keys[n..]
  {
    var keys := PrefixKeys(due, TIER_DUE);
    var left := PrefixKeys(due - gone, TIER_DUE);
    var all := set k | k in due && HasPrefix(k, TIER_DUE);
    var some := set k | k in due - gone && HasPrefix(k, TIER_DUE);
    if n == 0 {
      assert some == all;
      ListsUnique(keys, left, all);
      AfterIs(left, "", 0);
      assert left[0..] == keys[0..];
    } else {
      var cursor := keys[n - 1];
      assert cursor in keys;
      assert cursor in all && |cursor| > 0;
      var m := Cut(left, cursor);
      AfterIs(left, cursor, m);
      var later := set k | k in some && Less(cursor, k);
      SuffixLists(left, some, cursor, m);
      SplitLists(keys, all, n);
      assert later == set k | k in all && Less(cursor, k) by {
        forall k | k in all && Less(cursor, k) ensures k in some {
          if k in gone { NotLater(keys, n, k); }
        }
      }
      ListsUnique(left[m..], keys[n..], later);
    }
  }

  /** Where the sorted keys pass the cursor. */
  ghost function Cut(keys: seq<string>, cursor: string): (m: nat)
    requires StrictlySorted(keys) && cursor != ""
    ensures m <= |keys| && (forall i :: 0 <= i < m ==> Passed(keys[i], cursor))
    ensures forall i :: m <= i < |keys| ==> !Passed(keys[i], cursor)
  {
    if |keys| == 0 then 0
    else if !Passed(keys[0], cursor) then
      assert forall i :: 0 <= i < |keys| ==> !Passed(keys[i], cursor) by {
        forall i | 0 <= i < |keys| ensures !Passed(keys[i], cursor) {
          if i > 0 { PassedDown(keys[0], keys[i], cursor); }
        }
      }
      0
    else
      assert forall i, j :: 0 <= i < j < |keys[1..]| ==> Less(keys[1..][i], keys[1..][j]);
      1 + Cut(keys[1..], cursor)
  }

  lemma PassedDown(a: string, b: string, cursor: string)
    requires Less(a, b)
    ensures Passed(b, cursor) ==> Passed(a, cursor)
  {
    if Passed(b, cursor) && b != cursor { LessTransitive(a, b, cursor); }
  }

  lemma NotPassed(k: string, cursor: string)
    requires cursor != ""
    ensures !Passed(k, cursor) <==> Less(cursor, k)
  {
    if k != cursor { LessTotal(k, cursor); }
    if Less(cursor, k) && Less(k, cursor) { LessAsymmetric(cursor, k); }
    LessIrreflexive(cursor);
  }

  lemma SuffixLists(keys: seq<string>, s: set<string>, cursor: string, m: nat)
    requires Lists(keys, s) && cursor != "" && m <= |keys|
    requires forall i :: 0 <= i < m ==> Passed(keys[i], cursor)
    requires forall i :: m <= i < |keys| ==> !Passed(keys[i], cursor)
    ensures Lists(keys[m..], set k | k in s && Less(cursor, k))
  {
    forall k ensures k in keys[m..] <==> k in s && Less(cursor, k) {
      NotPassed(k, cursor);
      if k in keys[m..] { var i :| 0 <= i < |keys[m..]| && keys[m..][i] == k; assert keys[m + i] == k && k in keys; }
      if k in s && Less(cursor, k) {
        assert k in keys;
        var i :| 0 <= i < |keys| && keys[i] == k;
        assert keys[m..][i - m] == k;
      }
    }
  }

  lemma SplitLists(keys: seq<string>, s: set<string>, n: nat)
    requires Lists(keys, s) && 0 < n <= |keys| && keys[n - 1] != ""
    ensures Lists(keys[n..], set k | k in s && Less(keys[n - 1], k))
  {
    var cursor := keys[n - 1];
    forall i | 0 <= i < n ensures Passed(keys[i], cursor) {}
    forall i | n <= i < |keys| ensures !Passed(keys[i], cursor) { NotPassed(keys[i], cursor); }
    SuffixLists(keys, s, cursor, n);
  }

  lemma NotLater(keys: seq<string>, n: nat, k: string)
    requires StrictlySorted(keys) && 0 < n <= |keys| && k in keys[..n]
    ensures !Less(keys[n - 1], k)
  {
    var i :| 0 <= i < n && keys[..n][i] == k;
    if i < n - 1 { LessAsymmetric(keys[i], keys[n - 1]); } else { LessIrreflexive(k); }
  }

  lemma ReadyAfter(keys: seq<string>, due: Due, gone: set<string>, now: int, n: nat)
    requires n <= ReadyCount(keys, due, now) && forall i :: n <= i < |keys| ==> keys[i] !in gone
    ensures ReadyCount(keys[n..], due - gone, now) == ReadyCount(keys, due, now) - n
  {
    ReadyCountIs(keys[n..], due - gone, now, ReadyCount(keys, due, now) - n);
  }

  // ---- the scan ----

  /** What the object and version rows say about a visited entry. */
  datatype Verdict = Ignore | Stale | Candidate

  /** The checks on a visited entry, in their order: head row, state, age, version row. */
  function VerdictOf(db: Db, rev: Rev, eligibleBefore: int): Verdict {
    if rev.id == "" || rev.version <= 0 then Ignore
    else if !IsCurrent(db, rev) || db.objects[rev.id].state !in {HotActive, MigrationPending} then Stale
    else if db.objects[rev.id].updatedAt > eligibleBefore then Ignore
    else if rev !in db.versions || db.versions[rev].tier != Hot then Stale
    else Candidate
  }

  /** Only entries whose object is gone, moved on or no longer HOT are dropped, and none of those
      becomes a candidate. */
  lemma VerdictSound(db: Db, rev: Rev, eligibleBefore: int)
    ensures VerdictOf(db, rev, eligibleBefore) == Stale ==> StaleDue(db, rev)
    ensures VerdictOf(db, rev, eligibleBefore) == Candidate <==>
              rev.id != "" && rev.version > 0 && !StaleDue(db, rev) && db.objects[rev.id].updatedAt <= eligibleBefore
    ensures VerdictOf(db, rev, eligibleBefore) == Stale <==>
              && rev.id != "" && rev.version > 0
              && (|| !IsCurrent(db, rev) || db.objects[rev.id].state !in {HotActive, MigrationPending}
                  || (db.objects[rev.id].updatedAt <= eligibleBefore &&
                      (rev !in db.versions || db.versions[rev].tier != Hot)))
  {
  }

  /** The verdict on each entry of an index, by the record it holds. */
  function JudgeOf(db: Db, due: Due, eligibleBefore: int): string -> Verdict {
    k => if k in due then VerdictOf(db, due[k].rev, eligibleBefore) else Ignore
  }

  ghost function StaleOf(keys: seq<string>, judge: string -> Verdict): set<string> {
    set k | k in keys && judge(k) == Stale
  }

  function CandidatesOf(keys: seq<string>, judge: string -> Verdict): seq<string> {
    if |keys| == 0 then []
    else
      var last := keys[|keys| - 1];
      CandidatesOf(keys[..|keys| - 1], judge) + if judge(last) == Candidate then [last] else []
  }

  lemma {:induction false} CandidatesAppend(a: seq<string>, b: seq<string>, judge: string -> Verdict)
    ensures CandidatesOf(a + b, judge) == CandidatesOf(a, judge) + CandidatesOf(b, judge)
  {
    if |b| == 0 {
      assert a + b == a;
    } else {
      assert (a + b)[..|a + b| - 1] == a + b[..|b| - 1];
      CandidatesAppend(a, b[..|b| - 1], judge);
    }
  }

  /** The candidates are exactly the keys judged so, in their order. */
  lemma {:induction false} CandidatesExact(keys: seq<string>, judge: string -> Verdict)
    ensures forall k :: k in CandidatesOf(keys, judge) <==> k in keys && judge(k) == Candidate
    ensures StrictlySorted(keys) ==> StrictlySorted(CandidatesOf(keys, judge))
  {
    if |keys| > 0 {
      var n := |keys| - 1;
      CandidatesExact(keys[..n], judge);
      assert keys == keys[..n] + [keys[n]];
      if StrictlySorted(keys) { forall k | k in keys[..n] ensures Less(k, keys[n]) {} }
    }
  }

  function LastOf(keys: seq<string>): string { if |keys| == 0 then "" else keys[|keys| - 1] }

  /** The first ready entries of `rest`, at most maxScan, and whether more are ready. */
  ghost predicate IsWindow(rest: seq<string>, due: Due, now: int, maxScan: nat, out: seq<string>, hasMore: bool) {
    var ready := ReadyCount(rest, due, now);
    out == rest[..Min(ready, maxScan)] && hasMore == (ready > maxScan)
  }

  ghost predicate AllReady(due: Due, out: seq<string>, now: int) {
    forall j :: 0 <= j < |out| ==> IsReady(due, out[j], now)
  }

  /** What is left of `rest` after `out` are the keys from i on that lie after the cursor. */
  ghost predicate Remaining(rest: seq<string>, out: seq<string>, keys: seq<string>, i: nat, cursor: string) {
    i <= |keys| && rest == out + After(keys[i..], cursor)
  }

  lemma NextKey(rest: seq<string>, out: seq<string>, keys: seq<string>, i: nat, cursor: string)
    requires i < |keys| && Remaining(rest, out, keys, i, cursor)
    ensures Passed(keys[i], cursor) ==> Remaining(rest, out, keys, i + 1, cursor)
    ensures !Passed(keys[i], cursor) ==>
              out < rest && rest[|out|] == keys[i] && Remaining(rest, out + [keys[i]], keys, i + 1, cursor)
  {
    AfterStep(keys, i, cursor);
  }

  lemma WindowStops(rest: seq<string>, due: Due, now: int, maxScan: nat, out: seq<string>)
    requires |out| <= maxScan && out <= rest && AllReady(due, out, now)
    requires |out| < |rest| ==> !IsReady(due, rest[|out|], now)
    ensures IsWindow(rest, due, now, maxScan, out, false)
  {
    ReadyCountIs(rest, due, now, |out|);
  }

  lemma WindowFull(rest: seq<string>, due: Due, now: int, maxScan: nat, out: seq<string>)
    requires |out| == maxScan && out < rest && AllReady(due, out, now) && IsReady(due, rest[|out|], now)
    ensures IsWindow(rest, due, now, maxScan, out, true)
  {
    assert ReadyCount(rest, due, now) > |out|;
  }

  /** With n visited, the remaining rounds bring the count to `goal`. */
  ghost predicate LeadsTo(ready: nat, n: nat, limit: nat, rounds: nat, adaptiveMax: nat, goal: nat) {
    n <= ready && goal == n + Min(ready - n, Budget(limit, rounds, adaptiveMax))
  }

  lemma RoundLeads(ready: nat, n: nat, limit: nat, rounds: nat, rest: nat, adaptiveMax: nat, goal: nat)
    requires rounds == rest + 1 && LeadsTo(ready, n, limit, rounds, adaptiveMax, goal)
    ensures ready - n <= limit ==> goal == ready
    ensures ready - n > limit ==> LeadsTo(ready, n + limit, NextLimit(limit, adaptiveMax), rest, adaptiveMax, goal)
  {
    assert Budget(limit, rounds, adaptiveMax) == limit + Budget(NextLimit(limit, adaptiveMax), rest, adaptiveMax);
  }

  /** The index as the scan began: its entries, their sorted keys, and how many are ready before
      the first that is not. */
  datatype Scan = Scan(due: Due, keys: seq<string>, ready: nat)

  ghost function Begin(due: Due, now: int): Scan {
    var keys := PrefixKeys(due, TIER_DUE);
    Scan(due, keys, ReadyCount(keys, due, now))
  }

  ghost predicate Scene(scan: Scan, now: int) { scan == Begin(scan.due, now) }

  /** The stale entries of the visited keys are gone and their candidates gathered. */
  ghost predicate Progress(due: Due, judge: string -> Verdict, visited: seq<string>, candidates: seq<string>, kv: Due) {
    kv == due - StaleOf(visited, judge) && candidates == CandidatesOf(visited, judge)
  }

  /** The visited keys are the first ready keys. */
  ghost predicate FirstReady(scan: Scan, visited: seq<string>) {
    |visited| <= scan.ready <= |scan.keys| && visited == scan.keys[..|visited|]
  }

  /** The next window takes up exactly where the visited keys end. */
  lemma NextWindow(scan: Scan, judge: string -> Verdict, now: int, visited: seq<string>)
    requires Scene(scan, now) && FirstReady(scan, visited)
    ensures var kv, n := scan.due - StaleOf(visited, judge), |visited|;
            var rest := After(PrefixKeys(kv, TIER_DUE), LastOf(visited));
            rest == scan.keys[n..] && ReadyCount(rest, kv, now) == scan.ready - n
  {
    var gone := StaleOf(visited, judge);
    AfterDeletes(scan.due, gone, |visited|);
    NotGone(scan.keys, |visited|, gone);
    ReadyAfter(scan.keys, scan.due, gone, now, |visited|);
  }

  lemma SliceOfDrop(s: seq<string>, n: nat, k: nat)
    requires n + k <= |s|
    ensures s[n..][..k] == s[n..n + k]
  {
  }

  lemma WindowOf(keys: seq<string>, due: Due, now: int, n: nat, limit: nat, out: seq<string>, hasMore: bool)
    requires n <= |keys| && IsWindow(keys[n..], due, now, limit, out, hasMore)
    ensures var ready := ReadyCount(keys[n..], due, now);
            && |out| == Min(ready, limit) && n + |out| <= |keys| && hasMore == (ready > limit)
            && out == keys[n..n + |out|]
  {
    SliceOfDrop(keys, n, Min(ReadyCount(keys[n..], due, now), limit));
  }

  lemma TakeSplit(s: seq<string>, n: nat, m: nat)
    requires n <= m <= |s|
    ensures s[..n] + s[n..m] == s[..m]
  {
  }

  lemma CursorMoves(keys: seq<string>, n: nat, m: nat)
    requires StrictlySorted(keys) && n < m <= |keys| && keys[m - 1] != ""
    ensures LastOf(keys[n..m]) != LastOf(keys[..n])
  {
    if n > 0 { LessIrreflexive(keys[n - 1]); }
  }

  /** So a window after the visited keys is the next stretch of the ready ones. */
  lemma WindowIs(scan: Scan, judge: string -> Verdict, now: int, visited: seq<string>, kv: Due,
                 limit: nat, out: seq<string>, hasMore: bool)
    requires Scene(scan, now) && FirstReady(scan, visited) && kv == scan.due - StaleOf(visited, judge)
    requires IsWindow(After(PrefixKeys(kv, TIER_DUE), LastOf(visited)), kv, now, limit, out, hasMore)
    ensures |out| == Min(scan.ready - |visited|, limit) && hasMore == (scan.ready - |visited| > limit)
    ensures out == scan.keys[|visited|..|visited| + |out|]
  {
    NextWindow(scan, judge, now, visited);
    WindowOf(scan.keys, kv, now, |visited|, limit, out, hasMore);
  }

  lemma JoinedAt(keys: seq<string>, n: nat, m: nat)
    requires StrictlySorted(keys) && n <= m <= |keys| && (m > 0 ==> keys[m - 1] != "")
    ensures keys[..n] + keys[n..m] == keys[..m]
    ensures n < m ==> LastOf(keys[n..m]) == LastOf(keys[..m]) != LastOf(keys[..n])
  {
    TakeSplit(keys, n, m);
    if n < m { CursorMoves(keys, n, m); }
  }

  ghost predicate Named(keys: seq<string>) { forall k :: k in keys ==> k != "" }

  lemma Joined(keys: seq<string>, visited: seq<string>, out: seq<string>)
    requires StrictlySorted(keys) && Named(keys) && |visited| + |out| <= |keys|
    requires visited == keys[..|visited|] && out == keys[|visited|..|visited| + |out|]
    ensures visited + out == keys[..|visited + out|]
    ensures |out| > 0 ==> LastOf(out) == LastOf(visited + out) != LastOf(visited)
  {
    var n, m := |visited|, |visited| + |out|;
    if m > 0 { assert keys[m - 1] in keys; }
    JoinedAt(keys, n, m);
    assert |visited + out| == m;
  }

  lemma Advance(due: Due, judge: string -> Verdict, visited: seq<string>, out: seq<string>,
                candidates: seq<string>, kv: Due)
    requires Progress(due, judge, visited, candidates, kv)
    ensures Progress(due, judge, visited + out, candidates + CandidatesOf(out, judge), kv - StaleOf(out, judge))
  {
    assert StaleOf(visited + out, judge) == StaleOf(visited, judge) + StaleOf(out, judge);
    CandidatesAppend(visited, out, judge);
  }

  /** The visited entries were judged by the rows: the stale ones are gone and no other, and the
      candidates are gathered in the order of their keys. */
  ghost predicate Examined(due: Due, db: Db, eligibleBefore: int, visited: seq<string>, candidates: seq<string>,
                           kv: Due) {
    && (forall k :: k in kv <==>
          k in due && !(k in visited && VerdictOf(db, due[k].rev, eligibleBefore) == Stale))
    && (forall k :: k in kv ==> kv[k] == due[k])
    && (forall k :: k in candidates <==>
          k in visited && k in due && VerdictOf(db, due[k].rev, eligibleBefore) == Candidate)
    && StrictlySorted(candidates)
  }

  lemma ProgressExamines(due: Due, db: Db, eligibleBefore: int, visited: seq<string>, candidates: seq<string>, kv: Due)
    requires Progress(due, JudgeOf(db, due, eligibleBefore), visited, candidates, kv) && StrictlySorted(visited)
    ensures Examined(due, db, eligibleBefore, visited, candidates, kv)
  {
    CandidatesExact(visited, JudgeOf(db, due, eligibleBefore));
  }

  lemma FirstReadySorted(scan: Scan, now: int, visited: seq<string>)
    requires Scene(scan, now) && FirstReady(scan, visited)
    ensures StrictlySorted(visited)
  {
  }

  lemma ScanStarts(due: Due, judge: string -> Verdict)
    ensures Progress(due, judge, [], [], due)
  {
    assert StaleOf([], judge) == {};
  }

  lemma NotGone(keys: seq<string>, n: nat, gone: set<string>)
    requires StrictlySorted(keys) && n <= |keys| && forall k :: k in gone ==> k in keys[..n]
    ensures forall i :: n <= i < |keys| ==> keys[i] !in gone
  {
    forall i, j | 0 <= j < n <= i < |keys| ensures keys[j] != keys[i] { LessIrreflexive(keys[i]); }
  }

  // ---- entries and references ----

  type Refs = map<Rev, string>

  /** Every entry is the one the reference of its version names, and every reference names one. */
  ghost predicate Paired(due: Due, refs: Refs) {
    && (forall k :: k in due ==> due[k].rev in refs && refs[due[k].rev] == k)
    && (forall rev :: rev in refs ==> refs[rev] in due && due[refs[rev]].rev == rev)
  }

  /** So removing a version by its reference removes the entry that was visited and keeps the pairing. */
  lemma RemovePaired(due: Due, refs: Refs, k: string)
    requires Paired(due, refs) && k in due
    ensures refs[due[k].rev] == k && Paired(due - {k}, refs - {due[k].rev})
  {
  }

  lemma StaleStep(window: seq<string>, judge: string -> Verdict, i: nat, records: Due, refs: Refs)
    requires i < |window| && Distinct(window) && window[i] in records
    requires Paired(records - StaleOf(window[..i], judge), refs)
    ensures var due, key := records - StaleOf(window[..i], judge), window[i];
            && key in due && refs[records[key].rev] == key && records[key].rev in refs
            && Paired(due - {key}, refs - {records[key].rev})
            && records - StaleOf(window[..i + 1], judge) == if judge(key) == Stale then due - {key} else due
  {
    var due, key := records - StaleOf(window[..i], judge), window[i];
    assert key !in window[..i];
    RemovePaired(due, refs, key);
    assert window[..i + 1] == window[..i] + [key];
    assert StaleOf(window[..i + 1], judge) == StaleOf(window[..i], judge) + if judge(key) == Stale then {key} else {};
  }

  lemma {:induction false} AfterMembers(keys: seq<string>, cursor: string)
    requires Distinct(keys)
    ensures Distinct(After(keys, cursor)) && forall k :: k in After(keys, cursor) ==> k in keys
  {
    if |keys| > 0 {
      AfterMembers(keys[1..], cursor);
      assert keys[0] !in keys[1..];
      assert keys == [keys[0]] + keys[1..];
    }
  }

  class DueIndex {
    const client: Client<DueRecord>
    var refs: Refs

    constructor (client: Client<DueRecord>, refs: Refs)
      ensures this.client == client && this.refs == refs
    {
      this.client := client;
      this.refs := refs;
    }

    /** The ready entries after a key, at most maxScan of them, whether more are ready, and where to go on. */
    method ReadyWindow(now: int, maxScan: nat, startAfter: string)
      returns (out: seq<string>, hasMore: bool, lastKey: string)
      ensures IsWindow(After(PrefixKeys(client.kv, TIER_DUE), startAfter), client.kv, now, maxScan, out, hasMore)
      ensures lastKey == if |out| == 0 then startAfter else LastOf(out)
      ensures Distinct(out) && forall k :: k in out ==> k in client.kv
    {
      var keys := client.NewPrefixIter(TIER_DUE);
      out, hasMore := WindowOver(keys, client.kv, now, maxScan, startAfter);
      forall i, j | 0 <= i < j < |keys| ensures keys[i] != keys[j] { LessIrreflexive(keys[i]); }
      AfterMembers(keys, startAfter);
      lastKey := if |out| == 0 then startAfter else out[|out| - 1];
    }

    static method WindowOver(keys: seq<string>, due: Due, now: int, maxScan: nat, startAfter: string)
      returns (out: seq<string>, hasMore: bool)
      requires forall k :: k in keys ==> k in due
      ensures IsWindow(After(keys, startAfter), due, now, maxScan, out, hasMore)
    {
      ghost var rest := After(keys, startAfter);
      out, hasMore := [], false;
      for i := 0 to |keys|
        invariant |out| <= maxScan && Remaining(rest, out, keys, i, startAfter) && AllReady(due, out, now)
      {
        var key := keys[i];
        NextKey(rest, out, keys, i, startAfter);
        if Passed(key, startAfter) { continue; }
        var e := ParseDue(key);
        if (e.Some? && e.value.0 > now) || due[key].eligibleAt > now {
          WindowStops(rest, due, now, maxScan, out);
          return;
        }
        if |out| >= maxScan {
          WindowFull(rest, due, now, maxScan, out);
          return out, true;
        }
        out := out + [key];
      }
      WindowStops(rest, due, now, maxScan, out);
    }

    /** Stale entries of a window go, each by the key its reference record holds; candidates are gathered. */
    method Examine(window: seq<string>, judge: string -> Verdict) returns (candidates: seq<string>)
      requires Distinct(window) && forall k :: k in window ==> k in client.kv
      modifies this`refs, client
      ensures candidates == CandidatesOf(window, judge)
      ensures old(Paired(client.kv, refs)) ==>
                client.kv == old(client.kv) - StaleOf(window, judge) && Paired(client.kv, refs)
    {
      ghost var paired := Paired(client.kv, refs);
      var records := client.kv;
      candidates := [];
      for i := 0 to |window|
        invariant candidates == CandidatesOf(window[..i], judge)
        invariant paired ==> client.kv == records - StaleOf(window[..i], judge) && Paired(client.kv, refs)
      {
        var key := window[i];
        assert window[..i + 1][..i] == window[..i];
        if paired { StaleStep(window, judge, i, records, refs); }
        match judge(key) {
          case Stale => RemoveByReference(records[key].rev);
          case Candidate => candidates := candidates + [key];
          case Ignore =>
        }
      }
      assert window[..|window|] == window;
    }

    /** The entry goes under the key the reference names, and the reference with it. */
    method RemoveByReference(rev: Rev)
      modifies this`refs, client
      ensures client.kv == old(client.kv) - (if rev in old(refs) then {old(refs)[rev]} else {})
      ensures refs == old(refs) - {rev}
    {
      if rev in refs { client.kv := client.kv - {refs[rev]}; }
      refs := refs - {rev};
    }

    /** One round: the window after the visited keys is examined. */
    method ScanRound(now: int, limit: nat, cursor: string, judge: string -> Verdict, ghost paired: bool,
                     ghost scan: Scan, ghost visited: seq<string>, ghost candidates: seq<string>)
      returns (window: seq<string>, found: seq<string>, hasMore: bool, lastKey: string)
      requires paired ==> Paired(client.kv, refs) && Scene(scan, now) && cursor == LastOf(visited)
      requires paired ==> FirstReady(scan, visited) && Progress(scan.due, judge, visited, candidates, client.kv)
      modifies this`refs, client
      ensures paired ==> Paired(client.kv, refs) && FirstReady(scan, visited + window)
      ensures paired ==> Progress(scan.due, judge, visited + window, candidates + found, client.kv)
      ensures paired ==> |window| == Min(scan.ready - |visited|, limit) && hasMore == (scan.ready - |visited| > limit)
      ensures paired && |window| > 0 ==> lastKey == LastOf(visited + window) != cursor
    {
      ghost var kv := client.kv;
      window, hasMore, lastKey := ReadyWindow(now, limit, cursor);
      found := Examine(window, judge);
      if paired {
        WindowIs(scan, judge, now, visited, kv, limit, window, hasMore);
        Joined(scan.keys, visited, window);
        Advance(scan.due, judge, visited, window, candidates, kv);
      }
    }

    /** The burst scan, when keys and references are paired, visits exactly a prefix of the sorted
        ready entries, without gap or repeat, although it deletes stale entries as it goes: all of
        them, or as many as its rounds allow, or (without a byte budget) enough of them to fill the
        object cap. */
    method BurstScan(now: int, plan: Plan, db: Db, eligibleBefore: int, byteBudget: bool, maxObjects: nat)
      returns (candidates: seq<string>, ghost visited: seq<string>)
      requires plan.base > 0
      modifies this`refs, client
      ensures var scan, judge := Begin(old(client.kv), now), JudgeOf(db, old(client.kv), eligibleBefore);
              old(Paired(client.kv, refs)) ==>
                && Paired(client.kv, refs) && FirstReady(scan, visited)
                && Progress(old(client.kv), judge, visited, candidates, client.kv)
                && (|visited| == Min(scan.ready, Budget(plan.base, plan.rounds, plan.adaptiveMax)) ||
                    (!byteBudget && |candidates| >= maxObjects))
      ensures old(Paired(client.kv, refs)) ==>
                Examined(old(client.kv), db, eligibleBefore, visited, candidates, client.kv)
    {
      ghost var due := client.kv;
      var judge := JudgeOf(db, client.kv, eligibleBefore);
      ghost var paired, scan := Paired(client.kv, refs), Begin(client.kv, now);
      ghost var goal := Min(scan.ready, Budget(plan.base, plan.rounds, plan.adaptiveMax));
      ScanStarts(client.kv, judge);
      candidates, visited := ScanRounds(now, plan, judge, byteBudget, maxObjects, paired, scan, goal);
      if paired {
        FirstReadySorted(scan, now, visited);
        ProgressExamines(due, db, eligibleBefore, visited, candidates, client.kv);
      }
    }

    method ScanRounds(now: int, plan: Plan, judge: string -> Verdict, byteBudget: bool, maxObjects: nat,
                      ghost paired: bool, ghost scan: Scan, ghost goal: nat)
      returns (candidates: seq<string>, ghost visited: seq<string>)
      requires plan.base > 0
      requires paired ==> Paired(client.kv, refs) && Scene(scan, now) && Progress(scan.due, judge, [], [], client.kv)
      requires LeadsTo(scan.ready, 0, plan.base, plan.rounds, plan.adaptiveMax, goal)
      modifies this`refs, client
      ensures paired ==> Paired(client.kv, refs) && FirstReady(scan, visited)
      ensures paired ==> Progress(scan.due, judge, visited, candidates, client.kv)
      ensures paired ==> |visited| == goal || (!byteBudget && |candidates| >= maxObjects)
    {
      var limit, left, cursor := plan.base, plan.rounds, "";
      candidates, visited := [], [];
      while left > 0
        invariant limit > 0 && (paired ==> Paired(client.kv, refs) && FirstReady(scan, visited))
        invariant paired ==> LeadsTo(scan.ready, |visited|, limit, left, plan.adaptiveMax, goal)
        invariant paired ==> Progress(scan.due, judge, visited, candidates, client.kv) && cursor == LastOf(visited)
      {
        var rest := left - 1;
        if paired { RoundLeads(scan.ready, |visited|, limit, left, rest, plan.adaptiveMax, goal); }
        var window, found, hasMore, lastKey :=
          ScanRound(now, limit, cursor, judge, paired, scan, visited, candidates);
        candidates, visited := candidates + found, visited + window;
        if |window| == 0 { break; }
        if !byteBudget && |candidates| >= maxObjects { break; }
        if !hasMore || lastKey == cursor { break; }
        cursor := lastKey;
        limit := DoubledLimit(limit, plan.adaptiveMax);
        left := rest;
      }
    }
  }

  // ---- in a well-kept index the ready prefix is every ready entry ----

  /** Entries stand under the key built from their record. */
  ghost predicate WellKeyed(due: Due) {
    forall k :: k in due && HasPrefix(k, TIER_DUE) ==>
      && k == DueKey(due[k].eligibleAt, due[k].rev) && SlashFree(due[k].rev.id)
      && 0 <= due[k].eligibleAt <= MAX_INT64 && IsInt64(due[k].rev.version)
  }

  lemma ReadyByTime(due: Due, k: string, now: int)
    requires WellKeyed(due) && k in due && HasPrefix(k, TIER_DUE)
    ensures IsReady(due, k, now) <==> due[k].eligibleAt <= now
  {
    ParseDueInverts(due[k].eligibleAt, due[k].rev);
  }

  /** The ready prefix holds exactly the entries that are due. */
  lemma ReadyPrefixIsAll(due: Due, now: int, k: string)
    requires WellKeyed(due)
    ensures var keys := PrefixKeys(due, TIER_DUE);
            k in keys[..ReadyCount(keys, due, now)] <==> k in due && HasPrefix(k, TIER_DUE) && due[k].eligibleAt <= now
  {
    var keys := PrefixKeys(due, TIER_DUE);
    var n := ReadyCount(keys, due, now);
    if k in keys[..n] {
      var i :| 0 <= i < n && keys[..n][i] == k;
      assert k in keys;
      ReadyByTime(due, k, now);
    }
    if k in due && HasPrefix(k, TIER_DUE) && due[k].eligibleAt <= now {
      assert k in keys;
      var i :| 0 <= i < |keys| && keys[i] == k;
      if n < i {
        assert keys[n] in keys && Less(keys[n], k);
        ReadyByTime(due, keys[n], now);
        DueOrder(due[keys[n]].eligibleAt, due[keys[n]].rev, due[k].eligibleAt, due[k].rev);
      } else if i == n {
        ReadyByTime(due, k, now);
      } else {
        assert keys[..n][i] == k;
      }
    }
  }

  // ---- greedy selection ----

  datatype Pick = Pick(picked: seq<nat>, used: int)

  function PickStep(p: Pick, i: nat, size: int, cap: nat, budget: int): Pick {
    if |p.picked| >= cap then p
    else if budget <= 0 || size <= 0 then Pick(p.picked + [i], p.used)
    else if Wrap(p.used + size) > budget then p
    else Pick(p.picked + [i], Wrap(p.used + size))
  }

  /** What the selection has taken of the first n sorted candidates.  A budget of zero is no byte
      budget; the running total is an int64. */
  function Greedy(sizes: seq<int>, n: nat, cap: nat, budget: int): Pick
    requires n <= |sizes|
  {
    if n == 0 then Pick([], 0) else PickStep(Greedy(sizes, n - 1, cap, budget), n - 1, sizes[n - 1], cap, budget)
  }

  function PositiveSize(sizes: seq<int>, i: nat): nat { if i < |sizes| && sizes[i] > 0 then sizes[i] else 0 }

  /** The bytes of the picked candidates. */
  function Bytes(sizes: seq<int>, picked: seq<nat>): nat {
    if |picked| == 0 then 0 else Bytes(sizes, picked[..|picked| - 1]) + PositiveSize(sizes, picked[|picked| - 1])
  }

  lemma BytesAppend(sizes: seq<int>, picked: seq<nat>, i: nat)
    ensures Bytes(sizes, picked + [i]) == Bytes(sizes, picked) + PositiveSize(sizes, i)
  {
    assert (picked + [i])[..|picked|] == picked;
  }

  ghost predicate Increasing(picked: seq<nat>, n: nat) {
    && (forall k :: 0 <= k < |picked| ==> picked[k] < n)
    && (forall i, j :: 0 <= i < j < |picked| ==> picked[i] < picked[j])
  }

  lemma {:induction false} GreedyShape(sizes: seq<int>, n: nat, cap: nat, budget: int)
    requires n <= |sizes|
    ensures |Greedy(sizes, n, cap, budget).picked| <= cap && Increasing(Greedy(sizes, n, cap, budget).picked, n)
  {
    if n > 0 { GreedyShape(sizes, n - 1, cap, budget); }
  }

  /** The addition at candidate i leaves int64. */
  ghost predicate OverflowsAt(sizes: seq<int>, i: nat, cap: nat, budget: int)
    requires i < |sizes|
  {
    var p := Greedy(sizes, i, cap, budget);
    |p.picked| < cap && budget > 0 && sizes[i] > 0 && p.used + sizes[i] > MAX_INT64
  }

  ghost predicate Fits(sizes: seq<int>, n: nat, cap: nat, budget: int)
    requires n <= |sizes|
  {
    forall i :: 0 <= i < n ==> !OverflowsAt(sizes, i, cap, budget)
  }

  lemma StepBytes(sizes: seq<int>, p: Pick, i: nat, cap: nat, budget: int)
    requires i < |sizes| && budget > 0 && p.used == Bytes(sizes, p.picked) <= budget
    requires |p.picked| < cap && sizes[i] > 0 ==> p.used + sizes[i] <= MAX_INT64
    ensures var q := PickStep(p, i, sizes[i], cap, budget);
            q.used == Bytes(sizes, q.picked) <= budget
  {
    BytesAppend(sizes, p.picked, i);
    if |p.picked| < cap && sizes[i] > 0 { assert IsInt64(p.used + sizes[i]); }
  }

  lemma {:induction false} GreedyBytes(sizes: seq<int>, n: nat, cap: nat, budget: int)
    requires n <= |sizes| && 0 < budget <= MAX_INT64 && Fits(sizes, n, cap, budget)
    ensures Greedy(sizes, n, cap, budget).used == Bytes(sizes, Greedy(sizes, n, cap, budget).picked) <= budget
  {
    if n > 0 {
      GreedyBytes(sizes, n - 1, cap, budget);
      assert !OverflowsAt(sizes, n - 1, cap, budget);
      StepBytes(sizes, Greedy(sizes, n - 1, cap, budget), n - 1, cap, budget);
    }
  }

  ghost predicate WithinBudget(sizes: seq<int>, n: nat, cap: nat, budget: int)
    requires n <= |sizes|
  {
    Bytes(sizes, Greedy(sizes, n, cap, budget).picked) <= budget
  }

  /** The selection stays within the byte budget at every point exactly when no addition overflows. */
  lemma BudgetKeptExactly(sizes: seq<int>, n: nat, cap: nat, budget: int)
    requires n <= |sizes| && 0 < budget <= MAX_INT64 && forall i :: 0 <= i < |sizes| ==> IsInt64(sizes[i])
    ensures Fits(sizes, n, cap, budget) <==> forall m :: 0 <= m <= n ==> WithinBudget(sizes, m, cap, budget)
  {
    if Fits(sizes, n, cap, budget) {
      forall m | 0 <= m <= n ensures WithinBudget(sizes, m, cap, budget) { GreedyBytes(sizes, m, cap, budget); }
    } else {
      var i := FirstOverflow(sizes, n, cap, budget);
      OverflowExceeds(sizes, i, cap, budget);
      assert !WithinBudget(sizes, i + 1, cap, budget);
    }
  }

  lemma OverflowExceeds(sizes: seq<int>, i: nat, cap: nat, budget: int)
    requires i < |sizes| && 0 < budget <= MAX_INT64 && IsInt64(sizes[i]) && Fits(sizes, i, cap, budget)
    requires OverflowsAt(sizes, i, cap, budget)
    ensures !WithinBudget(sizes, i + 1, cap, budget)
  {
    GreedyBytes(sizes, i, cap, budget);
    var p := Greedy(sizes, i, cap, budget);
    BytesAppend(sizes, p.picked, i);
    assert Greedy(sizes, i + 1, cap, budget).picked == p.picked + [i];
  }

  lemma {:induction false} FirstOverflow(sizes: seq<int>, n: nat, cap: nat, budget: int) returns (i: nat)
    requires n <= |sizes| && !Fits(sizes, n, cap, budget)
    ensures i < n && OverflowsAt(sizes, i, cap, budget) && Fits(sizes, i, cap, budget)
  {
    if n > 0 && !Fits(sizes, n - 1, cap, budget) {
      i := FirstOverflow(sizes, n - 1, cap, budget);
    } else {
      i := n - 1;
    }
  }

  /** Sizes that leave room above the budget never overflow. */
  lemma {:induction false} SmallSizesFit(sizes: seq<int>, n: nat, cap: nat, budget: int)
    requires n <= |sizes| && 0 < budget <= MAX_INT64 && forall i :: 0 <= i < |sizes| ==> sizes[i] <= MAX_INT64 - budget
    ensures Fits(sizes, n, cap, budget)
  {
    if n > 0 {
      SmallSizesFit(sizes, n - 1, cap, budget);
      GreedyBytes(sizes, n - 1, cap, budget);
    }
  }

  lemma {:induction false} GreedyGrows(sizes: seq<int>, j: nat, n: nat, cap: nat, budget: int)
    requires j <= n <= |sizes|
    ensures Greedy(sizes, j, cap, budget).picked <= Greedy(sizes, n, cap, budget).picked
    ensures forall i :: i in Greedy(sizes, n, cap, budget).picked && i < j ==> i in Greedy(sizes, j, cap, budget).picked
    decreases n
  {
    if j < n { GreedyGrows(sizes, j, n - 1, cap, budget); }
  }

  lemma PickedOrNot(sizes: seq<int>, j: nat, cap: nat, budget: int)
    requires j < |sizes| && j !in Greedy(sizes, j + 1, cap, budget).picked
    ensures var p := Greedy(sizes, j, cap, budget);
            |p.picked| >= cap || (budget > 0 && sizes[j] > 0 && Wrap(p.used + sizes[j]) > budget)
  {
    var p := Greedy(sizes, j, cap, budget);
    assert j in p.picked + [j];
  }

  /** A candidate is passed over only once the cap is full, or because its bytes on top of those
      picked before it would exceed the budget. */
  lemma SkippedOnlyForOverflow(sizes: seq<int>, j: nat, cap: nat, budget: int)
    requires j < |sizes| && budget <= MAX_INT64 && (budget > 0 ==> Fits(sizes, |sizes|, cap, budget))
    requires j !in Greedy(sizes, |sizes|, cap, budget).picked
    ensures var before := Greedy(sizes, j, cap, budget).picked;
            && before <= Greedy(sizes, |sizes|, cap, budget).picked && Increasing(before, j)
            && (|before| == cap || (budget > 0 && sizes[j] > 0 && Bytes(sizes, before) + sizes[j] > budget))
  {
    GreedyShape(sizes, j, cap, budget);
    GreedyGrows(sizes, j, |sizes|, cap, budget);
    GreedyGrows(sizes, j + 1, |sizes|, cap, budget);
    PickedOrNot(sizes, j, cap, budget);
    if budget > 0 {
      GreedyBytes(sizes, j, cap, budget);
      assert !OverflowsAt(sizes, j, cap, budget);
    }
  }

  /** With one byte used of a budget of ten, a candidate of the largest size is picked. */
  lemma OverflowPicks()
    ensures Greedy([1, MAX_INT64], 2, 5, 10).picked == [0, 1]
    ensures OverflowsAt([1, MAX_INT64], 1, 5, 10)
  {
    var sizes := [1, MAX_INT64];
    assert Greedy(sizes, 0, 5, 10) == Pick([], 0);
    assert Greedy(sizes, 1, 5, 10) == Pick([0], 1);
  }

  /** The selection loop. */
  method SelectWithinBudget(sizes: seq<int>, maxObjects: int, byteBudget: bool, maxBytes: int)
    returns (picked: seq<nat>)
    ensures var cap, budget := if maxObjects <= 0 then 200 else maxObjects, if byteBudget then maxBytes else 0;
            picked == Greedy(sizes, |sizes|, cap, budget).picked
  {
    var cap: nat := if maxObjects <= 0 then 200 else maxObjects;
    ghost var budget := if byteBudget then maxBytes else 0;
    var used := 0;
    picked := [];
    for i := 0 to |sizes|
      invariant Pick(picked, used) == Greedy(sizes, i, cap, budget)
    {
      if |picked| >= cap {
        CapFull(sizes, i, |sizes|, cap, budget);
        return;
      }
      if byteBudget && maxBytes > 0 {
        if sizes[i] > 0 && Wrap(used + sizes[i]) > maxBytes { continue; }
        if sizes[i] > 0 { used := Wrap(used + sizes[i]); }
      }
      picked := picked + [i];
    }
  }

  lemma {:induction false} CapFull(sizes: seq<int>, i: nat, n: nat, cap: nat, budget: int)
    requires i <= n <= |sizes| && |Greedy(sizes, i, cap, budget).picked| >= cap
    ensures Greedy(sizes, n, cap, budget) == Greedy(sizes, i, cap, budget)
    decreases n
  {
    if i < n { CapFull(sizes, i, n - 1, cap, budget); }
  }
}
