/** Rendezvous placement: the top of a ranking of distinct nodes, its stability when one node comes
    or goes, the load-aware reorder, and repair targets.  The score is any function. */
module Placement {
  import opened ByteOrder
  import opened Counting
  import opened Int64

  // ---- rankings under any strict total order ----

  type Order = (string, string) -> bool

  ghost predicate StrictOrder(lt: Order) {
    && (forall a :: !lt(a, a))
    && (forall a, b, c :: lt(a, b) && lt(b, c) ==> lt(a, c))
    && (forall a, b :: a != b ==> lt(a, b) || lt(b, a))
  }

  /** The members of a set, each once, in order. */
  ghost predicate IsRanking(r: seq<string>, s: set<string>, lt: Order) {
    (forall i, j :: 0 <= i < j < |r| ==> lt(r[i], r[j])) && forall x :: x in r <==> x in s
  }

  function InsertBy(r: seq<string>, x: string, lt: Order): seq<string> {
    if |r| == 0 || lt(x, r[0]) then [x] + r else [r[0]] + InsertBy(r[1..], x, lt)
  }

  /** Where an insertion puts its node; everything else keeps its place. */
  lemma {:induction false} InsertPlace(r: seq<string>, x: string, lt: Order) returns (p: nat)
    ensures p <= |r| && InsertBy(r, x, lt) == r[..p] + [x] + r[p..]
    ensures (forall i :: 0 <= i < p ==> !lt(x, r[i])) && (p < |r| ==> lt(x, r[p]))
  {
    p := 0;
    if |r| > 0 && !lt(x, r[0]) {
      var q := InsertPlace(r[1..], x, lt);
      p := q + 1;
      assert r[..p] == [r[0]] + r[1..][..q] && r[p..] == r[1..][q..];
    }
  }

  lemma PlacedMembers(r: seq<string>, x: string, p: nat)
    requires p <= |r|
    ensures forall y :: y in r[..p] + [x] + r[p..] <==> y in r || y == x
  {
    assert r == r[..p] + r[p..];
  }

  lemma PlacedOrder(r: seq<string>, x: string, p: nat, lt: Order, i: nat, j: nat)
    requires p <= |r| && i < j <= |r| && (forall a, b :: 0 <= a < b < |r| ==> lt(r[a], r[b]))
    requires (forall a :: 0 <= a < p ==> lt(r[a], x)) && (forall a :: p <= a < |r| ==> lt(x, r[a]))
    ensures var q := r[..p] + [x] + r[p..]; lt(q[i], q[j])
  {
    var q := r[..p] + [x] + r[p..];
    assert q[i] == if i < p then r[i] else if i == p then x else r[i - 1];
    assert q[j] == if j < p then r[j] else if j == p then x else r[j - 1];
  }

  lemma InsertRanks(r: seq<string>, s: set<string>, x: string, lt: Order)
    requires StrictOrder(lt) && IsRanking(r, s, lt) && x !in s
    ensures IsRanking(InsertBy(r, x, lt), s + {x}, lt)
  {
    var p := InsertPlace(r, x, lt);
    var q := r[..p] + [x] + r[p..];
    forall i | 0 <= i < |r| ensures r[i] != x { assert r[i] in r; }
    forall i | p <= i < |r| ensures lt(x, r[i]) { if i > p { assert lt(r[p], r[i]); } }
    forall i, j | 0 <= i < j < |q| ensures lt(q[i], q[j]) { PlacedOrder(r, x, p, lt, i, j); }
    PlacedMembers(r, x, p);
  }

  lemma RankingHead(r: seq<string>, s: set<string>, lt: Order)
    requires StrictOrder(lt) && IsRanking(r, s, lt)
    ensures |r| == 0 <==> s == {}
    ensures |r| > 0 ==>
              && r[0] in s && (forall x :: x in s && x != r[0] ==> lt(r[0], x))
              && IsRanking(r[1..], s - {r[0]}, lt)
  {
    if |r| > 0 {
      assert r[0] in r;
      forall x | x in s && x != r[0] ensures lt(r[0], x) { assert x in r; var i :| 0 <= i < |r| && r[i] == x; }
      assert r == [r[0]] + r[1..];
      forall x | x in r[1..] ensures x != r[0] {
        var i :| 0 <= i < |r| - 1 && r[1..][i] == x;
        assert lt(r[0], r[i + 1]);
      }
    } else {
      assert forall x :: x in s ==> x in r;
    }
  }

  /** There is only one ranking of a set. */
  lemma {:induction false} RankingUnique(a: seq<string>, b: seq<string>, s: set<string>, lt: Order)
    requires StrictOrder(lt) && IsRanking(a, s, lt) && IsRanking(b, s, lt)
    ensures a == b
    decreases |a|
  {
    RankingHead(a, s, lt); RankingHead(b, s, lt);
    if |a| > 0 {
      assert a[0] == b[0];
      RankingUnique(a[1..], b[1..], s - {a[0]}, lt);
      assert a == [a[0]] + a[1..] && b == [b[0]] + b[1..];
    }
  }

  function Top(r: seq<string>, count: int): seq<string> {
    if count <= 0 then [] else if count > |r| then r else r[..count]
  }

  /** The chosen come before all others. */
  lemma TopIsBest(r: seq<string>, s: set<string>, lt: Order, count: int, x: string, y: string)
    requires IsRanking(r, s, lt) && x in Top(r, count) && y in s && y !in Top(r, count)
    ensures lt(x, y)
  {
    var t := Top(r, count);
    var i :| 0 <= i < |t| && t[i] == x;
    assert y in r;
    var j :| 0 <= j < |r| && r[j] == y;
    forall k | 0 <= k < |t| ensures r[k] != y { assert t[k] == r[k] && t[k] in t; }
  }

  /** One more node: the chosen stay as they were, or the new one comes in at its place and at most
      the last one goes; the rest keep their order. */
  ghost predicate OneSwap(before: seq<string>, after: seq<string>, x: string) {
    || after == before
    || (exists p :: 0 <= p <= |before| && after == before[..p] + [x] + before[p..])
    || (exists p :: 0 <= p < |before| && after == before[..p] + [x] + before[p..|before| - 1])
  }

  lemma AddOneNode(r: seq<string>, r': seq<string>, s: set<string>, x: string, lt: Order, count: int)
    requires StrictOrder(lt) && x !in s && IsRanking(r, s, lt) && IsRanking(r', s + {x}, lt)
    ensures OneSwap(Top(r, count), Top(r', count), x)
  {
    InsertRanks(r, s, x, lt);
    RankingUnique(InsertBy(r, x, lt), r', s + {x}, lt);
    var p := InsertPlace(r, x, lt);
    if count > 0 { TopOfInsert(r, x, p, count); }
  }

  lemma TopOfInsert(r: seq<string>, x: string, p: nat, count: nat)
    requires p <= |r| && count > 0
    ensures OneSwap(Top(r, count), Top(r[..p] + [x] + r[p..], count), x)
  {
    var r' := r[..p] + [x] + r[p..];
    var before, after := Top(r, count), Top(r', count);
    if count > |r| {
      assert after == before[..p] + [x] + before[p..];
    } else if p >= count {
      assert after == before;
    } else {
      assert after == before[..p] + [x] + before[p..|before| - 1];
    }
  }

  // ---- rendezvous ----

  predicate IsSpace(c: char) { c == ' ' || '\t' <= c <= '\r' }

  function TrimLeft(s: string): string { if |s| > 0 && IsSpace(s[0]) then TrimLeft(s[1..]) else s }
  function TrimRight(s: string): string { if |s| > 0 && IsSpace(s[|s| - 1]) then TrimRight(s[..|s| - 1]) else s }
  function Trim(s: string): string { TrimRight(TrimLeft(s)) }

  ghost predicate Blank(s: string) { forall c :: c in s ==> IsSpace(c) }

  lemma {:induction false} TrimLeftExact(s: string) returns (left: string)
    ensures s == left + TrimLeft(s) && Blank(left) && (TrimLeft(s) != "" ==> !IsSpace(TrimLeft(s)[0]))
  {
    left := "";
    if |s| > 0 && IsSpace(s[0]) {
      var rest := TrimLeftExact(s[1..]);
      left := [s[0]] + rest;
      assert s == [s[0]] + s[1..];
    }
  }

  lemma {:induction false} TrimRightExact(s: string) returns (right: string)
    ensures s == TrimRight(s) + right && Blank(right)
    ensures TrimRight(s) != "" ==> !IsSpace(TrimRight(s)[|TrimRight(s)| - 1])
  {
    right := "";
    if |s| > 0 && IsSpace(s[|s| - 1]) {
      var rest := TrimRightExact(s[..|s| - 1]);
      right := rest + [s[|s| - 1]];
      assert s == s[..|s| - 1] + [s[|s| - 1]];
    }
  }

  /** Trimming takes all the blanks at both ends and nothing else. */
  lemma TrimExact(s: string) returns (left: string, right: string)
    ensures s == left + Trim(s) + right && Blank(left) && Blank(right)
    ensures Trim(s) != "" ==> !IsSpace(Trim(s)[0]) && !IsSpace(Trim(s)[|Trim(s)| - 1])
  {
    left := TrimLeftExact(s);
    right := TrimRightExact(TrimLeft(s));
    assert Trim(s) != "" ==> Trim(s)[0] == TrimLeft(s)[0];
  }

  /** The distinct non-empty trimmed ids of a node list. */
  function Nodes(nodes: seq<string>): set<string> { set n | n in nodes && Trim(n) != "" :: Trim(n) }

  /** Higher score first, then smaller id. */
  function ByScore(score: string -> nat): Order {
    (a, b) => score(a) > score(b) || (score(a) == score(b) && Less(a, b))
  }

  lemma ByScoreStrict(score: string -> nat)
    ensures StrictOrder(ByScore(score))
  {
    var lt := ByScore(score);
    forall a ensures !lt(a, a) { LessIrreflexive(a); }
    forall a, b, c | lt(a, b) && lt(b, c) ensures lt(a, c) { if Less(a, b) && Less(b, c) { LessTransitive(a, b, c); } }
    forall a, b | a != b ensures lt(a, b) || lt(b, a) { LessTotal(a, b); }
  }

  function ByName(): Order { (a, b) => Less(a, b) }

  lemma ByNameStrict()
    ensures StrictOrder(ByName())
  {
    var lt := ByName();
    forall a ensures !lt(a, a) { LessIrreflexive(a); }
    forall a, b, c | lt(a, b) && lt(b, c) ensures lt(a, c) { LessTransitive(a, b, c); }
    forall a, b | a != b ensures lt(a, b) || lt(b, a) { LessTotal(a, b); }
  }

  /** The trimmed non-empty ids, each once, in byte order. */
  method UniqueNodes(nodes: seq<string>) returns (unique: seq<string>)
    ensures IsRanking(unique, Nodes(nodes), ByName())
    ensures Distinct(unique) && forall i, j :: 0 <= i < j < |unique| ==> Less(unique[i], unique[j])
    ensures forall x :: x in unique <==> x != "" && exists n :: n in nodes && Trim(n) == x
  {
    unique := DistinctNodes(nodes);
    ByNameStrict();
    assert Ids(unique) == Nodes(nodes);
    unique := RankBy(unique, ByName());
    forall i, j | 0 <= i < j < |unique| ensures unique[i] != unique[j] { LessIrreflexive(unique[i]); }
  }

  method DistinctNodes(nodes: seq<string>) returns (unique: seq<string>)
    ensures (forall x :: x in unique <==> x in Nodes(nodes)) && Distinct(unique)
  {
    unique := [];
    var seen := {};
    for i := 0 to |nodes|
      invariant seen == Nodes(nodes[..i]) && forall x :: x in unique <==> x in seen
      invariant forall j, k :: 0 <= j < k < |unique| ==> unique[j] != unique[k]
    {
      var id := Trim(nodes[i]);
      assert nodes[..i + 1] == nodes[..i] + [nodes[i]];
      if id == "" || id in seen { continue; }
      seen := seen + {id};
      unique := unique + [id];
    }
    assert nodes[..|nodes|] == nodes;
  }

  function Ids(ids: seq<string>): set<string> { set x | x in ids }

  /** The sort of distinct ids. */
  method RankBy(ids: seq<string>, lt: Order) returns (r: seq<string>)
    requires StrictOrder(lt) && Distinct(ids)
    ensures IsRanking(r, Ids(ids), lt)
  {
    r := [];
    for i := 0 to |ids|
      invariant IsRanking(r, Ids(ids[..i]), lt)
    {
      ghost var before := Ids(ids[..i]);
      assert ids[..i + 1] == ids[..i] + [ids[i]];
      assert Ids(ids[..i + 1]) == before + {ids[i]};
      InsertRanks(r, before, ids[i], lt);
      r := InsertBy(r, ids[i], lt);
    }
    assert ids[..|ids|] == ids;
  }

  /** The first `count` of the ranking of the distinct nodes. */
  ghost predicate Selected(out: seq<string>, nodes: seq<string>, count: int, score: string -> nat) {
    exists r :: IsRanking(r, Nodes(nodes), ByScore(score)) && out == Top(r, count)
  }

  /** Distinct nodes of the list, as many as asked for or all; higher scores first, ties by smaller
      id, and no node left out that outranks one of them. */
  ghost predicate Best(out: seq<string>, nodes: seq<string>, count: int, score: string -> nat) {
    && |out| == (if count <= 0 then 0 else Min(count, |Nodes(nodes)|))
    && (forall i, j :: 0 <= i < j < |out| ==>
          score(out[i]) > score(out[j]) || (score(out[i]) == score(out[j]) && Less(out[i], out[j])))
    && (forall x :: x in out ==> x in Nodes(nodes))
    && (forall x, y :: x in out && y in Nodes(nodes) && y !in out ==>
          score(x) > score(y) || (score(x) == score(y) && Less(x, y)))
  }

  lemma SelectedIsBest(out: seq<string>, nodes: seq<string>, count: int, score: string -> nat)
    requires Selected(out, nodes, count, score)
    ensures Best(out, nodes, count, score)
  {
    ByScoreStrict(score);
    var r :| IsRanking(r, Nodes(nodes), ByScore(score)) && out == Top(r, count);
    RankingDistinct(r, Nodes(nodes), ByScore(score));
    forall i, j | 0 <= i < j < |out|
      ensures score(out[i]) > score(out[j]) || (score(out[i]) == score(out[j]) && Less(out[i], out[j]))
    {
      assert ByScore(score)(r[i], r[j]);
    }
    forall x, y | x in out && y in Nodes(nodes) && y !in out
      ensures score(x) > score(y) || (score(x) == score(y) && Less(x, y))
    {
      TopIsBest(r, Nodes(nodes), ByScore(score), count, x, y);
    }
  }

  method SelectByRendezvous(nodes: seq<string>, count: int, score: string -> nat) returns (out: seq<string>)
    ensures Selected(out, nodes, count, score) && Best(out, nodes, count, score)
  {
    ByScoreStrict(score);
    var unique := UniqueNodes(nodes);
    var ranked := RankBy(unique, ByScore(score));
    assert Ids(unique) == Nodes(nodes);
    assert IsRanking(ranked, Nodes(nodes), ByScore(score));
    if count <= 0 {
      assert Top(ranked, count) == [];
      SelectedIsBest([], nodes, count, score);
      return [];
    }
    var n := if count > |ranked| then |ranked| else count;
    out := [];
    for i := 0 to n
      invariant out == ranked[..i]
    {
      out := out + [ranked[i]];
    }
    assert out == Top(ranked, count);
    SelectedIsBest(out, nodes, count, score);
  }

  /** The choice depends on the set of distinct nodes only, not on order, repeats or blanks. */
  lemma ChoiceIgnoresOrder(a: seq<string>, b: seq<string>, count: int, score: string -> nat, x: seq<string>,
                           y: seq<string>)
    requires Nodes(a) == Nodes(b) && Selected(x, a, count, score) && Selected(y, b, count, score)
    ensures x == y
  {
    ByScoreStrict(score);
    var ra :| IsRanking(ra, Nodes(a), ByScore(score)) && x == Top(ra, count);
    var rb :| IsRanking(rb, Nodes(b), ByScore(score)) && y == Top(rb, count);
    RankingUnique(ra, rb, Nodes(a), ByScore(score));
  }

  /** Adding a node to a node list, or taking it away, changes the choice by one swap at most. */
  lemma ChoiceStable(nodes: seq<string>, more: seq<string>, n: string, count: int, score: string -> nat,
                     x: seq<string>, y: seq<string>)
    requires n !in Nodes(nodes) && Nodes(more) == Nodes(nodes) + {n}
    requires Selected(x, nodes, count, score) && Selected(y, more, count, score)
    ensures OneSwap(x, y, n)
  {
    ByScoreStrict(score);
    var r :| IsRanking(r, Nodes(nodes), ByScore(score)) && x == Top(r, count);
    var r' :| IsRanking(r', Nodes(more), ByScore(score)) && y == Top(r', count);
    AddOneNode(r, r', Nodes(nodes), n, ByScore(score), count);
  }

  // ---- load-aware selection ----

  const MIB := 1048576

  datatype Load = Load(queueDepth: int, queueBytes: int, cpu: real, memory: real, ioWait: real, writeMs: real)

  function Bucket(value: real, size: real): nat
    requires size > 0.0
  {
    if value <= 0.0 then 0 else (value / size).Floor
  }

  /** The penalty as a number. */
  function Penalty(load: Load): nat {
    (if load.queueDepth < 0 then 0 else load.queueDepth * 1000) +
    (if load.queueBytes < 0 then 0 else load.queueBytes / MIB * 100) +
    Bucket(load.writeMs, 25.0) * 100 + Bucket(load.ioWait, 5.0) * 20 +
    Bucket(load.cpu, 10.0) * 10 + Bucket(load.memory, 25.0)
  }

  /** The penalty as int64 arithmetic leaves it. */
  function StoredPenalty(load: Load): int { Wrap(Penalty(load)) }

  lemma BucketMonotone(a: real, b: real, size: real)
    requires size > 0.0 && a <= b
    ensures Bucket(a, size) <= Bucket(b, size)
  {
    if a > 0.0 { assert a / size <= b / size; }
  }

  /** No more load in any respect. */
  predicate Below(a: Load, b: Load) {
    && a.queueDepth <= b.queueDepth && a.queueBytes <= b.queueBytes && a.cpu <= b.cpu
    && a.memory <= b.memory && a.ioWait <= b.ioWait && a.writeMs <= b.writeMs
  }

  /** More load never means a smaller penalty, as a number. */
  lemma PenaltyMonotone(a: Load, b: Load)
    requires Below(a, b)
    ensures Penalty(a) <= Penalty(b)
  {
    BucketMonotone(a.writeMs, b.writeMs, 25.0);
    BucketMonotone(a.ioWait, b.ioWait, 5.0);
    BucketMonotone(a.cpu, b.cpu, 10.0);
    BucketMonotone(a.memory, b.memory, 25.0);
  }

  lemma BucketUp(value: real, size: real)
    requires size > 0.0 && value >= 0.0
    ensures Bucket(value + size, size) == Bucket(value, size) + 1
  {
    var q := value / size;
    assert value == q * size;
    Divides(value + size, q + 1.0, size);
  }

  lemma BucketLow(value: real, size: real)
    requires size > 0.0 && value < size
    ensures Bucket(value, size) == 0
  {
    if value > 0.0 {
      var q := value / size;
      assert value == q * size;
      ScaledBounds(q, size, value);
      assert 0.0 <= q < 1.0;
      assert q.Floor == 0;
    }
  }

  lemma ScaledBounds(q: real, size: real, value: real)
    requires size > 0.0 && value == q * size
    ensures q >= 1.0 ==> value >= size
    ensures q < 0.0 ==> value < 0.0
  {
    if q >= 1.0 { assert (q - 1.0) * size >= 0.0; }
    if q < 0.0 { assert (0.0 - q) * size > 0.0; }
  }

  /** A node without load has no penalty. */
  lemma IdlePenalty(a: Load)
    requires a.queueDepth <= 0 && a.queueBytes < 1048576 && a.writeMs < 25.0 && a.ioWait < 5.0 && a.cpu < 10.0
    requires a.memory < 25.0
    ensures Penalty(a) == 0
  {
    BucketLow(a.writeMs, 25.0);
    BucketLow(a.ioWait, 5.0);
    BucketLow(a.cpu, 10.0);
    BucketLow(a.memory, 25.0);
  }

  /** What one more unit of each measure costs. */
  lemma PenaltyWeights(a: Load)
    ensures a.queueDepth >= 0 ==> Penalty(a.(queueDepth := a.queueDepth + 1)) == Penalty(a) + 1000
    ensures a.queueBytes >= 0 ==> Penalty(a.(queueBytes := a.queueBytes + 1048576)) == Penalty(a) + 100
    ensures a.writeMs >= 0.0 ==> Penalty(a.(writeMs := a.writeMs + 25.0)) == Penalty(a) + 100
    ensures a.ioWait >= 0.0 ==> Penalty(a.(ioWait := a.ioWait + 5.0)) == Penalty(a) + 20
    ensures a.cpu >= 0.0 ==> Penalty(a.(cpu := a.cpu + 10.0)) == Penalty(a) + 10
    ensures a.memory >= 0.0 ==> Penalty(a.(memory := a.memory + 25.0)) == Penalty(a) + 1
  {
    if a.writeMs >= 0.0 { WriteWeighs(a); }
    if a.ioWait >= 0.0 { WaitWeighs(a); }
    if a.cpu >= 0.0 { CpuWeighs(a); }
    if a.memory >= 0.0 { MemoryWeighs(a); }
  }

  lemma WriteWeighs(a: Load)
    requires a.writeMs >= 0.0
    ensures Penalty(a.(writeMs := a.writeMs + 25.0)) == Penalty(a) + 100
  {
    BucketUp(a.writeMs, 25.0);
  }

  lemma WaitWeighs(a: Load)
    requires a.ioWait >= 0.0
    ensures Penalty(a.(ioWait := a.ioWait + 5.0)) == Penalty(a) + 20
  {
    BucketUp(a.ioWait, 5.0);
  }

  lemma CpuWeighs(a: Load)
    requires a.cpu >= 0.0
    ensures Penalty(a.(cpu := a.cpu + 10.0)) == Penalty(a) + 10
  {
    BucketUp(a.cpu, 10.0);
  }

  lemma MemoryWeighs(a: Load)
    requires a.memory >= 0.0
    ensures Penalty(a.(memory := a.memory + 25.0)) == Penalty(a) + 1
  {
    BucketUp(a.memory, 25.0);
  }

  lemma Divides(value: real, q: real, size: real)
    requires size > 0.0 && value == q * size
    ensures value / size == q
  {
  }

  lemma BucketDown(value: real, size: real)
    requires size > 0.0 && Bucket(value, size) > 0
    ensures Bucket(value - size, size) == Bucket(value, size) - 1
  {
    var q := value / size;
    assert value == q * size && q >= 1.0;
    Divides(value - size, q - 1.0, size);
    assert value - size == (q - 1.0) * size >= 0.0;
  }

  /** A little less load, for a penalty that is positive. */
  lemma OneDown(b: Load) returns (a: Load)
    requires Penalty(b) > 0
    ensures Below(a, b) && Penalty(b) - 1000 <= Penalty(a) < Penalty(b)
  {
    if b.queueDepth > 0 {
      a := b.(queueDepth := b.queueDepth - 1);
    } else if b.queueBytes >= MIB {
      a := b.(queueBytes := b.queueBytes - MIB);
      assert a.queueBytes / MIB == b.queueBytes / MIB - 1;
    } else if Bucket(b.writeMs, 25.0) > 0 {
      BucketDown(b.writeMs, 25.0);
      a := b.(writeMs := b.writeMs - 25.0);
    } else if Bucket(b.ioWait, 5.0) > 0 {
      BucketDown(b.ioWait, 5.0);
      a := b.(ioWait := b.ioWait - 5.0);
    } else if Bucket(b.cpu, 10.0) > 0 {
      BucketDown(b.cpu, 10.0);
      a := b.(cpu := b.cpu - 10.0);
    } else {
      assert Bucket(b.memory, 25.0) > 0;
      BucketDown(b.memory, 25.0);
      a := b.(memory := b.memory - 25.0);
    }
  }

  lemma {:induction false} JustOver(b: Load) returns (a: Load)
    requires Penalty(b) > MAX_INT64
    ensures Below(a, b) && MAX_INT64 < Penalty(a) <= MAX_INT64 + 1000
    decreases Penalty(b)
  {
    a := b;
    if Penalty(b) > MAX_INT64 + 1000 {
      var less := OneDown(b);
      a := JustOver(less);
    }
  }

  ghost predicate GrowsUpTo(b: Load) {
    forall a, d :: Below(a, d) && Below(d, b) ==> StoredPenalty(a) <= StoredPenalty(d)
  }

  /** The stored penalty grows with the load, up to a given load, exactly when the penalty of that
      load fits an int64. */
  lemma StoredPenaltyGrowsExactly(b: Load)
    ensures GrowsUpTo(b) <==> Penalty(b) <= MAX_INT64
  {
    if Penalty(b) <= MAX_INT64 {
      forall a, d | Below(a, d) && Below(d, b) ensures StoredPenalty(a) <= StoredPenalty(d) {
        PenaltyMonotone(a, d);
        PenaltyMonotone(d, b);
      }
    } else {
      var d := JustOver(b);
      var a := Load(Least(d.queueDepth), Least(d.queueBytes), Lowest(d.cpu), Lowest(d.memory), Lowest(d.ioWait),
                    Lowest(d.writeMs));
      assert Below(a, d) && Penalty(a) == 0;
      assert StoredPenalty(d) < 0 == StoredPenalty(a);
    }
  }

  function Least(x: int): int { if x < 0 then x else 0 }
  function Lowest(x: real): real { if x < 0.0 then x else 0.0 }

  /** A node with so deep a queue is preferred to an idle one. */
  lemma DeepQueuePreferred()
    ensures StoredPenalty(Load(9223372036854776, 0, 0.0, 0.0, 0.0, 0.0)) < StoredPenalty(Load(0, 0, 0.0, 0.0, 0.0, 0.0))
  {
  }

  function PenaltyOf(loads: map<string, Load>, node: string): int {
    if node in loads then StoredPenalty(loads[node]) else 0
  }

  /** Smaller penalty first, then rendezvous order. */
  function ByLoad(loads: map<string, Load>, score: string -> nat): Order {
    (a, b) =>
      || PenaltyOf(loads, a) < PenaltyOf(loads, b)
      || (PenaltyOf(loads, a) == PenaltyOf(loads, b) && ByScore(score)(a, b))
  }

  lemma ByLoadStrict(loads: map<string, Load>, score: string -> nat)
    ensures StrictOrder(ByLoad(loads, score))
  {
    var lt, base := ByLoad(loads, score), ByScore(score);
    ByScoreStrict(score);
    forall a ensures !lt(a, a) { assert !base(a, a); }
    forall a, b, c | lt(a, b) && lt(b, c) ensures lt(a, c) { assert base(a, b) && base(b, c) ==> base(a, c); }
    forall a, b | a != b ensures lt(a, b) || lt(b, a) { assert base(a, b) || base(b, a); }
  }

  lemma LoadOrder(loads: map<string, Load>, score: string -> nat, x: string, y: string)
    ensures ByLoad(loads, score)(x, y) <==>
              || PenaltyOf(loads, x) < PenaltyOf(loads, y)
              || (PenaltyOf(loads, x) == PenaltyOf(loads, y) &&
                  (score(x) > score(y) || (score(x) == score(y) && Less(x, y))))
  {
    assert ByScore(score)(x, y) <==> score(x) > score(y) || (score(x) == score(y) && Less(x, y));
  }

  /** All distinct nodes in rendezvous order. */
  method RankAll(nodes: seq<string>, score: string -> nat) returns (ranked: seq<string>)
    ensures IsRanking(ranked, Nodes(nodes), ByScore(score))
    ensures forall i, j :: 0 <= i < j < |ranked| ==> ranked[i] != ranked[j]
  {
    ranked := SelectByRendezvous(nodes, |nodes|, score);
    ghost var full :| IsRanking(full, Nodes(nodes), ByScore(score)) && ranked == Top(full, |nodes|);
    ByScoreStrict(score);
    TopAll(nodes, full, ByScore(score));
    RankingDistinct(full, Nodes(nodes), ByScore(score));
  }

  /** The ranked nodes reordered by penalty. */
  method Reorder(ranked: seq<string>, s: set<string>, loads: map<string, Load>, score: string -> nat)
    returns (r: seq<string>)
    requires IsRanking(ranked, s, ByScore(score)) && forall i, j :: 0 <= i < j < |ranked| ==> ranked[i] != ranked[j]
    ensures IsRanking(r, s, ByLoad(loads, score))
  {
    ByLoadStrict(loads, score);
    r := RankBy(ranked, ByLoad(loads, score));
    assert Ids(ranked) == s;
  }

  /** The first by penalty, then rendezvous rank, when load counts and there are nodes to spare;
      the first by rank otherwise. */
  ghost predicate HotChoice(nodes: seq<string>, loads: map<string, Load>, target: int, loadAware: bool,
                            score: string -> nat, out: seq<string>) {
    if loadAware && |loads| > 0 && target < |Nodes(nodes)| then
      exists r :: IsRanking(r, Nodes(nodes), ByLoad(loads, score)) && out == Top(r, target)
    else
      Selected(out, nodes, target, score)
  }

  method SelectHotReplicaNodes(nodes: seq<string>, loads: map<string, Load>, target: int, loadAware: bool,
                               score: string -> nat)
    returns (out: seq<string>)
    ensures HotChoice(nodes, loads, target, loadAware, score, out)
  {
    var ranked := RankAll(nodes, score);
    var sorted := Reorder(ranked, Nodes(nodes), loads, score);
    RankingSizes(nodes, loads, score, ranked, sorted);
    if target <= 0 {
      assert Top(ranked, target) == [] && Top(sorted, target) == [];
      return [];
    }
    if !loadAware || |loads| == 0 || |ranked| <= target {
      var n := if target > |ranked| then |ranked| else target;
      assert ranked[..n] == Top(ranked, target);
      return ranked[..n];
    }
    out := sorted[..target];
    assert out == Top(sorted, target);
  }

  /** A chosen node beats every other by penalty, then rank, when load counts, and also when all
      nodes are chosen. */
  lemma LoadAwareOptimal(nodes: seq<string>, loads: map<string, Load>, target: int, score: string -> nat,
                         out: seq<string>, x: string, y: string)
    requires |loads| > 0 && HotChoice(nodes, loads, target, true, score, out) && x in out && y in Nodes(nodes)
    requires y !in out
    ensures || PenaltyOf(loads, x) < PenaltyOf(loads, y)
            || (PenaltyOf(loads, x) == PenaltyOf(loads, y) &&
                (score(x) > score(y) || (score(x) == score(y) && Less(x, y))))
  {
    if target < |Nodes(nodes)| {
      var r :| IsRanking(r, Nodes(nodes), ByLoad(loads, score)) && out == Top(r, target);
      TopIsBest(r, Nodes(nodes), ByLoad(loads, score), target, x, y);
      assert ByLoad(loads, score)(x, y);
      LoadOrder(loads, score, x, y);
    } else {
      AllSelected(nodes, target, score, out);
    }
  }

  lemma AllSelected(nodes: seq<string>, target: int, score: string -> nat, out: seq<string>)
    requires Selected(out, nodes, target, score) && target >= |Nodes(nodes)|
    ensures forall y :: y in Nodes(nodes) ==> y in out
  {
    var r :| IsRanking(r, Nodes(nodes), ByScore(score)) && out == Top(r, target);
    ByScoreStrict(score);
    RankingSize(r, Nodes(nodes), ByScore(score));
    assert out == r;
  }

  lemma RankingDistinct(r: seq<string>, s: set<string>, lt: Order)
    requires StrictOrder(lt) && IsRanking(r, s, lt)
    ensures forall i, j :: 0 <= i < j < |r| ==> r[i] != r[j]
    ensures |r| == |s|
  {
    forall i, j | 0 <= i < j < |r| ensures r[i] != r[j] { assert lt(r[i], r[j]); }
    RankingSize(r, s, lt);
  }

  lemma {:induction false} RankingSize(r: seq<string>, s: set<string>, lt: Order)
    requires StrictOrder(lt) && IsRanking(r, s, lt)
    ensures |r| == |s|
    decreases |r|
  {
    RankingHead(r, s, lt);
    if |r| > 0 { RankingSize(r[1..], s - {r[0]}, lt); }
  }

  lemma RankingSizes(nodes: seq<string>, loads: map<string, Load>, score: string -> nat, a: seq<string>, b: seq<string>)
    requires IsRanking(a, Nodes(nodes), ByScore(score)) && IsRanking(b, Nodes(nodes), ByLoad(loads, score))
    ensures |a| == |b| == |Nodes(nodes)|
  {
    ByScoreStrict(score);
    ByLoadStrict(loads, score);
    RankingSize(a, Nodes(nodes), ByScore(score));
    RankingSize(b, Nodes(nodes), ByLoad(loads, score));
  }

  lemma {:induction false} NodesSize(nodes: seq<string>)
    ensures |Nodes(nodes)| <= |nodes|
  {
    if |nodes| > 0 {
      var rest, last := nodes[..|nodes| - 1], nodes[|nodes| - 1];
      NodesSize(rest);
      assert nodes == rest + [last];
      assert Nodes(nodes) == Nodes(rest) + if Trim(last) != "" then {Trim(last)} else {};
    }
  }

  /** As many as there are names asked for is all of them. */
  lemma TopAll(nodes: seq<string>, r: seq<string>, lt: Order)
    requires StrictOrder(lt) && IsRanking(r, Nodes(nodes), lt)
    ensures Top(r, |nodes|) == r
  {
    NodesSize(nodes);
    RankingSize(r, Nodes(nodes), lt);
  }

  /** With equal penalties the load-aware choice is the rendezvous choice. */
  lemma EqualLoadsReduce(nodes: seq<string>, loads: map<string, Load>, target: int, loadAware: bool,
                         score: string -> nat, out: seq<string>)
    requires forall a, b :: a in Nodes(nodes) && b in Nodes(nodes) ==> PenaltyOf(loads, a) == PenaltyOf(loads, b)
    requires HotChoice(nodes, loads, target, loadAware, score, out)
    ensures Selected(out, nodes, target, score)
  {
    if loadAware && |loads| > 0 && target < |Nodes(nodes)| {
      var r :| IsRanking(r, Nodes(nodes), ByLoad(loads, score)) && out == Top(r, target);
      forall i, j | 0 <= i < j < |r| ensures ByScore(score)(r[i], r[j]) {
        assert r[i] in r && r[j] in r && ByLoad(loads, score)(r[i], r[j]);
      }
      assert IsRanking(r, Nodes(nodes), ByScore(score));
    }
  }

  // ---- repair targets ----

  ghost predicate Trimmed(nodes: seq<string>) { forall n :: n in nodes ==> n != "" && Trim(n) == n }

  /** The names not in `skip`, compared as they are written. */
  function Except(nodes: seq<string>, skip: set<string>): (out: seq<string>)
    ensures forall n :: n in out <==> n in nodes && n !in skip
  {
    if |nodes| == 0 then []
    else Except(nodes[..|nodes| - 1], skip) + if nodes[|nodes| - 1] in skip then [] else [nodes[|nodes| - 1]]
  }

  method Without(nodes: seq<string>, skip: set<string>) returns (out: seq<string>)
    ensures out == Except(nodes, skip)
  {
    out := [];
    for i := 0 to |nodes|
      invariant out == Except(nodes[..i], skip)
    {
      assert nodes[..i + 1][..i] == nodes[..i];
      if nodes[i] !in skip { out := out + [nodes[i]]; }
    }
    assert nodes[..|nodes|] == nodes;
  }

  /** Distinct members of `s`, as many as asked for or all of them. */
  ghost predicate Chosen(out: seq<string>, s: set<string>, count: nat) {
    Ids(out) <= s && Distinct(out) && |out| == Min(count, |s|) && (|out| < count ==> Ids(out) == s)
  }

  /** A repair choice: from the unused names first, then from the names not chosen yet. */
  ghost predicate Repair(healthy: seq<string>, used: set<string>, need: int, score: string -> nat,
                         fallbackScore: string -> nat, out: seq<string>) {
    if need <= 0 then out == []
    else exists first, more :: RepairOf(healthy, used, need, score, fallbackScore, first, more, out)
  }

  ghost predicate RepairOf(healthy: seq<string>, used: set<string>, need: nat, score: string -> nat,
                           fallbackScore: string -> nat, first: seq<string>, more: seq<string>, out: seq<string>) {
    && Selected(first, Except(healthy, used), need, score)
    && (if |first| >= need then out == first
        else Selected(more, Except(healthy, Ids(first)), need - |first|, fallbackScore) && out == first + more)
  }

  lemma SelectedIsChosen(out: seq<string>, nodes: seq<string>, count: nat, score: string -> nat)
    requires Selected(out, nodes, count, score)
    ensures Chosen(out, Nodes(nodes), count)
  {
    var r :| IsRanking(r, Nodes(nodes), ByScore(score)) && out == Top(r, count);
    ByScoreStrict(score);
    TopOf(r, Nodes(nodes), ByScore(score), count, out);
  }

  /** Repair targets are distinct healthy nodes, as many as needed or all there are, and a node
      already used comes only when every unused one is in. */
  method PickRepairTargetNodes(healthy: seq<string>, used: set<string>, need: int, score: string -> nat,
                               fallbackScore: string -> nat)
    returns (out: seq<string>)
    ensures Repair(healthy, used, need, score, fallbackScore, out)
    ensures Trimmed(healthy) ==>
              && Ids(out) <= Ids(healthy) && Distinct(out)
              && |out| == (if need <= 0 then 0 else Min(need, |Ids(healthy)|))
              && forall n, u :: n in out && n in used && u in healthy && u !in used ==> u in out
  {
    if need <= 0 { return []; }
    var unused := Without(healthy, used);
    var first := SelectByRendezvous(unused, need, score);
    if |first| >= need {
      assert RepairOf(healthy, used, need, score, fallbackScore, first, [], first);
      if Trimmed(healthy) { EnoughUnused(healthy, used, unused, first, need, score); }
      return first;
    }
    var fallback := Without(healthy, Ids(first));
    var more := SelectByRendezvous(fallback, need - |first|, fallbackScore);
    if Trimmed(healthy) { WithFallback(healthy, used, unused, first, fallback, more, need, score, fallbackScore); }
    out := first + more;
    assert RepairOf(healthy, used, need, score, fallbackScore, first, more, out);
  }

  /** A name whose trimmed form is among the unused nodes is among them as written. */
  ghost predicate NamesAgree(healthy: seq<string>, used: set<string>) {
    var unused := Nodes(Except(healthy, used));
    forall n :: n in healthy && Trim(n) in unused ==> n in unused
  }

  /** Repair targets are distinct for every number needed exactly when the names agree. */
  lemma RepairDistinctExactly(healthy: seq<string>, used: set<string>, score: string -> nat,
                              fallbackScore: string -> nat)
    ensures (forall need, out :: Repair(healthy, used, need, score, fallbackScore, out) ==> Distinct(out)) <==>
              NamesAgree(healthy, used)
  {
    if NamesAgree(healthy, used) {
      forall need, out | Repair(healthy, used, need, score, fallbackScore, out) ensures Distinct(out) {
        AgreeingDistinct(healthy, used, need, score, fallbackScore, out);
      }
    } else {
      var n :| n in healthy && Trim(n) in Nodes(Except(healthy, used)) && n !in Nodes(Except(healthy, used));
      var need, out := RepeatingNeed(healthy, used, score, fallbackScore, n);
      assert Repair(healthy, used, need, score, fallbackScore, out) && !Distinct(out);
    }
  }

  lemma FallbackApart(healthy: seq<string>, used: set<string>, first: seq<string>, x: string)
    requires NamesAgree(healthy, used) && Ids(first) == Nodes(Except(healthy, used))
    requires x in Nodes(Except(healthy, Ids(first)))
    ensures x !in first
  {
    var n :| n in Except(healthy, Ids(first)) && Trim(n) != "" && x == Trim(n);
    assert n in healthy && n !in Ids(first);
    assert x in first ==> x in Ids(first);
  }

  lemma PartsDistinct(healthy: seq<string>, used: set<string>, first: seq<string>, more: seq<string>)
    requires NamesAgree(healthy, used) && Ids(first) == Nodes(Except(healthy, used))
    requires Ids(more) <= Nodes(Except(healthy, Ids(first)))
    requires Distinct(first) && Distinct(more)
    ensures Distinct(first + more)
  {
    forall x | x in more ensures x !in first {
      assert x in Ids(more);
      FallbackApart(healthy, used, first, x);
    }
    DistinctJoin(first, more);
  }

  lemma AgreeingDistinct(healthy: seq<string>, used: set<string>, need: int, score: string -> nat,
                         fallbackScore: string -> nat, out: seq<string>)
    requires NamesAgree(healthy, used) && Repair(healthy, used, need, score, fallbackScore, out)
    ensures Distinct(out)
  {
    if need > 0 {
      var first, more :| RepairOf(healthy, used, need, score, fallbackScore, first, more, out);
      SelectedIsChosen(first, Except(healthy, used), need, score);
      if |first| < need {
        SelectedIsChosen(more, Except(healthy, Ids(first)), need - |first|, fallbackScore);
        PartsDistinct(healthy, used, first, more);
      }
    }
  }

  lemma {:induction false} RankingExists(s: set<string>, lt: Order) returns (r: seq<string>)
    requires StrictOrder(lt)
    ensures IsRanking(r, s, lt)
  {
    r := [];
    if s != {} {
      var x :| x in s;
      var rest := RankingExists(s - {x}, lt);
      InsertRanks(rest, s - {x}, x, lt);
      r := InsertBy(rest, x, lt);
      assert s - {x} + {x} == s;
    }
  }

  /** Asking for everything twice over finds the disagreeing name's node twice. */
  lemma RepeatingNeed(healthy: seq<string>, used: set<string>, score: string -> nat, fallbackScore: string -> nat,
                      n: string)
    returns (need: nat, out: seq<string>)
    requires var unused := Nodes(Except(healthy, used)); n in healthy && Trim(n) in unused && n !in unused
    ensures Repair(healthy, used, need, score, fallbackScore, out) && !Distinct(out)
  {
    var unused := Except(healthy, used);
    ByScoreStrict(score); ByScoreStrict(fallbackScore);
    var first := RankingExists(Nodes(unused), ByScore(score));
    var fallback := Except(healthy, Ids(first));
    var more := RankingExists(Nodes(fallback), ByScore(fallbackScore));
    need := |first| + |more| + 1;
    out := first + more;
    assert Top(first, need) == first && Top(more, need - |first|) == more;
    assert Selected(first, unused, need, score) && Selected(more, fallback, need - |first|, fallbackScore);
    assert RepairOf(healthy, used, need, score, fallbackScore, first, more, out);
    assert n in fallback && Trim(n) in Nodes(fallback);
    assert Trim(n) in first && Trim(n) in more;
    var i :| 0 <= i < |first| && first[i] == Trim(n);
    var j :| 0 <= j < |more| && more[j] == Trim(n);
    assert out[i] == out[|first| + j];
  }

  lemma BlankNode()
    ensures Trim("a ") == "a" && Nodes(["a "]) == {"a"}
  {
    assert TrimLeft("a ") == "a " && "a "[..1] == "a" && TrimRight("a ") == TrimRight("a") == "a";
  }

  lemma OneSelected(count: nat, score: string -> nat)
    requires count >= 1
    ensures Selected(["a"], ["a "], count, score)
  {
    BlankNode();
    assert IsRanking(["a"], Nodes(["a "]), ByScore(score)) && Top(["a"], count) == ["a"];
  }

  /** With one healthy name that carries a blank and two targets asked for, the node comes twice. */
  lemma BlankNameRepeats(score: string -> nat, fallbackScore: string -> nat)
    ensures !NamesAgree(["a "], {})
    ensures Repair(["a "], {}, 2, score, fallbackScore, ["a", "a"]) && !Distinct(["a", "a"])
  {
    BlankNode();
    assert ["a "][..0] == [] && Except(["a "], {}) == ["a "] == Except(["a "], Ids(["a"]));
    assert "a " in ["a "];
    OneSelected(2, score);
    OneSelected(1, fallbackScore);
    assert ["a"] + ["a"] == ["a", "a"];
    assert RepairOf(["a "], {}, 2, score, fallbackScore, ["a"], ["a"], ["a", "a"]);
    assert ["a", "a"][0] == ["a", "a"][1];
  }

  lemma DistinctJoin(a: seq<string>, b: seq<string>)
    requires Distinct(a) && Distinct(b) && forall x :: x in b ==> x !in a
    ensures Distinct(a + b)
  {
    var s := a + b;
    forall i, j | 0 <= i < j < |s| ensures s[i] != s[j] {
      if i < |a| <= j { assert b[j - |a|] in b && a[i] in a; }
      else if i >= |a| { assert s[i] == b[i - |a|] && s[j] == b[j - |a|]; }
    }
  }

  lemma EnoughUnused(healthy: seq<string>, used: set<string>, unused: seq<string>, out: seq<string>, need: nat,
                     score: string -> nat)
    requires Trimmed(healthy) && unused == Except(healthy, used) && Selected(out, unused, need, score) && |out| >= need
    ensures Ids(out) <= Ids(healthy) && Distinct(out) && |out| == Min(need, |Ids(healthy)|)
    ensures forall n :: n in out ==> n !in used
  {
    SelectedIsChosen(out, unused, need, score);
    TrimmedNodes(unused);
    SubsetCount(Ids(unused), Ids(healthy));
    forall n | n in out ensures n !in used { assert n in Ids(out); }
  }

  lemma WithFallback(healthy: seq<string>, used: set<string>, unused: seq<string>, first: seq<string>,
                     fallback: seq<string>, more: seq<string>, need: nat, score: string -> nat,
                     fallbackScore: string -> nat)
    requires Trimmed(healthy) && unused == Except(healthy, used) && Selected(first, unused, need, score)
    requires |first| < need
    requires fallback == Except(healthy, Ids(first)) && Selected(more, fallback, need - |first|, fallbackScore)
    ensures Ids(first + more) <= Ids(healthy) && Distinct(first + more) && |first + more| == Min(need, |Ids(healthy)|)
    ensures forall u :: u in healthy && u !in used ==> u in first + more
  {
    SelectedIsChosen(first, unused, need, score);
    SelectedIsChosen(more, fallback, need - |first|, fallbackScore);
    TrimmedNodes(unused); TrimmedNodes(fallback);
    DistinctSize(first);
    JoinSizes(Ids(first), Ids(fallback), Ids(healthy));
    forall n | n in more ensures n in healthy && n !in first { assert n in Ids(more); }
    DistinctJoin(first, more);
    forall u | u in healthy && u !in used ensures u in first { assert u in Ids(unused); }
    forall n | n in first ensures n in healthy { assert n in Ids(first); }
  }

  lemma TrimmedNodes(nodes: seq<string>)
    requires Trimmed(nodes)
    ensures Nodes(nodes) == Ids(nodes)
  {
    forall n | n in nodes ensures n in Nodes(nodes) { assert Trim(n) == n; }
  }

  lemma JoinSizes(a: set<string>, b: set<string>, all: set<string>)
    requires a <= all && b == all - a
    ensures |a| + |b| == |all|
  {
    assert all == a + b;
  }

  lemma {:induction false} DistinctSize(s: seq<string>)
    requires Distinct(s)
    ensures |Ids(s)| == |s|
  {
    if |s| > 0 {
      var rest := s[..|s| - 1];
      DistinctSize(rest);
      assert s == rest + [s[|s| - 1]];
      assert Ids(s) == Ids(rest) + {s[|s| - 1]};
      forall x | x in rest ensures x != s[|s| - 1] { var i :| 0 <= i < |rest| && rest[i] == x; assert s[i] == x; }
    }
  }

  /** The chosen are distinct members, as many as asked for or all of them. */
  lemma TopOf(r: seq<string>, s: set<string>, lt: Order, count: nat, out: seq<string>)
    requires StrictOrder(lt) && IsRanking(r, s, lt) && out == Top(r, count)
    ensures Chosen(out, s, count)
  {
    RankingDistinct(r, s, lt);
    forall x | x in out ensures x in s { assert x in r; }
  }
}
