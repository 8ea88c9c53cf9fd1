/** The in-memory form of the key-value client: an ordered map with batches, overlay
    transactions and range iterators. */
module KvClient {
  import opened MetaTypes
  import opened ByteOrder

  // ---- sorted listings ----

  ghost predicate StrictlySorted(keys: seq<string>) {
    forall i, j :: 0 <= i < j < |keys| ==> Less(keys[i], keys[j])
  }

  /** The keys of a set, each once, in ascending byte order. */
  ghost predicate Lists(keys: seq<string>, s: set<string>) {
    StrictlySorted(keys) && forall k :: k in keys <==> k in s
  }

  function Insert(keys: seq<string>, k: string): seq<string> {
    if |keys| == 0 then [k]
    else if Less(k, keys[0]) then [k] + keys
    else [keys[0]] + Insert(keys[1..], k)
  }

  lemma {:induction false} InsertLists(keys: seq<string>, s: set<string>, k: string)
    requires Lists(keys, s) && k !in s
    ensures Lists(Insert(keys, k), s + {k})
  {
    var r := Insert(keys, k);
    if |keys| > 0 {
      var head := keys[0];
      if Less(k, head) {
        forall i, j | 0 <= i < j < |r| ensures Less(r[i], r[j]) {
          if i == 0 && j > 1 { assert keys[j - 1] == r[j]; LessTransitive(k, head, keys[j - 1]); }
          if i > 0 { assert r[i] == keys[i - 1] && r[j] == keys[j - 1]; }
        }
        assert forall x :: x in r <==> x in s + {k};
      } else {
        var tail := keys[1..];
        TailLists(keys, s);
        InsertLists(tail, s - {head}, k);
        LessTotal(head, k);
        assert head in s;
        var rest := Insert(tail, k);
        assert r == [head] + rest;
        forall i, j | 0 <= i < j < |r| ensures Less(r[i], r[j]) {
          if i > 0 { assert r[i] == rest[i - 1] && r[j] == rest[j - 1]; }
          else {
            assert r[j] == rest[j - 1] && rest[j - 1] in (s - {head}) + {k};
            if r[j] != k {
              assert r[j] in keys && r[j] != head;
              var m :| 0 <= m < |keys| && keys[m] == r[j];
            }
          }
        }
        assert forall x :: x in r <==> x in s + {k};
      }
    }
  }

  ghost function Sorted(s: set<string>): (keys: seq<string>)
    ensures Lists(keys, s)
  {
    if s == {} then []
    else
      var k :| k in s;
      InsertLists(Sorted(s - {k}), s - {k}, k);
      assert (s - {k}) + {k} == s;
      Insert(Sorted(s - {k}), k)
  }

  lemma ListHead(a: seq<string>, s: set<string>)
    requires Lists(a, s)
    ensures |a| == 0 <==> s == {}
    ensures |a| > 0 ==> a[0] in s && forall x :: x in s ==> AtMost(a[0], x)
  {
    if |a| > 0 {
      assert a[0] in s;
      forall x | x in s ensures AtMost(a[0], x) {
        var i :| 0 <= i < |a| && a[i] == x;
      }
    }
  }

  lemma TailLists(a: seq<string>, s: set<string>)
    requires Lists(a, s) && |a| > 0
    ensures Lists(a[1..], s - {a[0]}) && a[0] in s
  {
    assert a == [a[0]] + a[1..];
    forall x | x in a[1..] ensures x != a[0] {
      var j :| 0 <= j < |a| - 1 && a[1..][j] == x;
      assert Less(a[0], a[j + 1]);
      LessIrreflexive(a[0]);
    }
  }

  lemma {:induction false} ListsUnique(a: seq<string>, b: seq<string>, s: set<string>)
    requires Lists(a, s) && Lists(b, s)
    ensures a == b
  {
    ListHead(a, s); ListHead(b, s);
    if |a| > 0 {
      if a[0] != b[0] { LessAsymmetric(a[0], b[0]); }
      TailLists(a, s); TailLists(b, s);
      ListsUnique(a[1..], b[1..], s - {a[0]});
      assert a == [a[0]] + a[1..] && b == [b[0]] + b[1..];
    }
  }

  /** Every key of the map under a prefix, in ascending order: what a prefix iterator visits. */
  ghost function PrefixKeys<V>(kv: map<string, V>, prefix: string): seq<string> {
    Sorted(set k | k in kv && HasPrefix(k, prefix))
  }

  // ---- batches ----

  datatype Op<V> = Put(key: string, value: V) | Del(key: string)

  function ApplyOp<V>(kv: map<string, V>, op: Op<V>): map<string, V> {
    match op
    case Put(k, v) => kv[k := v]
    case Del(k) => kv - {k}
  }

  /** The operations replayed one after another. */
  function Apply<V>(kv: map<string, V>, ops: seq<Op<V>>): map<string, V> {
    if |ops| == 0 then kv else ApplyOp(Apply(kv, ops[..|ops| - 1]), ops[|ops| - 1])
  }

  lemma {:induction false} ApplyAppend<V>(kv: map<string, V>, a: seq<Op<V>>, b: seq<Op<V>>)
    ensures Apply(kv, a + b) == Apply(Apply(kv, a), b)
  {
    if |b| == 0 {
      assert a + b == a;
    } else {
      assert (a + b)[..|a + b| - 1] == a + b[..|b| - 1];
      ApplyAppend(kv, a, b[..|b| - 1]);
    }
  }

  // ---- transaction scripts ----

  /** What a transaction body does: reads, writes, or gives up with an error. */
  datatype Cmd<V> = Read(key: string) | Write(op: Op<V>) | Fail

  datatype Outcome<V> = Outcome(ok: bool, seen: seq<Option<V>>, kv: map<string, V>)

  function Lookup<V>(kv: map<string, V>, k: string): Option<V> {
    if k in kv then Some(kv[k]) else None
  }

  /** The body run directly on the store, command by command, up to an error. */
  function Direct<V>(kv: map<string, V>, script: seq<Cmd<V>>): Outcome<V> {
    if |script| == 0 then Outcome(true, [], kv)
    else
      var before := Direct(kv, script[..|script| - 1]);
      if !before.ok then before
      else
        match script[|script| - 1]
        case Read(k) => Outcome(true, before.seen + [Lookup(before.kv, k)], before.kv)
        case Write(op) => Outcome(true, before.seen, ApplyOp(before.kv, op))
        case Fail => Outcome(false, before.seen, before.kv)
  }

  lemma {:induction false} DirectFailsForGood<V>(kv: map<string, V>, script: seq<Cmd<V>>, i: nat)
    requires i <= |script| && !Direct(kv, script[..i]).ok
    ensures Direct(kv, script) == Direct(kv, script[..i])
  {
    if i < |script| {
      assert script[..|script| - 1][..i] == script[..i];
      DirectFailsForGood(kv, script[..|script| - 1], i);
    } else {
      assert script[..i] == script;
    }
  }

  /** The overlays of an open transaction. */
  class Txn<V> {
    const base: map<string, V>
    var memSets: map<string, V>
    var memDels: set<string>

    /** The overlays never name the same key, so the order they are committed in is immaterial. */
    ghost predicate Valid() reads this { memSets.Keys !! memDels }

    /** The map the transaction sees. */
    ghost function View(): map<string, V> reads this { (base - memDels) + memSets }

    constructor (kv: map<string, V>)
      ensures Valid() && View() == kv && base == kv
    {
      base := kv;
      memSets, memDels := map[], {};
    }

    method Get(key: string) returns (value: Option<V>)
      requires Valid()
      ensures value == Lookup(View(), key)
    {
      if key in memDels { return None; }
      if key in memSets { return Some(memSets[key]); }
      return if key in base then Some(base[key]) else None;
    }

    method Set(key: string, value: V)
      requires Valid()
      modifies this
      ensures Valid() && View() == old(View())[key := value]
    {
      memDels := memDels - {key};
      memSets := memSets[key := value];
    }

    method Delete(key: string)
      requires Valid()
      modifies this
      ensures Valid() && View() == old(View()) - {key}
    {
      memSets := memSets - {key};
      memDels := memDels + {key};
    }
  }

  class Client<V> {
    var kv: map<string, V>

    /** Commit of a batch: its operations in order. */
    method CommitBatch(ops: seq<Op<V>>)
      modifies this
      ensures kv == Apply(old(kv), ops)
    {
      for i := 0 to |ops|
        invariant kv == Apply(old(kv), ops[..i])
      {
        assert ops[..i + 1][..i] == ops[..i];
        match ops[i] {
          case Del(k) => kv := kv - {k};
          case Put(k, v) => kv := kv[k := v];
        }
      }
      assert ops[..|ops|] == ops;
    }

    /** A transaction gives the reads and the final map of running its body directly, and on
        error it leaves the store as it was. */
    method RunInTxn(script: seq<Cmd<V>>) returns (ok: bool, seen: seq<Option<V>>)
      modifies this
      ensures ok == Direct(old(kv), script).ok && seen == Direct(old(kv), script).seen
      ensures kv == if ok then Direct(old(kv), script).kv else old(kv)
    {
      var t := new Txn<V>(kv);
      seen := [];
      for i := 0 to |script|
        invariant fresh(t) && t.Valid() && t.base == kv == old(kv)
        invariant Direct(kv, script[..i]) == Outcome(true, seen, t.View())
      {
        assert script[..i + 1][..i] == script[..i];
        match script[i] {
          case Read(k) =>
            var value := t.Get(k);
            seen := seen + [value];
          case Write(Put(k, v)) => t.Set(k, v);
          case Write(Del(k)) => t.Delete(k);
          case Fail =>
            DirectFailsForGood(kv, script, i + 1);
            return false, seen;
        }
      }
      assert script[..|script|] == script;
      Commit(t);
      ok := true;
    }

    /** Deletions first, then writes: the overlays are disjoint, so the result is the view. */
    method Commit(t: Txn<V>)
      requires t.Valid() && t.base == kv
      modifies this
      ensures kv == old(t.View())
    {
      DeleteAll(t.memDels);
      SetAll(t.memSets);
    }

    method DeleteAll(keys: set<string>)
      modifies this
      ensures kv == old(kv) - keys
    {
      var rest := keys;
      while rest != {}
        invariant rest <= keys && kv == old(kv) - (keys - rest)
        decreases |rest|
      {
        var k :| k in rest;
        kv := kv - {k};
        rest := rest - {k};
      }
    }

    method SetAll(sets: map<string, V>)
      modifies this
      ensures kv == old(kv) + sets
    {
      var rest := sets.Keys;
      while rest != {}
        invariant rest <= sets.Keys && kv == old(kv) + (sets - rest)
        decreases |rest|
      {
        var k :| k in rest;
        kv := kv[k := sets[k]];
        rest := rest - {k};
      }
    }

    /** An iterator over the keys of a range: a snapshot, sorted, each key once. */
    method NewIter(lower: string, upper: string) returns (keys: seq<string>)
      ensures Lists(keys, set k | k in kv && InRange(k, lower, upper))
    {
      keys := [];
      var rest := kv.Keys;
      while rest != {}
        invariant rest <= kv.Keys
        invariant Lists(keys, set k | k in kv && k !in rest && InRange(k, lower, upper))
        decreases |rest|
      {
        var k :| k in rest;
        ghost var done := set k | k in kv && k !in rest && InRange(k, lower, upper);
        rest := rest - {k};
        if InRange(k, lower, upper) {
          InsertLists(keys, done, k);
          keys := Insert(keys, k);
          assert done + {k} == set k | k in kv && k !in rest && InRange(k, lower, upper);
        } else {
          assert done == set k | k in kv && k !in rest && InRange(k, lower, upper);
        }
      }
      assert (set k | k in kv && InRange(k, lower, upper)) == set k | k in kv && k !in rest && InRange(k, lower, upper);
    }

    /** A prefix iterator visits exactly the keys with the prefix, once each, in ascending order. */
    method NewPrefixIter(prefix: string) returns (keys: seq<string>)
      requires AllBytes(prefix)
      requires (|prefix| > 0 && prefix[|prefix| - 1] as int != 255) || forall k :: k in kv ==> AllBytes(k)
      ensures keys == PrefixKeys(kv, prefix)
      ensures Lists(keys, set k | k in kv && HasPrefix(k, prefix))
    {
      var upper := ComputePrefixUpperBound(prefix);
      keys := NewIter(prefix, upper);
      forall k | k in kv ensures InRange(k, prefix, upper) <==> HasPrefix(k, prefix) {
        PrefixRangeExact(k, prefix);
      }
      assert (set k | k in kv && InRange(k, prefix, upper)) == set k | k in kv && HasPrefix(k, prefix);
      ListsUnique(keys, PrefixKeys(kv, prefix), set k | k in kv && HasPrefix(k, prefix));
    }
  }
}
