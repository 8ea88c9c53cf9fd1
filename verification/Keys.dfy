/** Byte order on keys.  A key is a string of byte-valued characters. */
module ByteOrder {
  /** Strict lexicographic order, as bytes.Compare(a, b) < 0. */
  predicate Less(a: string, b: string) {
    |b| > 0 && (|a| == 0 || a[0] < b[0] || (a[0] == b[0] && Less(a[1..], b[1..])))
  }

  predicate AtMost(a: string, b: string) {
    a == b || Less(a, b)
  }

  predicate HasPrefix(s: string, prefix: string) {
    prefix <= s
  }

  predicate AllBytes(s: string) {
    forall i :: 0 <= i < |s| ==> s[i] as int < 256
  }

  lemma {:induction false} LessIrreflexive(a: string)
    ensures !Less(a, a)
  {
    if |a| > 0 { LessIrreflexive(a[1..]); }
  }

  lemma {:induction false} LessTransitive(a: string, b: string, c: string)
    requires Less(a, b) && Less(b, c)
    ensures Less(a, c)
  {
    if |a| > 0 && a[0] == b[0] && b[0] == c[0] { LessTransitive(a[1..], b[1..], c[1..]); }
  }

  lemma {:induction false} LessTotal(a: string, b: string)
    ensures a == b || Less(a, b) || Less(b, a)
  {
    if |a| > 0 && |b| > 0 && a[0] == b[0] {
      LessTotal(a[1..], b[1..]);
      assert a[1..] == b[1..] ==> a == b by { assert a == [a[0]] + a[1..] && b == [b[0]] + b[1..]; }
    }
  }

  lemma LessAsymmetric(a: string, b: string)
    requires Less(a, b)
    ensures !Less(b, a) && a != b
  {
    LessIrreflexive(a);
    if Less(b, a) { LessTransitive(a, b, a); }
  }

  /** Heads of equal length decide first, then the tails. */
  lemma {:induction false} LessAppend(p: string, q: string, s: string, t: string)
    requires |p| == |q|
    ensures Less(p + s, q + t) <==> Less(p, q) || (p == q && Less(s, t))
  {
    if |p| == 0 {
      assert p + s == s && q + t == t;
    } else {
      assert (p + s)[1..] == p[1..] + s && (q + t)[1..] == q[1..] + t;
      LessAppend(p[1..], q[1..], s, t);
      assert p == q <==> p[0] == q[0] && p[1..] == q[1..] by {
        assert p == [p[0]] + p[1..] && q == [q[0]] + q[1..];
      }
    }
  }

  lemma LessSamePrefix(p: string, s: string, t: string)
    ensures Less(p + s, p + t) <==> Less(s, t)
  {
    LessAppend(p, p, s, t);
    LessIrreflexive(p);
  }

  // ---- prefix ranges ----

  /** The least key above every key with the prefix, or the empty key when there is none. */
  function PrefixUpperBound(prefix: string): string
    requires AllBytes(prefix)
  {
    if |prefix| == 0 then ""
    else
      var init, last := prefix[..|prefix| - 1], prefix[|prefix| - 1];
      if last as int != 255 then init + [(last as int + 1) as char] else PrefixUpperBound(init)
  }

  /** The bound computed in place, from the last byte towards the first. */
  method ComputePrefixUpperBound(prefix: string) returns (bound: string)
    requires AllBytes(prefix)
    ensures bound == PrefixUpperBound(prefix)
  {
    var out := new char[|prefix|](i requires 0 <= i < |prefix| => prefix[i]);
    var n := |prefix|;
    assert prefix[..n] == prefix;
    while n > 0
      invariant 0 <= n <= |prefix| && out.Length == |prefix| && out[..] == prefix
      invariant PrefixUpperBound(prefix) == PrefixUpperBound(prefix[..n])
    {
      var i := n - 1;
      assert prefix[..n][..i] == prefix[..i];
      if out[i] as int != 255 {
        out[i] := (out[i] as int + 1) as char;
        assert out[..n] == prefix[..i] + [(prefix[i] as int + 1) as char];
        return out[..n];
      }
      n := i;
    }
    return "";
  }

  /** The half-open range an iterator opened with these bounds visits; an empty bound is open. */
  predicate InRange(k: string, lower: string, upper: string) {
    && (|lower| > 0 ==> !Less(k, lower))
    && (|upper| > 0 ==> Less(k, upper))
  }

  lemma {:induction false} PrefixAtMost(k: string, prefix: string)
    requires HasPrefix(k, prefix)
    ensures !Less(k, prefix)
  {
    if |prefix| > 0 { PrefixAtMost(k[1..], prefix[1..]); }
  }

  lemma {:induction false} UpperBoundHead(prefix: string)
    requires AllBytes(prefix) && |prefix| > 0
    ensures var rest := PrefixUpperBound(prefix[1..]);
            PrefixUpperBound(prefix) ==
              if |rest| > 0 then [prefix[0]] + rest
              else if prefix[0] as int != 255 then [(prefix[0] as int + 1) as char]
              else ""
    decreases |prefix|
  {
    var init, last := prefix[..|prefix| - 1], prefix[|prefix| - 1];
    if |prefix| > 1 {
      assert prefix[1..][..|prefix| - 2] == init[1..];
      if last as int == 255 {
        UpperBoundHead(init);
      } else {
        assert init + [(last as int + 1) as char] == [prefix[0]] + (init[1..] + [(last as int + 1) as char]);
      }
    }
  }

  /** The range from a prefix to its upper bound holds exactly the keys with that prefix: for
      every byte prefix, the empty one and all-0xFF ones included. */
  lemma {:induction false} PrefixRangeExact(k: string, prefix: string)
    requires AllBytes(prefix)
    requires AllBytes(k) || |prefix| == 0 || prefix[|prefix| - 1] as int != 255
    ensures InRange(k, prefix, PrefixUpperBound(prefix)) <==> HasPrefix(k, prefix)
    decreases |prefix|
  {
    if |prefix| > 0 {
      var tail := prefix[1..];
      UpperBoundHead(prefix);
      if |k| > 0 {
        PrefixRangeExact(k[1..], tail);
        assert HasPrefix(k, prefix) <==> k[0] == prefix[0] && HasPrefix(k[1..], tail) by {
          assert prefix == [prefix[0]] + tail && k == [k[0]] + k[1..];
        }
        assert Less(k, prefix) <==> k[0] < prefix[0] || (k[0] == prefix[0] && Less(k[1..], tail));
        if |PrefixUpperBound(tail)| > 0 {
          var bound := [prefix[0]] + PrefixUpperBound(tail);
          assert bound[1..] == PrefixUpperBound(tail);
          assert Less(k, bound) <==> k[0] < prefix[0] || (k[0] == prefix[0] && Less(k[1..], PrefixUpperBound(tail)));
        } else if prefix[0] as int != 255 {
          var bound := [(prefix[0] as int + 1) as char];
          assert bound[1..] == "" && (Less(k, bound) <==> k[0] as int < prefix[0] as int + 1);
        } else {
          assert AllBytes(k) && k[0] as int < 256;
        }
      }
    }
  }
}

/** Key builders and parsers of the metadata keyspace. */
module Keys {
  import opened Int64
  import opened MetaTypes
  import opened ByteOrder

  const PRIORITY_BIAS := 1000000000
  const PRIORITY_MAX := 2000000000

  // ---- fixed-width decimals ----

  function Pow10(n: nat): nat {
    if n == 0 then 1 else 10 * Pow10(n - 1)
  }

  function DigitChar(d: nat): char
    requires d < 10
  {
    (('0' as int) + d) as char
  }

  /** Zero-padded decimal of a given width. */
  function Digits(v: nat, width: nat): (s: string)
    ensures |s| == width
  {
    if width == 0 then "" else Digits(v / 10, width - 1) + [DigitChar(v % 10)]
  }

  /** %020d of an int64: a sign takes one of the twenty columns. */
  function EncodeInt64(v: int): (s: string)
    ensures |s| == 20
  {
    if v >= 0 then Digits(v, 20) else "-" + Digits(-v, 19)
  }

  function ClampPriority(priority: int): (p: int)
    ensures 0 <= p <= PRIORITY_MAX
  {
    var n := Wrap(priority + PRIORITY_BIAS);
    if n < 0 then 0 else if n > PRIORITY_MAX then PRIORITY_MAX else n
  }

  function EncodePriorityDesc(priority: int): (s: string)
    ensures |s| == 10
  {
    Digits(PRIORITY_MAX - ClampPriority(priority), 10)
  }

  lemma {:induction false} DigitsOrder(a: nat, b: nat, width: nat)
    requires a < Pow10(width) && b < Pow10(width)
    ensures Less(Digits(a, width), Digits(b, width)) <==> a < b
    ensures Digits(a, width) == Digits(b, width) <==> a == b
  {
    if width > 0 {
      DigitsOrder(a / 10, b / 10, width - 1);
      var p, q := Digits(a / 10, width - 1), Digits(b / 10, width - 1);
      var x, y := [DigitChar(a % 10)], [DigitChar(b % 10)];
      LessAppend(p, q, x, y);
      assert Less(x, y) <==> a % 10 < b % 10 by { assert x[1..] == "" && y[1..] == ""; }
      assert (p + x == q + y) <==> p == q && x == y by {
        assert (p + x)[..width - 1] == p && (p + x)[width - 1..] == x && (q + y)[..width - 1] == q &&
               (q + y)[width - 1..] == y;
      }
      assert x == y <==> a % 10 == b % 10 by { assert x[0] == DigitChar(a % 10) && y[0] == DigitChar(b % 10); }
      assert a == 10 * (a / 10) + a % 10 && b == 10 * (b / 10) + b % 10;
    }
  }

  lemma Pow10Bounds()
    ensures Pow10(10) == 10000000000
    ensures Pow10(19) == 10000000000000000000
    ensures Pow10(20) == 100000000000000000000
  {
    assert Pow10(5) == 100000;
    assert Pow10(10) == 10000000000 by { assert Pow10(6) == 1000000 && Pow10(8) == 100000000; }
    assert Pow10(12) == 1000000000000 && Pow10(14) == 100000000000000;
    assert Pow10(16) == 10000000000000000 && Pow10(18) == 1000000000000000000;
  }

  lemma BothNonNegative(a: int, b: int)
    requires 0 <= a <= MAX_INT64 && 0 <= b <= MAX_INT64
    ensures Less(EncodeInt64(a), EncodeInt64(b)) <==> a < b
    ensures EncodeInt64(a) == EncodeInt64(b) <==> a == b
  {
    Pow10Bounds();
    DigitsOrder(a, b, 20);
  }

  /** Two negatives come out in reverse. */
  lemma BothNegative(a: int, b: int)
    requires MIN_INT64 <= a < 0 && MIN_INT64 <= b < 0
    ensures Less(EncodeInt64(a), EncodeInt64(b)) <==> a > b
    ensures EncodeInt64(a) == EncodeInt64(b) <==> a == b
  {
    Pow10Bounds();
    DigitsOrder(-a, -b, 19);
    LessSamePrefix("-", Digits(-a, 19), Digits(-b, 19));
    assert EncodeInt64(a)[1..] == Digits(-a, 19) && EncodeInt64(b)[1..] == Digits(-b, 19);
  }

  lemma MixedSigns(a: int, b: int)
    requires a < 0 <= b
    ensures Less(EncodeInt64(a), EncodeInt64(b)) && !Less(EncodeInt64(b), EncodeInt64(a))
    ensures EncodeInt64(a) != EncodeInt64(b)
  {
    DigitsHead(b, 20);
    assert EncodeInt64(a)[0] == '-' && '0' <= EncodeInt64(b)[0];
  }

  /** Byte order of two encoded int64 values is numeric order exactly when not both are negative. */
  lemma Int64Order(a: int, b: int)
    requires IsInt64(a) && IsInt64(b)
    ensures (Less(EncodeInt64(a), EncodeInt64(b)) <==> a < b) <==> !(a < 0 && b < 0 && a != b)
    ensures EncodeInt64(a) == EncodeInt64(b) <==> a == b
  {
    if a >= 0 && b >= 0 {
      BothNonNegative(a, b);
    } else if a < 0 && b < 0 {
      BothNegative(a, b);
    } else if a < 0 {
      MixedSigns(a, b);
    } else {
      MixedSigns(b, a);
    }
  }

  lemma {:induction false} DigitsHead(v: nat, width: nat)
    ensures forall i :: 0 <= i < width ==> '0' <= Digits(v, width)[i] <= '9'
  {
    if width > 0 { DigitsHead(v / 10, width - 1); }
  }

  /** Byte order of encoded priorities is the reverse of clamped priority order. */
  lemma PriorityOrder(p: int, q: int)
    ensures Less(EncodePriorityDesc(p), EncodePriorityDesc(q)) <==> ClampPriority(p) > ClampPriority(q)
    ensures EncodePriorityDesc(p) == EncodePriorityDesc(q) <==> ClampPriority(p) == ClampPriority(q)
  {
    Pow10Bounds();
    DigitsOrder(PRIORITY_MAX - ClampPriority(p), PRIORITY_MAX - ClampPriority(q), 10);
  }

  /** Clamping keeps the order of two priorities exactly when adding the bias to the larger one
      stays within int64, or the smaller one is clamped to the bottom too: at or below minus the
      bias, or so large that its own sum overflows. */
  lemma ClampKeepsOrder(p: int, q: int)
    requires IsInt64(p) && IsInt64(q) && p <= q
    ensures ClampPriority(p) <= ClampPriority(q) <==>
              || q <= MAX_INT64 - PRIORITY_BIAS
              || p <= -PRIORITY_BIAS
              || p > MAX_INT64 - PRIORITY_BIAS
  {
    if q > MAX_INT64 - PRIORITY_BIAS { OverflowClampsLow(q); }
    if p > MAX_INT64 - PRIORITY_BIAS { OverflowClampsLow(p); }
  }

  /** A priority whose sum with the bias overflows is clamped to the bottom. */
  lemma OverflowClampsLow(p: int)
    requires MAX_INT64 - PRIORITY_BIAS < p <= MAX_INT64
    ensures ClampPriority(p) == 0
  {
    assert Wrap(p + PRIORITY_BIAS) == p + PRIORITY_BIAS - 0x1_0000_0000_0000_0000;
  }

  /** The largest priority comes after priority 0 in the ready index. */
  lemma LargestPriorityComesLast()
    ensures Less(EncodePriorityDesc(0), EncodePriorityDesc(MAX_INT64))
  {
    OverflowClampsLow(MAX_INT64);
    PriorityOrder(0, MAX_INT64);
  }

  /** Minus one comes before minus two in byte order. */
  lemma NegativesReverse()
    ensures Less(EncodeInt64(-1), EncodeInt64(-2))
  {
    BothNegative(-1, -2);
  }

  // ---- reading numbers back ----

  predicate IsDigit(c: char) { '0' <= c <= '9' }

  /** Value of a non-empty run of decimal digits. */
  function ParseDigits(s: string): Option<nat> {
    if |s| == 0 then None
    else
      var last := s[|s| - 1];
      if !IsDigit(last) then None
      else if |s| == 1 then Some(last as int - '0' as int)
      else
        match ParseDigits(s[..|s| - 1])
        case None => None
        case Some(v) => Some(10 * v + (last as int - '0' as int))
  }

  /** strconv.ParseInt(s, 10, 64). */
  function ParseInt(s: string): Option<int> {
    var signed := |s| > 0 && (s[0] == '-' || s[0] == '+');
    match ParseDigits(if signed then s[1..] else s)
    case None => None
    case Some(v) =>
      var u: int := v;
      var n := if signed && s[0] == '-' then -u else u;
      if IsInt64(n) then Some(n) else None
  }

  lemma {:induction false} ParseDigitsInverts(v: nat, width: nat)
    requires width > 0 && v < Pow10(width)
    ensures ParseDigits(Digits(v, width)) == Some(v)
  {
    var s := Digits(v, width);
    assert s[..width - 1] == Digits(v / 10, width - 1) && s[width - 1] == DigitChar(v % 10);
    if width > 1 {
      ParseDigitsInverts(v / 10, width - 1);
    }
  }

  lemma ParseIntInverts(v: int)
    requires IsInt64(v)
    ensures ParseInt(EncodeInt64(v)) == Some(v)
  {
    Pow10Bounds();
    if v >= 0 {
      ParseDigitsInverts(v, 20);
      DigitsHead(v, 20);
    } else {
      ParseDigitsInverts(-v, 19);
      assert EncodeInt64(v)[1..] == Digits(-v, 19);
    }
  }

  // ---- path components ----

  predicate SlashFree(s: string) { '/' !in s }

  /** strings.Split(s, "/"). */
  function Split(s: string): (parts: seq<string>)
    ensures |parts| > 0
  {
    if |s| == 0 then [""]
    else
      var rest := Split(s[1..]);
      if s[0] == '/' then [""] + rest else [[s[0]] + rest[0]] + rest[1..]
  }

  /** strings.Join(parts, "/"). */
  function Join(parts: seq<string>): string {
    if |parts| == 0 then "" else if |parts| == 1 then parts[0] else parts[0] + "/" + Join(parts[1..])
  }

  lemma {:induction false} JoinSplit(s: string)
    ensures Join(Split(s)) == s
  {
    if |s| > 0 {
      var rest := Split(s[1..]);
      JoinSplit(s[1..]);
      if s[0] == '/' {
        assert ([""] + rest)[1..] == rest;
        assert Join([""] + rest) == "" + "/" + Join(rest);
      } else {
        var head := [s[0]] + rest[0];
        assert ([head] + rest[1..])[1..] == rest[1..];
        assert Join([head] + rest[1..]) == [s[0]] + Join(rest);
      }
      assert s == [s[0]] + s[1..];
    }
  }

  /** A slash-free component is cut off whole. */
  lemma {:induction false} SplitCut(a: string, b: string)
    requires SlashFree(a)
    ensures Split(a + "/" + b) == [a] + Split(b)
  {
    if |a| == 0 {
      assert a + "/" + b == "/" + b && ("/" + b)[1..] == b;
    } else {
      assert SlashFree(a[1..]);
      SplitCut(a[1..], b);
      assert (a + "/" + b)[1..] == a[1..] + "/" + b;
      assert [a[0]] + a[1..] == a;
    }
  }

  lemma {:induction false} EncodedSlashFree(v: int)
    ensures SlashFree(EncodeInt64(v))
  {
    if v >= 0 { DigitsHead(v, 20); } else { DigitsHead(-v, 19); }
  }

  lemma PrioritySlashFree(p: int)
    ensures SlashFree(EncodePriorityDesc(p))
  {
    DigitsHead(PRIORITY_MAX - ClampPriority(p), 10);
  }

  // ---- builders ----

  const OBJECT := "obj/"
  const OBJECT_VERSION := "objv/"
  const REPLICA := "repl/"
  const EC_SHARD := "ec/"
  const TASK := "task/"
  const TASK_READY := "task_ready/"
  const TASK_WAIT := "task_wait/"
  const TASK_TERMINAL := "task_terminal/"
  const HEARTBEAT := "hb/"
  const LEADER := "leader/"
  const LEADER_LOCK := "leader_lock/"
  const TIER_DUE := "tdue/"
  const TIER_REF := "tdue_ref/"

  const Families: seq<string> := [OBJECT, OBJECT_VERSION, REPLICA, EC_SHARD, TASK, TASK_READY, TASK_WAIT,
                                  TASK_TERMINAL, HEARTBEAT, LEADER, LEADER_LOCK, TIER_DUE, TIER_REF]

  function TaskKey(id: string): string { TASK + id }

  /** The part of a ready key below its priority and time columns. */
  function TypedId(taskType: string, id: string): string { taskType + "/" + id }

  function ReadyKey(taskType: string, priority: int, scheduledAt: int, id: string): string {
    TASK_READY + (EncodePriorityDesc(priority) + "/" + (EncodeInt64(scheduledAt) + "/" + TypedId(taskType, id)))
  }

  function WaitKey(taskType: string, scheduledAt: int, id: string): string {
    TASK_WAIT + (EncodeInt64(scheduledAt) + "/" + TypedId(taskType, id))
  }

  function TerminalKey(finishedAt: int, id: string): string {
    TASK_TERMINAL + (EncodeInt64(finishedAt) + "/" + id)
  }

  function DueKey(eligibleAt: int, rev: Rev): string {
    TIER_DUE + (EncodeInt64(eligibleAt) + "/" + (rev.id + "/" + EncodeInt64(rev.version)))
  }

  /** Prefix of every row of an object in a per-object family, and of one of its versions. */
  function ObjectPrefix(family: string, id: string): string { family + (id + "/") }
  function VersionPrefix(family: string, rev: Rev): string {
    family + (rev.id + "/" + (EncodeInt64(rev.version) + "/"))
  }

  function RowKey(family: string, rev: Rev, last: string): string {
    family + (rev.id + "/" + (EncodeInt64(rev.version) + "/" + last))
  }

  // ---- parsers ----

  datatype IndexEntry = IndexEntry(at: int, taskType: string, id: string)

  function ParseReady(key: string): Option<IndexEntry> {
    if !HasPrefix(key, TASK_READY) then None else
    var parts := Split(key[|TASK_READY|..]);
    if |parts| < 4 || ParseInt(parts[1]).None? || Join(parts[3..]) == "" then None
    else Some(IndexEntry(ParseInt(parts[1]).value, parts[2], Join(parts[3..])))
  }

  function ParseWait(key: string): Option<IndexEntry> {
    if !HasPrefix(key, TASK_WAIT) then None else
    var parts := Split(key[|TASK_WAIT|..]);
    if |parts| < 3 || ParseInt(parts[0]).None? || Join(parts[2..]) == "" then None
    else Some(IndexEntry(ParseInt(parts[0]).value, parts[1], Join(parts[2..])))
  }

  function ParseTerminal(key: string): Option<IndexEntry> {
    if !HasPrefix(key, TASK_TERMINAL) then None else
    var parts := Split(key[|TASK_TERMINAL|..]);
    if |parts| < 2 || ParseInt(parts[0]).None? || Join(parts[1..]) == "" then None
    else Some(IndexEntry(ParseInt(parts[0]).value, "", Join(parts[1..])))
  }

  function ParseDue(key: string): Option<(int, Rev)> {
    if !HasPrefix(key, TIER_DUE) then None else
    var parts := Split(key[|TIER_DUE|..]);
    if |parts| != 3 || ParseInt(parts[0]).None? || ParseInt(parts[2]).None? then None
    else Some((ParseInt(parts[0]).value, Rev(parts[1], ParseInt(parts[2]).value)))
  }

  // ---- the parsers invert the builders ----

  lemma Tail(prefix: string, rest: string)
    ensures HasPrefix(prefix + rest, prefix) && (prefix + rest)[|prefix|..] == rest
  {
  }

  lemma SplitTypedId(taskType: string, id: string)
    requires SlashFree(taskType)
    ensures Split(TypedId(taskType, id)) == [taskType] + Split(id)
  {
    SplitCut(taskType, id);
  }

  /** The components a time, type and id are cut into. */
  lemma SplitTimed(at: int, taskType: string, id: string)
    requires SlashFree(taskType)
    ensures Split(EncodeInt64(at) + "/" + TypedId(taskType, id)) == [EncodeInt64(at)] + ([taskType] + Split(id))
  {
    EncodedSlashFree(at);
    SplitCut(EncodeInt64(at), TypedId(taskType, id));
    SplitTypedId(taskType, id);
  }

  lemma ParseReadyInverts(taskType: string, priority: int, at: int, id: string)
    requires SlashFree(taskType) && id != "" && IsInt64(at)
    ensures ParseReady(ReadyKey(taskType, priority, at, id)) == Some(IndexEntry(at, taskType, id))
  {
    var p, rest := EncodePriorityDesc(priority), EncodeInt64(at) + "/" + TypedId(taskType, id);
    PrioritySlashFree(priority);
    Tail(TASK_READY, p + "/" + rest);
    SplitCut(p, rest);
    SplitTimed(at, taskType, id);
    var parts := [p] + ([EncodeInt64(at)] + ([taskType] + Split(id)));
    assert Split(p + "/" + rest) == parts;
    assert parts[3..] == Split(id);
    JoinSplit(id);
    ParseIntInverts(at);
  }

  lemma ParseWaitInverts(taskType: string, at: int, id: string)
    requires SlashFree(taskType) && id != "" && IsInt64(at)
    ensures ParseWait(WaitKey(taskType, at, id)) == Some(IndexEntry(at, taskType, id))
  {
    Tail(TASK_WAIT, EncodeInt64(at) + "/" + TypedId(taskType, id));
    SplitTimed(at, taskType, id);
    assert ([EncodeInt64(at)] + ([taskType] + Split(id)))[2..] == Split(id);
    JoinSplit(id);
    ParseIntInverts(at);
  }

  lemma ParseTerminalInverts(at: int, id: string)
    requires id != "" && IsInt64(at)
    ensures ParseTerminal(TerminalKey(at, id)) == Some(IndexEntry(at, "", id))
  {
    EncodedSlashFree(at); ParseIntInverts(at);
    Tail(TASK_TERMINAL, EncodeInt64(at) + "/" + id);
    SplitCut(EncodeInt64(at), id);
    JoinSplit(id);
    assert ([EncodeInt64(at)] + Split(id))[1..] == Split(id);
  }

  lemma {:induction false} SplitWhole(s: string)
    requires SlashFree(s)
    ensures Split(s) == [s]
  {
    if |s| > 0 {
      assert SlashFree(s[1..]);
      SplitWhole(s[1..]);
      assert [s[0]] + s[1..] == s;
    }
  }

  lemma ParseDueInverts(eligibleAt: int, rev: Rev)
    requires SlashFree(rev.id) && IsInt64(eligibleAt) && IsInt64(rev.version)
    ensures ParseDue(DueKey(eligibleAt, rev)) == Some((eligibleAt, rev))
  {
    EncodedSlashFree(eligibleAt); ParseIntInverts(eligibleAt);
    EncodedSlashFree(rev.version); ParseIntInverts(rev.version);
    var rest := rev.id + "/" + EncodeInt64(rev.version);
    Tail(TIER_DUE, EncodeInt64(eligibleAt) + "/" + rest);
    SplitCut(EncodeInt64(eligibleAt), rest);
    SplitCut(rev.id, EncodeInt64(rev.version));
    SplitWhole(EncodeInt64(rev.version));
  }

  // ---- families and prefixes ----

  /** No family prefix is a prefix of another, so a key belongs to at most one family. */
  lemma FamiliesPrefixFree(i: nat, j: nat, key: string)
    requires i < |Families| && j < |Families| && i != j
    requires HasPrefix(key, Families[i])
    ensures !HasPrefix(key, Families[j])
  {
    var a, b := Families[i], Families[j];
    assert |a| >= 3 && |b| >= 3;
    var n := if a[0] != b[0] then 0 else if a[1] != b[1] then 1 else if a[2] != b[2] then 2
             else if a[3] != b[3] then 3 else if a[4] != b[4] then 4 else if a[5] != b[5] then 5 else 6;
    assert a[n] != b[n] && key[n] == a[n];
  }

  /** A component boundary decides: with slash-free ids, a prefix ending in "id/" matches only id. */
  lemma ComponentMatch(a: string, b: string, s: string, t: string)
    requires SlashFree(a) && SlashFree(b)
    ensures HasPrefix(a + "/" + s, b + "/" + t) <==> a == b && HasPrefix(s, t)
  {
    var x, y := a + "/" + s, b + "/" + t;
    assert x[..|a|] == a && x[|a|] == '/' && x[|a| + 1..] == s;
    assert y[..|b|] == b && y[|b|] == '/' && y[|b| + 1..] == t;
    assert forall i :: 0 <= i < |a| ==> x[i] != '/' by { assert forall i :: 0 <= i < |a| ==> x[i] == a[i]; }
    assert forall i :: 0 <= i < |b| ==> y[i] != '/' by { assert forall i :: 0 <= i < |b| ==> y[i] == b[i]; }
    if HasPrefix(x, y) {
      assert |a| == |b| by { assert x[|b|] == '/'; assert forall i :: 0 <= i < |y| ==> x[i] == y[i]; }
      assert HasPrefix(s, t) by {
        assert forall i :: 0 <= i < |t| ==> t[i] == y[|b| + 1 + i] == x[|a| + 1 + i] == s[i];
      }
    }
    if a == b && HasPrefix(s, t) {
      assert forall i :: 0 <= i < |y| ==> y[i] == x[i];
    }
  }

  lemma UnderFamily(family: string, s: string, t: string)
    ensures HasPrefix(family + s, family + t) <==> HasPrefix(s, t)
  {
    var x, y := family + s, family + t;
    assert x[|family|..] == s && y[|family|..] == t;
    if HasPrefix(x, y) {
      assert forall i :: 0 <= i < |t| ==> t[i] == y[|family| + i] == x[|family| + i] == s[i];
    }
    if HasPrefix(s, t) {
      assert forall i :: 0 <= i < |y| ==> y[i] == x[i];
    }
  }

  /** A per-object prefix matches only that object's rows, a per-version prefix only that version's. */
  lemma PrefixesExact(family: string, rev: Rev, last: string, other: Rev)
    requires SlashFree(rev.id) && SlashFree(other.id) && IsInt64(rev.version) && IsInt64(other.version)
    ensures HasPrefix(RowKey(family, rev, last), ObjectPrefix(family, other.id)) <==> rev.id == other.id
    ensures HasPrefix(RowKey(family, rev, last), VersionPrefix(family, other)) <==> rev == other
  {
    var v, u := EncodeInt64(rev.version), EncodeInt64(other.version);
    EncodedSlashFree(rev.version); EncodedSlashFree(other.version);
    UnderFamily(family, rev.id + "/" + (v + "/" + last), other.id + "/" + (u + "/"));
    UnderFamily(family, rev.id + "/" + (v + "/" + last), other.id + "/");
    ComponentMatch(rev.id, other.id, v + "/" + last, u + "/");
    ComponentMatch(rev.id, other.id, v + "/" + last, "");
    assert other.id + "/" + "" == other.id + "/";
    assert u + "/" + "" == u + "/";
    ComponentMatch(v, u, last, "");
    Int64Order(rev.version, other.version);
  }

  // ---- order of the schedule ----

  /** Byte order of ready keys: clamped priority descending, then time, then type and id. */
  lemma ReadyOrder(t1: string, p1: int, at1: int, id1: string, t2: string, p2: int, at2: int, id2: string)
    requires 0 <= at1 <= MAX_INT64 && 0 <= at2 <= MAX_INT64
    ensures Less(ReadyKey(t1, p1, at1, id1), ReadyKey(t2, p2, at2, id2)) <==>
              || ClampPriority(p1) > ClampPriority(p2)
              || (ClampPriority(p1) == ClampPriority(p2) &&
                  (at1 < at2 || (at1 == at2 && Less(TypedId(t1, id1), TypedId(t2, id2)))))
  {
    var r1, r2 := TypedId(t1, id1), TypedId(t2, id2);
    var s1, s2 := EncodeInt64(at1) + "/" + r1, EncodeInt64(at2) + "/" + r2;
    PriorityOrder(p1, p2); Int64Order(at1, at2);
    LessSamePrefix(TASK_READY, EncodePriorityDesc(p1) + "/" + s1, EncodePriorityDesc(p2) + "/" + s2);
    ColumnOrder(EncodePriorityDesc(p1), EncodePriorityDesc(p2), s1, s2);
    ColumnOrder(EncodeInt64(at1), EncodeInt64(at2), r1, r2);
  }

  lemma ColumnOrder(a: string, b: string, s: string, t: string)
    requires |a| == |b|
    ensures Less(a + "/" + s, b + "/" + t) <==> Less(a, b) || (a == b && Less(s, t))
  {
    assert a + "/" + s == a + ("/" + s) && b + "/" + t == b + ("/" + t);
    LessAppend(a, b, "/" + s, "/" + t);
    LessSamePrefix("/", s, t);
  }

  /** Byte order of wait keys: time, then type and id. */
  lemma WaitOrder(t1: string, at1: int, id1: string, t2: string, at2: int, id2: string)
    requires 0 <= at1 <= MAX_INT64 && 0 <= at2 <= MAX_INT64
    ensures Less(WaitKey(t1, at1, id1), WaitKey(t2, at2, id2)) <==>
              at1 < at2 || (at1 == at2 && Less(TypedId(t1, id1), TypedId(t2, id2)))
  {
    Int64Order(at1, at2);
    LessSamePrefix(TASK_WAIT, EncodeInt64(at1) + "/" + TypedId(t1, id1), EncodeInt64(at2) + "/" + TypedId(t2, id2));
    ColumnOrder(EncodeInt64(at1), EncodeInt64(at2), TypedId(t1, id1), TypedId(t2, id2));
  }

  lemma TerminalOrder(at1: int, id1: string, at2: int, id2: string)
    requires 0 <= at1 <= MAX_INT64 && 0 <= at2 <= MAX_INT64
    ensures Less(TerminalKey(at1, id1), TerminalKey(at2, id2)) <==> at1 < at2 || (at1 == at2 && Less(id1, id2))
  {
    Int64Order(at1, at2);
    LessSamePrefix(TASK_TERMINAL, EncodeInt64(at1) + "/" + id1, EncodeInt64(at2) + "/" + id2);
    ColumnOrder(EncodeInt64(at1), EncodeInt64(at2), id1, id2);
  }

  /** Byte order of due keys: time, then object and version. */
  lemma DueOrder(at1: int, rev1: Rev, at2: int, rev2: Rev)
    requires 0 <= at1 <= MAX_INT64 && 0 <= at2 <= MAX_INT64
    ensures Less(DueKey(at1, rev1), DueKey(at2, rev2)) <==>
              || at1 < at2
              || (at1 == at2 &&
                  Less(rev1.id + "/" + EncodeInt64(rev1.version), rev2.id + "/" + EncodeInt64(rev2.version)))
  {
    var s, t := rev1.id + "/" + EncodeInt64(rev1.version), rev2.id + "/" + EncodeInt64(rev2.version);
    Int64Order(at1, at2);
    LessSamePrefix(TIER_DUE, EncodeInt64(at1) + "/" + s, EncodeInt64(at2) + "/" + t);
    ColumnOrder(EncodeInt64(at1), EncodeInt64(at2), s, t);
  }
}
