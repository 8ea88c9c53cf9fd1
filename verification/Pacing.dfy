/** The bandwidth throttle of migration and repair IO. */
module Throttle {
  const NANOS := 1000000000

  /** A call's start: when its IO may begin, its bytes, and the time it occupies. */
  datatype Grant = Grant(start: int, bytes: int, delay: int)

  /** Nanoseconds that `bytes` take at the rate, rounded down. */
  function Delay(bytes: int, rate: int): (d: int)
    requires bytes > 0 && rate > 0
    ensures 0 <= d && d * rate <= bytes * NANOS < (d + 1) * rate
  {
    bytes * NANOS / rate
  }

  /** The next free start, and every call so far in order. */
  datatype Pace = Pace(next: int, log: seq<Grant>)

  /** One call: it starts at the next free time and moves it on, unless its delay rounds to
      nothing, when it starts at once and leaves the pace alone. */
  function Admit(rate: int, p: Pace, bytes: int, now: int): Pace
    requires rate > 0 && bytes > 0
  {
    var d := Delay(bytes, rate);
    if d == 0 then p.(log := p.log + [Grant(now, bytes, 0)])
    else
      var start := if p.next < now then now else p.next;
      Pace(start + d, p.log + [Grant(start, bytes, d)])
  }

  datatype Call = Call(bytes: int, now: int)

  ghost predicate Positive(calls: seq<Call>) { forall i :: 0 <= i < |calls| ==> calls[i].bytes > 0 }

  ghost function Run(rate: int, next: int, calls: seq<Call>): Pace
    requires rate > 0 && Positive(calls)
  {
    if |calls| == 0 then Pace(next, [])
    else
      var last := calls[|calls| - 1];
      Admit(rate, Run(rate, next, calls[..|calls| - 1]), last.bytes, last.now)
  }

  // ---- gaps ----

  predicate Paced(g: Grant) { g.delay > 0 }

  ghost function Delays(log: seq<Grant>, i: nat, j: nat): int
    requires i <= j <= |log|
    decreases j
  {
    if i == j then 0 else Delays(log, i, j - 1) + log[j - 1].delay
  }

  lemma {:induction false} DelaysPrefix(log: seq<Grant>, g: Grant, i: nat, j: nat)
    requires i <= j <= |log|
    ensures Delays(log + [g], i, j) == Delays(log, i, j)
    decreases j
  {
    if i < j { DelaysPrefix(log, g, i, j - 1); }
  }

  ghost predicate GrantOk(g: Grant, rate: int) { g.bytes > 0 && rate > 0 && g.delay == Delay(g.bytes, rate) }

  /** From a paced call to any later paced call at least the delays in between pass. */
  ghost predicate Gap(log: seq<Grant>, i: nat, j: nat)
    requires i <= j < |log|
  {
    Paced(log[i]) && Paced(log[j]) ==> log[j].start - log[i].start >= Delays(log, i, j)
  }

  ghost predicate Ends(p: Pace, i: nat)
    requires i < |p.log|
  {
    Paced(p.log[i]) ==> p.log[i].start + Delays(p.log, i, |p.log|) <= p.next
  }

  ghost predicate Valid(rate: int, p: Pace) {
    && (forall k :: 0 <= k < |p.log| ==> GrantOk(p.log[k], rate) && Ends(p, k))
    && (forall i, j :: 0 <= i <= j < |p.log| ==> Gap(p.log, i, j))
  }

  lemma AdmitKeeps(rate: int, p: Pace, bytes: int, now: int)
    requires rate > 0 && bytes > 0 && Valid(rate, p)
    ensures Valid(rate, Admit(rate, p, bytes, now))
  {
    var q := Admit(rate, p, bytes, now);
    var n := |p.log|;
    var g := q.log[n];
    assert q.log == p.log + [g];
    forall k | 0 <= k < n + 1 ensures GrantOk(q.log[k], rate) && Ends(q, k) {
      if k < n { assert GrantOk(p.log[k], rate) && Ends(p, k); DelaysPrefix(p.log, g, k, n); }
    }
    forall i, j | 0 <= i <= j < n + 1 ensures Gap(q.log, i, j) {
      if i < n { DelaysPrefix(p.log, g, i, j); assert Ends(p, i); }
      if j < n { assert Gap(p.log, i, j); }
    }
  }

  lemma {:induction false} RunValid(rate: int, next: int, calls: seq<Call>)
    requires rate > 0 && Positive(calls)
    ensures Valid(rate, Run(rate, next, calls)) && |Run(rate, next, calls).log| == |calls|
  {
    if |calls| > 0 {
      var before, last := calls[..|calls| - 1], calls[|calls| - 1];
      RunValid(rate, next, before);
      AdmitKeeps(rate, Run(rate, next, before), last.bytes, last.now);
    }
  }

  /** Over every sequence of calls, the gap between two paced starts is at least the delays of the
      calls from the first up to the second. */
  lemma GapCoversDelays(rate: int, next: int, calls: seq<Call>, i: nat, j: nat)
    requires rate > 0 && Positive(calls) && i <= j < |calls|
    ensures |Run(rate, next, calls).log| == |calls| && Gap(Run(rate, next, calls).log, i, j)
  {
    RunValid(rate, next, calls);
  }

  /** The time is the first free start, or the end of a paced call. */
  ghost predicate EndOfSome(log: seq<Grant>, next: int, time: int) {
    time == next || exists k :: 0 <= k < |log| && Paced(log[k]) && time == log[k].start + log[k].delay
  }

  /** The call is logged with its own bytes and delay; unpaced it starts at once, and paced it
      starts at once or as soon as an earlier paced call ends, never later. */
  ghost predicate Prompt(rate: int, next: int, log: seq<Grant>, i: nat, call: Call) {
    && i < |log| && call.bytes > 0 && rate > 0
    && log[i].bytes == call.bytes && log[i].delay == Delay(call.bytes, rate)
    && (if Paced(log[i]) then
          log[i].start >= call.now && (log[i].start == call.now || EndOfSome(log[..i], next, log[i].start))
        else
          log[i].start == call.now)
  }

  lemma {:induction false} StartsPromptly(rate: int, next: int, calls: seq<Call>)
    requires rate > 0 && Positive(calls)
    ensures var p := Run(rate, next, calls);
            && |p.log| == |calls| && EndOfSome(p.log, next, p.next)
            && forall i :: 0 <= i < |calls| ==> Prompt(rate, next, p.log, i, calls[i])
  {
    if |calls| > 0 {
      var n := |calls| - 1;
      var before, last := calls[..n], calls[n];
      StartsPromptly(rate, next, before);
      var p, q := Run(rate, next, before), Run(rate, next, calls);
      assert q.log[..n] == p.log;
      forall i | 0 <= i < n ensures Prompt(rate, next, q.log, i, calls[i]) {
        assert Prompt(rate, next, p.log, i, before[i]);
        assert q.log[..i] == p.log[..i];
      }
      EndStays(p.log, q.log[n], next, p.next);
      if Paced(q.log[n]) { assert q.next == q.log[n].start + q.log[n].delay; }
    }
  }

  lemma EndStays(log: seq<Grant>, g: Grant, next: int, time: int)
    requires EndOfSome(log, next, time)
    ensures EndOfSome(log + [g], next, time)
  {
    if time != next {
      var k :| 0 <= k < |log| && Paced(log[k]) && time == log[k].start + log[k].delay;
      assert (log + [g])[k] == log[k];
    }
  }

  /** The last call starts no earlier than the delays since each paced call before it allow. */
  ghost predicate LastKeepsGap(log: seq<Grant>) {
    forall i :: 0 <= i < |log| - 1 && Paced(log[i]) ==> log[|log| - 1].start - log[i].start >= Delays(log, i, |log| - 1)
  }

  /** A request size keeps the gap to earlier paced calls, whenever it comes, exactly when its
      delay does not round to nothing. */
  lemma GapKeptExactly(rate: int, bytes: int)
    requires rate > 0 && bytes > 0
    ensures (forall p, now :: Valid(rate, p) ==> LastKeepsGap(Admit(rate, p, bytes, now).log)) <==>
              Delay(bytes, rate) > 0
  {
    if Delay(bytes, rate) > 0 {
      forall p, now | Valid(rate, p) ensures LastKeepsGap(Admit(rate, p, bytes, now).log) {
        AdmitKeeps(rate, p, bytes, now);
        var log := Admit(rate, p, bytes, now).log;
        forall i | 0 <= i < |log| - 1 && Paced(log[i])
          ensures log[|log| - 1].start - log[i].start >= Delays(log, i, |log| - 1)
        {
          assert Gap(log, i, |log| - 1);
        }
      }
    } else {
      var p := Admit(rate, Pace(0, []), rate, 0);
      SecondsDelay(rate);
      AdmitKeeps(rate, Pace(0, []), rate, 0);
      var log := Admit(rate, p, bytes, 0).log;
      assert log == [Grant(0, rate, NANOS), Grant(0, bytes, 0)];
      assert Delays(log, 0, 1) == NANOS;
      assert !LastKeepsGap(log);
    }
  }

  lemma SecondsDelay(rate: int)
    requires rate > 0
    ensures Delay(rate, rate) == NANOS
  {
    var d := Delay(rate, rate);
    if d < NANOS { Monotone(d + 1, NANOS, rate); }
    if d > NANOS { Monotone(NANOS + 1, d, rate); Distribute(NANOS, 1, rate); }
  }

  /** While a call holds the pace for a second, a call of one byte starts at once. */
  lemma TinyCallJumpsAhead()
    ensures Delay(1, 2 * NANOS) == 0
    ensures var log := Run(2 * NANOS, 0, [Call(2 * NANOS, 0), Call(1, 0)]).log;
            log == [Grant(0, 2 * NANOS, NANOS), Grant(0, 1, 0)] && !LastKeepsGap(log)
  {
    var rate := 2 * NANOS;
    var calls := [Call(rate, 0), Call(1, 0)];
    SecondsDelay(rate);
    assert calls[..1] == [calls[0]] && calls[..1][..0] == [];
    assert Run(rate, 0, [calls[0]]) == Pace(NANOS, [Grant(0, rate, NANOS)]);
    var log := Run(rate, 0, calls).log;
    assert Delays(log, 0, 1) == NANOS;
  }

  // ---- bytes in a window ----

  predicate InWindow(g: Grant, from: int, window: nat) { from <= g.start <= from + window }

  /** Bytes, and number, of the first n calls that start in the window. */
  ghost function BytesIn(log: seq<Grant>, n: nat, from: int, window: nat): int
    requires n <= |log|
  {
    if n == 0 then 0
    else BytesIn(log, n - 1, from, window) + if InWindow(log[n - 1], from, window) then log[n - 1].bytes else 0
  }

  ghost function CallsIn(log: seq<Grant>, n: nat, from: int, window: nat): nat
    requires n <= |log|
  {
    if n == 0 then 0 else CallsIn(log, n - 1, from, window) + if InWindow(log[n - 1], from, window) then 1 else 0
  }

  /** The last paced one of them. */
  ghost function LastIn(log: seq<Grant>, n: nat, from: int, window: nat): (k: int)
    requires n <= |log|
    ensures -1 <= k < n && (k >= 0 ==> Paced(log[k]) && InWindow(log[k], from, window))
  {
    if n == 0 then -1
    else if Paced(log[n - 1]) && InWindow(log[n - 1], from, window) then n - 1
    else LastIn(log, n - 1, from, window)
  }

  ghost function LastBytes(log: seq<Grant>, n: nat, from: int, window: nat): int
    requires n <= |log|
  {
    var k := LastIn(log, n, from, window);
    if k < 0 then 0 else log[k].bytes
  }

  /** How far into the window the last paced one starts. */
  ghost function Reach(log: seq<Grant>, n: nat, from: int, window: nat): int
    requires n <= |log|
  {
    var k := LastIn(log, n, from, window);
    if k < 0 then 0 else log[k].start - from
  }

  lemma Distribute(a: int, b: int, c: int)
    ensures (a + b) * c == a * c + b * c
  {
  }

  lemma Monotone(a: int, b: int, c: int)
    requires a <= b && c > 0
    ensures a * c <= b * c
  {
  }

  lemma {:induction false} DelaysAtLeast(rate: int, log: seq<Grant>, i: nat, j: nat)
    requires i < j <= |log| && forall k :: 0 <= k < |log| ==> GrantOk(log[k], rate)
    ensures Delays(log, i, j) >= log[i].delay
    decreases j
  {
    assert GrantOk(log[j - 1], rate);
    if i < j - 1 { DelaysAtLeast(rate, log, i, j - 1); }
  }

  /** A paced call in the window pays for the bytes of the paced one before it. */
  lemma PacedStep(rate: int, p: Pace, n: nat, from: int, window: nat)
    requires rate > 0 && Valid(rate, p) && n < |p.log| && Paced(p.log[n]) && InWindow(p.log[n], from, window)
    ensures LastBytes(p.log, n, from, window) * NANOS + Reach(p.log, n, from, window) * rate <=
              (p.log[n].start - from + 1) * rate
  {
    var log, k := p.log, LastIn(p.log, n, from, window);
    if k < 0 {
      Monotone(0, log[n].start - from + 1, rate);
    } else {
      assert GrantOk(log[k], rate) && Gap(log, k, n);
      DelaysAtLeast(rate, log, k, n);
      Distribute(log[k].delay + 1, log[k].start - from, rate);
      Monotone(log[k].delay + 1 + (log[k].start - from), log[n].start - from + 1, rate);
    }
  }

  lemma {:induction false} WindowStep(rate: int, p: Pace, n: nat, from: int, window: nat)
    requires rate > 0 && Valid(rate, p) && n <= |p.log|
    ensures var log := p.log;
            (BytesIn(log, n, from, window) - LastBytes(log, n, from, window)) * NANOS <=
            (Reach(log, n, from, window) + CallsIn(log, n, from, window)) * rate
  {
    if n > 0 {
      var log, m := p.log, n - 1;
      WindowStep(rate, p, m, from, window);
      if InWindow(log[m], from, window) {
        assert GrantOk(log[m], rate);
        var reach, calls := Reach(log, m, from, window), CallsIn(log, m, from, window);
        Distribute(reach, calls, rate);
        if Paced(log[m]) {
          PacedStep(rate, p, m, from, window);
          Distribute(log[m].start - from, calls + 1, rate);
          Distribute(log[m].start - from, 1, rate);
          Distribute(calls, 1, rate);
        } else {
          Distribute(reach + calls, 1, rate);
        }
      }
    }
  }

  /** Over every sequence of calls, the bytes that start in any window, paced or not, are at most
      the rate times the window, plus the last paced request, plus one nanosecond's worth for the
      rounding of each call. */
  lemma WindowBytes(rate: int, next: int, calls: seq<Call>, from: int, window: nat)
    requires rate > 0 && Positive(calls)
    ensures var log := Run(rate, next, calls).log;
            BytesIn(log, |log|, from, window) * NANOS <=
            (window + CallsIn(log, |log|, from, window)) * rate + LastBytes(log, |log|, from, window) * NANOS
  {
    var p := Run(rate, next, calls);
    var log, n := p.log, |p.log|;
    RunValid(rate, next, calls);
    WindowStep(rate, p, n, from, window);
    Monotone(Reach(log, n, from, window) + CallsIn(log, n, from, window), window + CallsIn(log, n, from, window), rate);
  }

  class Pacer {
    const rate: int
    var nextIoAt: int
    ghost var log: seq<Grant>

    constructor (rate: int, nextIoAt: int)
      ensures this.rate == rate && this.nextIoAt == nextIoAt && log == []
    {
      this.rate := rate;
      this.nextIoAt := nextIoAt;
      log := [];
    }

    /** Wait before IO of `bytes`.  With a rate and something to send the call joins the log, and
        starts once its wait is over. */
    method Throttle(bytes: int, now: int) returns (wait: int)
      modifies this
      ensures wait >= 0
      ensures rate > 0 && bytes > 0 ==>
                && Pace(nextIoAt, log) == Admit(rate, Pace(old(nextIoAt), old(log)), bytes, now)
                && log[|log| - 1].start == now + wait
      ensures rate > 0 && bytes > 0 && Delay(bytes, rate) > 0 ==>
                && wait == (if old(nextIoAt) > now then old(nextIoAt) - now else 0)
                && nextIoAt == now + wait + Delay(bytes, rate)
                && log == old(log) + [Grant(now + wait, bytes, Delay(bytes, rate))]
      ensures rate > 0 && bytes > 0 && Delay(bytes, rate) == 0 ==>
                wait == 0 && nextIoAt == old(nextIoAt) && log == old(log) + [Grant(now, bytes, 0)]
      ensures rate <= 0 || bytes <= 0 ==> wait == 0 && log == old(log) && nextIoAt == old(nextIoAt)
    {
      wait := 0;
      if rate <= 0 || bytes <= 0 { return; }
      var delay := Delay(bytes, rate);
      if delay <= 0 {
        log := log + [Grant(now, bytes, 0)];
        return;
      }
      var waitUntil := nextIoAt;
      if waitUntil < now { waitUntil := now; }
      nextIoAt := waitUntil + delay;
      log := log + [Grant(waitUntil, bytes, delay)];
      wait := waitUntil - now;
    }
  }
}

/** The admission gate of scanning strategy C: an idle window held for some rounds, and a cooldown. */
module IdleGate {
  import opened MetaTypes

  datatype Config = Config(stableRounds: int, cooldown: int, cpuPercent: real, queueDepth: int, ioWaitPercent: real,
                           memoryPercent: real,
                           minNodes: int, minRatio: real, staleAfter: int)

  datatype Heartbeat = Heartbeat(up: bool, lastSeen: int, cpu: real, queueDepth: int, ioWait: real, memory: real)

  predicate Live(config: Config, n: Heartbeat, now: int) {
    n.up && (config.staleAfter <= 0 || now - n.lastSeen <= config.staleAfter)
  }

  predicate Idle(config: Config, n: Heartbeat) {
    && (config.cpuPercent <= 0.0 || n.cpu * 100.0 < config.cpuPercent)
    && (config.queueDepth <= 0 || n.queueDepth < config.queueDepth)
    && (config.ioWaitPercent <= 0.0 || n.ioWait < config.ioWaitPercent)
    && (config.memoryPercent <= 0.0 || n.memory < config.memoryPercent)
  }

  /** A node is busy exactly when it reaches a threshold that is set, and dead exactly when it is
      down or has not been heard of for too long. */
  lemma BusyAndDead(config: Config, n: Heartbeat, now: int)
    ensures !Idle(config, n) <==>
              || (config.cpuPercent > 0.0 && n.cpu * 100.0 >= config.cpuPercent)
              || (config.queueDepth > 0 && n.queueDepth >= config.queueDepth)
              || (config.ioWaitPercent > 0.0 && n.ioWait >= config.ioWaitPercent)
              || (config.memoryPercent > 0.0 && n.memory >= config.memoryPercent)
    ensures !Live(config, n, now) <==> !n.up || (config.staleAfter > 0 && now - n.lastSeen > config.staleAfter)
  {
  }

  ghost function Indexes(config: Config, nodes: seq<Heartbeat>, now: int, idle: bool): set<nat> {
    set i: nat | i < |nodes| && Live(config, nodes[i], now) && (idle ==> Idle(config, nodes[i]))
  }

  /** Whether the fleet is idle: some node is live, and enough of the live ones are idle by count and by ratio. */
  method IsIdleWindow(config: Config, nodes: seq<Heartbeat>, now: int) returns (idle: bool)
    ensures var live, calm := |Indexes(config, nodes, now, false)|, |Indexes(config, nodes, now, true)|;
            idle <==> live > 0 && calm >= config.minNodes && calm as real >= config.minRatio * live as real
  {
    var liveCount, idleCount := 0, 0;
    for i := 0 to |nodes|
      invariant liveCount == |Indexes(config, nodes[..i], now, false)|
      invariant idleCount == |Indexes(config, nodes[..i], now, true)|
    {
      IndexesStep(config, nodes, now, i, false);
      IndexesStep(config, nodes, now, i, true);
      var n := nodes[i];
      if !n.up { continue; }
      if config.staleAfter > 0 && now - n.lastSeen > config.staleAfter { continue; }
      liveCount := liveCount + 1;
      var calm := true;
      if config.cpuPercent > 0.0 && n.cpu * 100.0 >= config.cpuPercent { calm := false; }
      if config.queueDepth > 0 && n.queueDepth >= config.queueDepth { calm := false; }
      if config.ioWaitPercent > 0.0 && n.ioWait >= config.ioWaitPercent { calm := false; }
      if config.memoryPercent > 0.0 && n.memory >= config.memoryPercent { calm := false; }
      if calm { idleCount := idleCount + 1; }
    }
    assert nodes[..|nodes|] == nodes;
    if liveCount == 0 { return false; }
    if idleCount < config.minNodes { return false; }
    RatioTimes(idleCount, liveCount, config.minRatio);
    return idleCount as real / liveCount as real >= config.minRatio;
  }

  lemma RatioTimes(a: nat, b: nat, r: real)
    requires b > 0
    ensures a as real / b as real >= r <==> a as real >= r * b as real
  {
    var q := a as real / b as real;
    assert q * b as real == a as real;
  }

  lemma IndexesStep(config: Config, nodes: seq<Heartbeat>, now: int, i: nat, idle: bool)
    requires i < |nodes|
    ensures |Indexes(config, nodes[..i + 1], now, idle)| ==
            |Indexes(config, nodes[..i], now, idle)| +
            if Live(config, nodes[i], now) && (idle ==> Idle(config, nodes[i])) then 1 else 0
  {
    var a, b := Indexes(config, nodes[..i], now, idle), Indexes(config, nodes[..i + 1], now, idle);
    assert b == if Live(config, nodes[i], now) && (idle ==> Idle(config, nodes[i])) then a + {i} else a;
  }

  // ---- the gate ----

  datatype Check = Calm | Busy | Error

  /** A tick of either loop: what the heartbeat check said, when, and whether tiering was admitted. */
  datatype Tick = Tick(check: Check, now: int, admitted: bool)

  /** Successful checks at the end of the log that were calm, errors passed over. */
  function CalmRun(log: seq<Tick>): nat {
    if |log| == 0 then 0
    else
      match log[|log| - 1].check
      case Calm => CalmRun(log[..|log| - 1]) + 1
      case Busy => 0
      case Error => CalmRun(log[..|log| - 1])
  }

  function LastAdmitted(log: seq<Tick>): Option<int> {
    if |log| == 0 then None
    else if log[|log| - 1].admitted then Some(log[|log| - 1].now)
    else LastAdmitted(log[..|log| - 1])
  }

  /** An admission came at a calm check, after enough calm checks in a row and after the cooldown. */
  ghost predicate Allowed(config: Config, before: seq<Tick>, t: Tick) {
    t.admitted ==>
      && t.check == Calm && CalmRun(before) + 1 >= config.stableRounds
      && (LastAdmitted(before).Some? ==> t.now - LastAdmitted(before).value >= config.cooldown)
  }

  ghost predicate Gated(config: Config, log: seq<Tick>) {
    forall i :: 0 <= i < |log| ==> Allowed(config, log[..i], log[i])
  }

  class Scanner {
    const config: Config
    var idleStableCount: int
    var lastTrigger: Option<int>
    ghost var log: seq<Tick>

    ghost predicate Valid() reads this {
      Gated(config, log) && idleStableCount == CalmRun(log) && lastTrigger == LastAdmitted(log)
    }

    constructor (config: Config)
      ensures Valid() && log == [] && this.config == config
    {
      this.config := config;
      idleStableCount, lastTrigger, log := 0, None, [];
    }

    /** The gate every tick of strategy C passes, periodic or threshold. */
    method StrategyCGatePass(check: Check, now: int) returns (admitted: bool)
      requires Valid()
      modifies this
      ensures Valid() && log == old(log) + [Tick(check, now, admitted)]
      ensures admitted <==> check == Calm && CalmRun(old(log)) + 1 >= config.stableRounds &&
                            (LastAdmitted(old(log)).Some? ==> now - LastAdmitted(old(log)).value >= config.cooldown)
    {
      admitted := false;
      if check == Calm {
        idleStableCount := idleStableCount + 1;
        if idleStableCount >= config.stableRounds && !(lastTrigger.Some? && now - lastTrigger.value < config.cooldown) {
          lastTrigger := Some(now);
          admitted := true;
        }
      } else if check == Busy {
        idleStableCount := 0;
      }
      ghost var t := Tick(check, now, admitted);
      LogStep(config, log, t);
      log := log + [t];
    }
  }

  lemma LogStep(config: Config, log: seq<Tick>, t: Tick)
    requires Gated(config, log) && Allowed(config, log, t)
    ensures Gated(config, log + [t])
    ensures CalmRun(log + [t]) ==
              (match t.check case Calm => CalmRun(log) + 1 case Busy => 0 case Error => CalmRun(log))
    ensures LastAdmitted(log + [t]) == if t.admitted then Some(t.now) else LastAdmitted(log)
  {
    var longer := log + [t];
    assert longer[..|log|] == log;
    forall i | 0 <= i < |longer| ensures Allowed(config, longer[..i], longer[i]) {
      if i < |log| { assert longer[..i] == log[..i]; }
    }
  }

  lemma {:induction false} LastAdmittedAfter(log: seq<Tick>, i: nat)
    requires i < |log| && log[i].admitted && forall a, b :: 0 <= a <= b < |log| ==> log[a].now <= log[b].now
    ensures LastAdmitted(log).Some? && LastAdmitted(log).value >= log[i].now
  {
    if !log[|log| - 1].admitted { LastAdmittedAfter(log[..|log| - 1], i); }
  }

  /** The last admission is the time of the last admitted tick. */
  lemma {:induction false} LastAdmittedExact(log: seq<Tick>)
    ensures LastAdmitted(log).None? <==> forall i :: 0 <= i < |log| ==> !log[i].admitted
    ensures LastAdmitted(log).Some? ==>
              exists i :: 0 <= i < |log| && log[i].admitted && log[i].now == LastAdmitted(log).value &&
                          forall j :: i < j < |log| ==> !log[j].admitted
  {
    if |log| > 0 {
      var n := |log| - 1;
      LastAdmittedExact(log[..n]);
      if log[n].admitted {
        assert log[n].now == LastAdmitted(log).value;
      } else if LastAdmitted(log).Some? {
        var i :| 0 <= i < n && log[..n][i].admitted && log[..n][i].now == LastAdmitted(log).value &&
                 forall j :: i < j < n ==> !log[..n][j].admitted;
        assert forall j :: i < j < n ==> log[..n][j] == log[j];
        assert log[i].admitted && forall j :: i < j < |log| ==> !log[j].admitted;
      } else {
        assert forall i :: 0 <= i < n ==> log[..n][i] == log[i];
      }
    }
  }

  /** Any two admissions are at least the cooldown apart. */
  lemma AdmissionsApart(config: Config, log: seq<Tick>, i: nat, j: nat)
    requires Gated(config, log) && i < j < |log| && log[i].admitted && log[j].admitted
    requires forall a, b :: 0 <= a <= b < |log| ==> log[a].now <= log[b].now
    ensures log[j].now - log[i].now >= config.cooldown
  {
    assert Allowed(config, log[..j], log[j]);
    LastAdmittedAfter(log[..j], i);
  }

  ghost function Successful(log: seq<Tick>): seq<Tick> {
    if |log| == 0 then []
    else Successful(log[..|log| - 1]) + if log[|log| - 1].check == Error then [] else [log[|log| - 1]]
  }

  lemma {:induction false} CalmRunIsTail(log: seq<Tick>)
    ensures var s := Successful(log);
            && CalmRun(log) <= |s| && (forall k :: |s| - CalmRun(log) <= k < |s| ==> s[k].check == Calm)
            && (CalmRun(log) < |s| ==> s[|s| - CalmRun(log) - 1].check != Calm)
  {
    if |log| > 0 { CalmRunIsTail(log[..|log| - 1]); }
  }

  /** The gate is no stricter than that: a calm check after enough calm ones, long enough after
      every admission, is admitted. */
  lemma CalmIsAdmitted(config: Config, log: seq<Tick>, now: int)
    requires var s := Successful(log);
             && config.stableRounds - 1 <= |s|
             && forall k :: 0 <= k && |s| - (config.stableRounds - 1) <= k < |s| ==> s[k].check == Calm
    requires forall i :: 0 <= i < |log| && log[i].admitted ==> now - log[i].now >= config.cooldown
    ensures CalmRun(log) + 1 >= config.stableRounds
    ensures LastAdmitted(log).Some? ==> now - LastAdmitted(log).value >= config.cooldown
  {
    var s := Successful(log);
    CalmRunIsTail(log);
    LastAdmittedExact(log);
  }

  /** At each admission the last stableRounds successful checks, this one included, were calm. */
  lemma AdmissionAfterCalm(config: Config, log: seq<Tick>, j: nat, k: nat)
    requires Gated(config, log) && j < |log| && log[j].admitted
    requires var s := Successful(log[..j + 1]); |s| - config.stableRounds <= k < |s|
    ensures Successful(log[..j + 1])[k].check == Calm
    ensures config.stableRounds <= |Successful(log[..j + 1])|
  {
    assert Allowed(config, log[..j], log[j]);
    assert log[..j + 1][..j] == log[..j];
    CalmRunIsTail(log[..j + 1]);
  }
}
