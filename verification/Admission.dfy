/** Storage-node write admission: byte reservations by compare-and-swap, two bounded queues, IO
    workers, refusal, full queues and cancelled waiters, over every interleaving of atomic steps. */
module Admission {
  import opened MetaTypes
  import opened Int64
  import opened Counting

  datatype Class = Foreground | Background

  datatype Counter = Total | OfClass(class_: Class)

  /** Where a request is.  A `Seen` phase has loaded a counter and not yet swapped it; a `clamp` is
      a store of zero still to be made because a release went below zero. */
  datatype Phase =
    | Arrived
    | TotalSeen(seen: int)
    | HasTotal
    | ClassSeen(seen: int)
    | HasBoth
    | Refused
    | Dropped
    | Queued
    | Working
    | TotalBack(clamp: Option<Counter>)
    | Finished(clamp: Option<Counter>)

  /** A request: its class, its bytes, whether its caller still waits, and how often it took and
      gave back each reservation. */
  datatype Request = Request(
    class_: Class, bytes: nat, phase: Phase, waiting: bool,
    totalTaken: nat, totalGiven: nat, classTaken: nat, classGiven: nat)

  datatype Config = Config(maxTotal: int, maxBackground: int, capacity: nat)

  datatype World = World(
    total: int, foreground: int, background: int, requests: map<nat, Request>,
    foregroundQueue: seq<nat>, backgroundQueue: seq<nat>)

  datatype Action =
    | Arrive(id: nat, class_: Class, size: int)
    | LoadTotal(id: nat) | SwapTotal(id: nat)
    | LoadClass(id: nat) | SwapClass(id: nat)
    | Enqueue(id: nat)
    | Take(class_: Class)
    | GiveTotal(id: nat) | GiveClass(id: nat) | Clamp(id: nat)
    | Cancel(id: nat)

  function Read(w: World, c: Counter): int {
    match c
    case Total => w.total
    case OfClass(Foreground) => w.foreground
    case OfClass(Background) => w.background
  }

  function WithCounter(w: World, c: Counter, v: int): World {
    match c
    case Total => w.(total := v)
    case OfClass(Foreground) => w.(foreground := v)
    case OfClass(Background) => w.(background := v)
  }

  function Limit(config: Config, c: Counter): int {
    match c
    case Total => config.maxTotal
    case OfClass(Foreground) => 0
    case OfClass(Background) => config.maxBackground
  }

  function WithRequest(w: World, id: nat, r: Request): World { w.(requests := w.requests[id := r]) }

  function Queue(w: World, c: Class): seq<nat> { if c == Foreground then w.foregroundQueue else w.backgroundQueue }

  function WithQueue(w: World, c: Class, q: seq<nat>): World {
    if c == Foreground then w.(foregroundQueue := q) else w.(backgroundQueue := q)
  }

  /** A positive limit: refuse if the sum seen is over it, swap if the counter is still as seen,
      else load again.  Otherwise an atomic add. */
  datatype Attempt = Over | Retry | Reserved(next: int)

  function Reserve(config: Config, w: World, c: Counter, seen: int, bytes: nat): Attempt {
    if Limit(config, c) <= 0 then Reserved(Wrap(Read(w, c) + bytes))
    else if Wrap(seen + bytes) > Limit(config, c) then Over
    else if Read(w, c) == seen then Reserved(Wrap(seen + bytes))
    else Retry
  }

  /** The atomic add of a release, and the clamp it leaves to do. */
  function GiveBack(w: World, c: Counter, bytes: nat): (World, Option<Counter>) {
    if bytes == 0 then (w, None)
    else
      var next := Wrap(Read(w, c) - bytes);
      (WithCounter(w, c, next), if next < 0 then Some(c) else None)
  }

  function SwapTotalStep(config: Config, w: World, id: nat, r: Request): World {
    if !r.phase.TotalSeen? then w
    else
      match Reserve(config, w, Total, r.phase.seen, r.bytes)
      case Over => WithRequest(w, id, r.(phase := Finished(None)))
      case Retry => WithRequest(w, id, r.(phase := Arrived))
      case Reserved(next) => WithRequest(w.(total := next), id, r.(phase := HasTotal, totalTaken := r.totalTaken + 1))
  }

  function SwapClassStep(config: Config, w: World, id: nat, r: Request): World {
    if !r.phase.ClassSeen? then w
    else
      match Reserve(config, w, OfClass(r.class_), r.phase.seen, r.bytes)
      case Over => WithRequest(w, id, r.(phase := Refused))
      case Retry => WithRequest(w, id, r.(phase := HasTotal))
      case Reserved(next) => WithRequest(WithCounter(w, OfClass(r.class_), next), id,
                                         r.(phase := HasBoth, classTaken := r.classTaken + 1))
  }

  /** The non-blocking send to the class's queue. */
  function EnqueueStep(config: Config, w: World, id: nat, r: Request): World {
    if !r.phase.HasBoth? then w
    else if |Queue(w, r.class_)| >= config.capacity then WithRequest(w, id, r.(phase := Dropped))
    else WithRequest(WithQueue(w, r.class_, Queue(w, r.class_) + [id]), id, r.(phase := Queued))
  }

  /** A worker receives from a queue; which non-empty queue is not fixed. */
  function TakeStep(w: World, c: Class): World {
    if |Queue(w, c)| == 0 || Queue(w, c)[0] !in w.requests then w
    else
      var id := Queue(w, c)[0];
      WithRequest(WithQueue(w, c, Queue(w, c)[1..]), id, w.requests[id].(phase := Working))
  }

  function GiveTotalStep(w: World, id: nat, r: Request): World {
    if !r.phase.Refused? && !r.phase.Dropped? && !r.phase.Working? then w
    else
      var (w', clamp) := GiveBack(w, Total, r.bytes);
      var phase := if r.phase.Refused? then Finished(clamp) else TotalBack(clamp);
      WithRequest(w', id, r.(totalGiven := r.totalGiven + 1, phase := phase))
  }

  function GiveClassStep(w: World, id: nat, r: Request): World {
    if r.phase != TotalBack(None) then w
    else
      var (w', clamp) := GiveBack(w, OfClass(r.class_), r.bytes);
      WithRequest(w', id, r.(classGiven := r.classGiven + 1, phase := Finished(clamp)))
  }

  function ClampStep(w: World, id: nat, r: Request): World {
    if r.phase.TotalBack? && r.phase.clamp.Some? then
      WithRequest(WithCounter(w, r.phase.clamp.value, 0), id, r.(phase := TotalBack(None)))
    else if r.phase.Finished? && r.phase.clamp.Some? then
      WithRequest(WithCounter(w, r.phase.clamp.value, 0), id, r.(phase := Finished(None)))
    else w
  }

  function LoadStep(w: World, id: nat, r: Request, total: bool): World {
    if total && r.phase == Arrived then WithRequest(w, id, r.(phase := TotalSeen(w.total)))
    else if !total && r.phase == HasTotal then WithRequest(w, id, r.(phase := ClassSeen(Read(w, OfClass(r.class_)))))
    else w
  }

  function Next(config: Config, w: World, a: Action): World {
    match a
    case Arrive(id, c, size) =>
      if id in w.requests then w
      else WithRequest(w, id, Request(c, if size < 0 then 0 else size, Arrived, true, 0, 0, 0, 0))
    case Take(c) => TakeStep(w, c)
    case _ =>
      if a.id !in w.requests then w
      else
        var r := w.requests[a.id];
        match a
        case LoadTotal(id) => LoadStep(w, id, r, true)
        case SwapTotal(id) => SwapTotalStep(config, w, id, r)
        case LoadClass(id) => LoadStep(w, id, r, false)
        case SwapClass(id) => SwapClassStep(config, w, id, r)
        case Enqueue(id) => EnqueueStep(config, w, id, r)
        case GiveTotal(id) => GiveTotalStep(w, id, r)
        case GiveClass(id) => GiveClassStep(w, id, r)
        case Clamp(id) => ClampStep(w, id, r)
        case Cancel(id) => WithRequest(w, id, r.(waiting := false))
        case _ => w
  }

  function Run(config: Config, actions: seq<Action>): World {
    if |actions| == 0 then World(0, 0, 0, map[], [], [])
    else Next(config, Run(config, actions[..|actions| - 1]), actions[|actions| - 1])
  }

  // ---- sums over requests ----

  predicate HoldsTotal(p: Phase) {
    p.HasTotal? || p.ClassSeen? || p.HasBoth? || p.Refused? || p.Dropped? || p.Queued? || p.Working?
  }

  predicate HoldsClass(p: Phase) { p.HasBoth? || p.Dropped? || p.Queued? || p.Working? || p.TotalBack? }

  /** The bytes a request holds of a counter. */
  function Held(r: Request, c: Counter): nat {
    match c
    case Total => if HoldsTotal(r.phase) then r.bytes else 0
    case OfClass(k) => if r.class_ == k && HoldsClass(r.phase) then r.bytes else 0
  }

  ghost function Sum(m: map<nat, Request>, c: Counter): nat {
    if m == map[] then 0 else var id :| id in m; Held(m[id], c) + Sum(m - {id}, c)
  }

  lemma {:induction false} SumWithout(m: map<nat, Request>, c: Counter, id: nat)
    requires id in m
    ensures Sum(m, c) == Held(m[id], c) + Sum(m - {id}, c)
    decreases |m|
  {
    var k :| k in m && Sum(m, c) == Held(m[k], c) + Sum(m - {k}, c);
    if k != id {
      SumWithout(m - {k}, c, id);
      SumWithout(m - {id}, c, k);
      assert m - {k} - {id} == m - {id} - {k};
    }
  }

  lemma SumUpdate(m: map<nat, Request>, c: Counter, id: nat, r: Request)
    ensures Sum(m[id := r], c) == Sum(m, c) - (if id in m then Held(m[id], c) else 0) + Held(r, c)
  {
    SumWithout(m[id := r], c, id);
    assert m[id := r] - {id} == m - {id};
    if id in m { SumWithout(m, c, id); } else { assert m - {id} == m; }
  }

  // ---- what every step keeps ----

  ghost predicate Balanced(w: World, c: Counter) { 0 <= Read(w, c) == Sum(w.requests, c) <= MAX_INT64 }

  ghost predicate Within(config: Config, w: World, c: Counter) {
    Limit(config, c) > 0 ==> Read(w, c) <= Limit(config, c)
  }

  /** Reservations taken and given back agree with the phase, and no clamp is ever due. */
  ghost predicate RequestOk(r: Request) {
    && r.totalTaken == r.totalGiven + (if HoldsTotal(r.phase) then 1 else 0)
    && r.classTaken == r.classGiven + (if HoldsClass(r.phase) then 1 else 0)
    && r.totalTaken <= 1 && r.classTaken <= 1
    && (r.phase.Arrived? || r.phase.TotalSeen? ==> r.totalTaken == 0)
    && (r.phase.Arrived? || r.phase.TotalSeen? || r.phase.HasTotal? || r.phase.ClassSeen? ==> r.classTaken == 0)
    && (r.phase.TotalBack? ==> r.phase.clamp == None)
    && (r.phase.Finished? ==> r.phase.clamp == None)
  }

  /** A queue holds the queued requests of its class, each once. */
  ghost predicate QueueOk(w: World, c: Class) {
    && (forall id :: id in Queue(w, c) <==>
          id in w.requests && w.requests[id].phase.Queued? && w.requests[id].class_ == c)
    && (forall i, j :: 0 <= i < j < |Queue(w, c)| ==> Queue(w, c)[i] != Queue(w, c)[j])
  }

  ghost predicate CountersOk(config: Config, w: World) { forall c :: Balanced(w, c) && Within(config, w, c) }

  ghost predicate RequestsOk(w: World) { forall id :: id in w.requests ==> RequestOk(w.requests[id]) }

  ghost predicate Inv(config: Config, w: World) {
    CountersOk(config, w) && RequestsOk(w) && QueueOk(w, Foreground) && QueueOk(w, Background)
  }

  /** The counter and the attempt a swap step is about to make. */
  predicate Overflows(config: Config, w: World, a: Action) {
    (a.SwapTotal? || a.SwapClass?) && a.id in w.requests &&
    var r := w.requests[a.id];
    var c := if a.SwapTotal? then Total else OfClass(r.class_);
    (if a.SwapTotal? then r.phase.TotalSeen? else r.phase.ClassSeen?) &&
    Reserve(config, w, c, r.phase.seen, r.bytes).Reserved? && Read(w, c) + r.bytes > MAX_INT64
  }

  /** One request changes, and each counter changes by what the request holds. */
  ghost predicate Moves(config: Config, w: World, w': World, id: nat, r: Request) {
    && w'.requests == w.requests[id := r]
    && forall c ::
         && Within(config, w', c) && Read(w', c) <= MAX_INT64
         && Read(w', c) == Read(w, c) - (if id in w.requests then Held(w.requests[id], c) else 0) + Held(r, c)
  }

  lemma MovesKeep(config: Config, w: World, w': World, id: nat, r: Request)
    requires CountersOk(config, w) && Moves(config, w, w', id, r)
    ensures CountersOk(config, w')
  {
    forall c ensures Balanced(w', c) && Within(config, w', c) {
      assert Balanced(w, c) && Within(config, w', c);
      SumUpdate(w.requests, c, id, r);
    }
  }

  lemma HeldWithin(w: World, c: Counter, id: nat)
    requires Balanced(w, c) && id in w.requests
    ensures Held(w.requests[id], c) <= Read(w, c)
  {
    SumWithout(w.requests, c, id);
  }

  /** A successful reservation adds exactly its bytes, and stays within a positive limit. */
  lemma ReserveAdds(config: Config, w: World, c: Counter, seen: int, bytes: nat)
    requires Balanced(w, c) && Reserve(config, w, c, seen, bytes).Reserved? && Read(w, c) + bytes <= MAX_INT64
    ensures var next := Reserve(config, w, c, seen, bytes).next;
            next == Read(w, c) + bytes && (Limit(config, c) > 0 ==> next <= Limit(config, c))
  {
  }

  lemma GiveBackExact(w: World, c: Counter, bytes: nat)
    requires 0 <= Read(w, c) <= MAX_INT64 && bytes <= Read(w, c)
    ensures GiveBack(w, c, bytes) == (WithCounter(w, c, Read(w, c) - bytes), None)
  {
  }

  lemma SwapTotalKeeps(config: Config, w: World, id: nat)
    requires Inv(config, w) && id in w.requests && !Overflows(config, w, SwapTotal(id))
    ensures CountersOk(config, SwapTotalStep(config, w, id, w.requests[id]))
  {
    var r := w.requests[id];
    var w' := SwapTotalStep(config, w, id, r);
    if r.phase.TotalSeen? {
      assert Balanced(w, Total) && forall c :: Within(config, w, c);
      if Reserve(config, w, Total, r.phase.seen, r.bytes).Reserved? {
        ReserveAdds(config, w, Total, r.phase.seen, r.bytes);
      }
      forall c
        ensures Within(config, w', c) && Read(w', c) <= MAX_INT64
        ensures Read(w', c) == Read(w, c) - Held(r, c) + Held(w'.requests[id], c)
      {
        assert Balanced(w, c) && Within(config, w, c);
      }
      MovesKeep(config, w, w', id, w'.requests[id]);
    }
  }

  lemma SwapClassKeeps(config: Config, w: World, id: nat)
    requires Inv(config, w) && id in w.requests && !Overflows(config, w, SwapClass(id))
    ensures CountersOk(config, SwapClassStep(config, w, id, w.requests[id]))
  {
    var r := w.requests[id];
    var k := OfClass(r.class_);
    var w' := SwapClassStep(config, w, id, r);
    if r.phase.ClassSeen? {
      assert Balanced(w, k);
      if Reserve(config, w, k, r.phase.seen, r.bytes).Reserved? { ReserveAdds(config, w, k, r.phase.seen, r.bytes); }
      forall c
        ensures Within(config, w', c) && Read(w', c) <= MAX_INT64
        ensures Read(w', c) == Read(w, c) - Held(r, c) + Held(w'.requests[id], c)
      {
        assert Balanced(w, c) && Within(config, w, c);
      }
      MovesKeep(config, w, w', id, w'.requests[id]);
    }
  }

  /** Giving back never goes below zero, so no clamp is left to do. */
  lemma GiveTotalKeeps(config: Config, w: World, id: nat)
    requires CountersOk(config, w) && id in w.requests && RequestOk(w.requests[id])
    ensures var w' := GiveTotalStep(w, id, w.requests[id]);
            CountersOk(config, w') && id in w'.requests && RequestOk(w'.requests[id])
  {
    var r := w.requests[id];
    var w' := GiveTotalStep(w, id, r);
    if w' != w {
      assert Balanced(w, Total);
      HeldWithin(w, Total, id);
      GiveBackExact(w, Total, r.bytes);
      forall c
        ensures Within(config, w', c) && Read(w', c) <= MAX_INT64
        ensures Read(w', c) == Read(w, c) - Held(r, c) + Held(w'.requests[id], c)
      {
        assert Balanced(w, c) && Within(config, w, c);
      }
      MovesKeep(config, w, w', id, w'.requests[id]);
    }
  }

  lemma GiveClassKeeps(config: Config, w: World, id: nat)
    requires CountersOk(config, w) && id in w.requests && RequestOk(w.requests[id])
    ensures var w' := GiveClassStep(w, id, w.requests[id]);
            CountersOk(config, w') && id in w'.requests && RequestOk(w'.requests[id])
  {
    var r := w.requests[id];
    var k := OfClass(r.class_);
    var w' := GiveClassStep(w, id, r);
    if w' != w {
      assert Balanced(w, k);
      HeldWithin(w, k, id);
      GiveBackExact(w, k, r.bytes);
      forall c
        ensures Within(config, w', c) && Read(w', c) <= MAX_INT64
        ensures Read(w', c) == Read(w, c) - Held(r, c) + Held(w'.requests[id], c)
      {
        assert Balanced(w, c) && Within(config, w, c);
      }
      MovesKeep(config, w, w', id, w'.requests[id]);
    }
  }

  /** Steps that change a request's place but not what it holds. */
  lemma QuietKeeps(config: Config, w: World, w': World, id: nat, r: Request)
    requires CountersOk(config, w) && w'.requests == w.requests[id := r]
    requires forall c :: Read(w', c) == Read(w, c)
    requires forall c :: Held(r, c) == if id in w.requests then Held(w.requests[id], c) else 0
    ensures CountersOk(config, w')
  {
    forall c ensures Within(config, w', c) && Read(w', c) <= MAX_INT64 {
      assert Balanced(w, c) && Within(config, w, c);
    }
    MovesKeep(config, w, w', id, r);
  }

  lemma TakeCounters(config: Config, w: World, c: Class)
    requires Inv(config, w)
    ensures CountersOk(config, TakeStep(w, c))
  {
    if |Queue(w, c)| > 0 {
      var id := Queue(w, c)[0];
      assert id in Queue(w, c);
      var w' := TakeStep(w, c);
      QuietKeeps(config, w, w', id, w'.requests[id]);
    }
  }

  lemma PlainCounters(config: Config, w: World, a: Action)
    requires CountersOk(config, w) && (a.LoadTotal? || a.LoadClass? || a.Enqueue? || a.Cancel?) && a.id in w.requests
    ensures CountersOk(config, Next(config, w, a))
  {
    var w' := Next(config, w, a);
    if w' != w { QuietKeeps(config, w, w', a.id, w'.requests[a.id]); }
  }

  lemma NextCounters(config: Config, w: World, a: Action)
    requires Inv(config, w) && !Overflows(config, w, a)
    ensures CountersOk(config, Next(config, w, a))
  {
    match a
    case Arrive(id, _, _) =>
      var w' := Next(config, w, a);
      if id !in w.requests { QuietKeeps(config, w, w', id, w'.requests[id]); }
    case Take(c) => TakeCounters(config, w, c);
    case _ =>
      if a.id in w.requests { RequestCounters(config, w, a); }
  }

  lemma RequestCounters(config: Config, w: World, a: Action)
    requires Inv(config, w) && !Overflows(config, w, a) && !a.Arrive? && !a.Take? && a.id in w.requests
    ensures CountersOk(config, Next(config, w, a))
  {
    assert RequestOk(w.requests[a.id]);
    match a
    case SwapTotal(id) => SwapTotalKeeps(config, w, id);
    case SwapClass(id) => SwapClassKeeps(config, w, id);
    case GiveTotal(id) => GiveTotalKeeps(config, w, id);
    case GiveClass(id) => GiveClassKeeps(config, w, id);
    case Clamp(id) =>
    case _ => PlainCounters(config, w, a);
  }

  /** A step changes one request at most. */
  function Touched(w: World, a: Action): Option<nat> {
    match a
    case Take(c) => if |Queue(w, c)| > 0 then Some(Queue(w, c)[0]) else None
    case _ => Some(a.id)
  }

  lemma OthersSame(config: Config, w: World, a: Action, id: nat)
    requires Touched(w, a) != Some(id)
    ensures id in Next(config, w, a).requests <==> id in w.requests
    ensures id in w.requests ==> Next(config, w, a).requests[id] == w.requests[id]
  {
  }

  lemma TouchedOk(config: Config, w: World, a: Action, id: nat)
    requires Inv(config, w) && Touched(w, a) == Some(id) && id in w.requests
    ensures id in Next(config, w, a).requests && RequestOk(Next(config, w, a).requests[id])
  {
    assert RequestOk(w.requests[id]);
    match a
    case Take(c) => assert Queue(w, c)[0] in Queue(w, c);
    case GiveTotal(_) => GiveTotalKeeps(config, w, id);
    case GiveClass(_) => GiveClassKeeps(config, w, id);
    case _ => OwnStepOk(config, w, a);
  }

  lemma OwnStepOk(config: Config, w: World, a: Action)
    requires !a.Take? && !a.GiveTotal? && !a.GiveClass? && a.id in w.requests && RequestOk(w.requests[a.id])
    ensures a.id in Next(config, w, a).requests && RequestOk(Next(config, w, a).requests[a.id])
  {
  }

  lemma NextRequests(config: Config, w: World, a: Action)
    requires Inv(config, w)
    ensures RequestsOk(Next(config, w, a))
  {
    forall id | id in Next(config, w, a).requests ensures RequestOk(Next(config, w, a).requests[id]) {
      if Touched(w, a) == Some(id) {
        if id in w.requests { TouchedOk(config, w, a, id); }
      } else {
        OthersSame(config, w, a, id);
        assert RequestOk(w.requests[id]);
      }
    }
  }

  // ---- the queues ----

  lemma EnqueueKeeps(w: World, w': World, id: nat, r: Request, c: Class)
    requires QueueOk(w, c) && id in w.requests && !w.requests[id].phase.Queued? && r.class_ == w.requests[id].class_
    requires r.phase.Queued?
    requires w'.requests == w.requests[id := r]
    requires Queue(w', c) == (if c == r.class_ then Queue(w, c) + [id] else Queue(w, c))
    ensures QueueOk(w', c)
  {
    assert id !in Queue(w, c);
  }

  lemma TakeKeeps(w: World, w': World, c: Class, d: Class)
    requires QueueOk(w, c) && QueueOk(w, d) && |Queue(w, c)| > 0
    requires w' == TakeStep(w, c)
    ensures QueueOk(w', d)
  {
    var q := Queue(w, c);
    var id := q[0];
    assert id in q;
    assert q == [id] + q[1..];
    if d == c {
      forall x ensures x in q[1..] <==> x in q && x != id {
        if x in q && x != id { var i :| 0 <= i < |q| && q[i] == x; assert q[1..][i - 1] == x; }
      }
    }
  }

  lemma QueueSame(w: World, w': World, id: nat, c: Class)
    requires QueueOk(w, c) && Queue(w', c) == Queue(w, c)
    requires forall x :: x != id ==>
               (x in w'.requests <==> x in w.requests) && (x in w.requests ==> w'.requests[x] == w.requests[x])
    requires id in w.requests ==>
               && id in w'.requests && w'.requests[id].class_ == w.requests[id].class_
               && w'.requests[id].phase.Queued? == w.requests[id].phase.Queued?
    requires id !in w.requests ==> id in w'.requests ==> !w'.requests[id].phase.Queued?
    ensures QueueOk(w', c)
  {
  }

  lemma EnqueueStepKeeps(config: Config, w: World, id: nat, c: Class)
    requires QueueOk(w, c) && id in w.requests && w.requests[id].phase.HasBoth?
    ensures QueueOk(EnqueueStep(config, w, id, w.requests[id]), c)
  {
    var r := w.requests[id];
    var w' := EnqueueStep(config, w, id, r);
    if |Queue(w, r.class_)| >= config.capacity {
      QueueSame(w, w', id, c);
    } else {
      EnqueueKeeps(w, w', id, w'.requests[id], c);
    }
  }

  /** Other steps leave the queues alone and queue or unqueue nothing. */
  lemma KeepsPlace(config: Config, w: World, a: Action, c: Class)
    requires !a.Take? && !(a.Enqueue? && a.id in w.requests && w.requests[a.id].phase.HasBoth?)
    ensures var w' := Next(config, w, a);
            && Queue(w', c) == Queue(w, c)
            && (a.id in w.requests ==>
                  && a.id in w'.requests && w'.requests[a.id].class_ == w.requests[a.id].class_
                  && w'.requests[a.id].phase.Queued? == w.requests[a.id].phase.Queued?)
            && (a.id !in w.requests && a.id in w'.requests ==> !w'.requests[a.id].phase.Queued?)
  {
  }

  lemma NextQueue(config: Config, w: World, a: Action, c: Class)
    requires QueueOk(w, Foreground) && QueueOk(w, Background)
    ensures QueueOk(Next(config, w, a), c)
  {
    var w' := Next(config, w, a);
    if a.Take? {
      if |Queue(w, a.class_)| > 0 {
        assert Queue(w, a.class_)[0] in Queue(w, a.class_);
        TakeKeeps(w, w', a.class_, c);
      }
    } else if a.Enqueue? && a.id in w.requests && w.requests[a.id].phase.HasBoth? {
      EnqueueStepKeeps(config, w, a.id, c);
    } else {
      PlacedKeeps(config, w, a, c);
    }
  }

  lemma PlacedKeeps(config: Config, w: World, a: Action, c: Class)
    requires QueueOk(w, c) && !a.Take? && !(a.Enqueue? && a.id in w.requests && w.requests[a.id].phase.HasBoth?)
    ensures QueueOk(Next(config, w, a), c)
  {
    var w' := Next(config, w, a);
    forall x | x != a.id
      ensures (x in w'.requests <==> x in w.requests) && (x in w.requests ==> w'.requests[x] == w.requests[x])
    {
      OthersSame(config, w, a, x);
    }
    KeepsPlace(config, w, a, c);
    QueueSame(w, w', a.id, c);
  }

  // ---- whole runs ----

  lemma NextKeeps(config: Config, w: World, a: Action)
    requires Inv(config, w) && !Overflows(config, w, a)
    ensures Inv(config, Next(config, w, a))
  {
    NextCounters(config, w, a);
    NextRequests(config, w, a);
    NextQueue(config, w, a, Foreground);
    NextQueue(config, w, a, Background);
  }

  ghost predicate NeverOverflows(config: Config, actions: seq<Action>) {
    forall i :: 0 <= i < |actions| ==> !Overflows(config, Run(config, actions[..i]), actions[i])
  }

  lemma {:induction false} RunInv(config: Config, actions: seq<Action>)
    requires NeverOverflows(config, actions)
    ensures Inv(config, Run(config, actions))
  {
    if |actions| == 0 {
      var w := Run(config, actions);
      assert Inv(config, w) by { assert forall c :: Sum(w.requests, c) == 0; }
    } else {
      var before := actions[..|actions| - 1];
      forall i | 0 <= i < |before| ensures before[..i] == actions[..i] {}
      RunInv(config, before);
      NextKeeps(config, Run(config, before), actions[|actions| - 1]);
    }
  }

  /** In every interleaving each counter is the sum of the bytes held, within a positive limit; a
      request takes each reservation at most once and has given back exactly what it took once it
      is finished, whether refused, dropped, cancelled or done; and no clamp is ever made. */
  lemma CountersExact(config: Config, actions: seq<Action>, c: Counter, id: nat)
    requires NeverOverflows(config, actions)
    ensures var w := Run(config, actions);
            && Read(w, c) == Sum(w.requests, c) && (Limit(config, c) > 0 ==> Read(w, c) <= Limit(config, c))
            && (id in w.requests ==>
                  var r := w.requests[id];
                  && r.totalTaken <= 1 && r.classTaken <= 1
                  && (r.phase.Finished? ==>
                        r.totalGiven == r.totalTaken && r.classGiven == r.classTaken && r.phase.clamp == None)
                  && (r.phase.TotalBack? ==> r.phase.clamp == None))
  {
    RunInv(config, actions);
    var w := Run(config, actions);
    assert Balanced(w, c) && Within(config, w, c);
    if id in w.requests { assert RequestOk(w.requests[id]); }
  }

  /** A reservation that succeeds keeps the total equal to the sum exactly when it does not overflow. */
  lemma ExactUnlessOverflow(config: Config, w: World, id: nat)
    requires Inv(config, w) && id in w.requests && w.requests[id].phase.TotalSeen?
    requires Reserve(config, w, Total, w.requests[id].phase.seen, w.requests[id].bytes).Reserved?
    ensures var w' := Next(config, w, SwapTotal(id));
            w'.total == Sum(w'.requests, Total) <==> !Overflows(config, w, SwapTotal(id))
  {
    var w' := Next(config, w, SwapTotal(id));
    assert Balanced(w, Total);
    SumUpdate(w.requests, Total, id, w'.requests[id]);
  }

  /** And so for the counter of its class. */
  lemma ClassExactUnlessOverflow(config: Config, w: World, id: nat)
    requires Inv(config, w) && id in w.requests && w.requests[id].phase.ClassSeen?
    requires Reserve(config, w, OfClass(w.requests[id].class_), w.requests[id].phase.seen,
                     w.requests[id].bytes).Reserved?
    ensures var w', c := Next(config, w, SwapClass(id)), OfClass(w.requests[id].class_);
            Read(w', c) == Sum(w'.requests, c) <==> !Overflows(config, w, SwapClass(id))
  {
    var w', c := Next(config, w, SwapClass(id)), OfClass(w.requests[id].class_);
    assert Balanced(w, c);
    SumUpdate(w.requests, c, id, w'.requests[id]);
  }

  // ---- sizes that never overflow ----

  /** A positive limit rules overflow out for requests no larger than what int64 leaves above it:
      the total limit for the total counter, the background limit for the background counter. */
  lemma SmallRequestsNeverOverflow(config: Config, w: World, id: nat)
    requires Inv(config, w) && id in w.requests
    ensures 0 < config.maxTotal && w.requests[id].bytes <= MAX_INT64 - config.maxTotal ==>
              !Overflows(config, w, SwapTotal(id))
    ensures w.requests[id].class_ == Background && 0 < config.maxBackground &&
              w.requests[id].bytes <= MAX_INT64 - config.maxBackground ==>
              !Overflows(config, w, SwapClass(id))
  {
    assert Within(config, w, Total) && Within(config, w, OfClass(Background));
  }

  ghost predicate BytesWithin(m: map<nat, Request>, size: nat) { forall id :: id in m ==> m[id].bytes <= size }

  /** Requests that have given back the total and still hold their class. */
  ghost function Back(m: map<nat, Request>): set<nat> { set id | id in m && m[id].phase.TotalBack? }

  lemma AddOne(n: nat, size: nat)
    ensures (n + 1) * size == n * size + size
  {
  }

  lemma {:induction false} SumByCount(m: map<nat, Request>, c: Counter, size: nat)
    requires BytesWithin(m, size)
    ensures Sum(m, c) <= |m| * size
    decreases |m|
  {
    if m != map[] {
      var id :| id in m;
      SumWithout(m, c, id);
      SumByCount(m - {id}, c, size);
      assert |m - {id}| == |m| - 1 by { assert (m - {id}).Keys == m.Keys - {id}; }
      AddOne(|m| - 1, size);
    }
  }

  lemma BackWithout(m: map<nat, Request>, id: nat)
    requires id in m
    ensures |m - {id}| == |m| - 1
    ensures |Back(m)| == |Back(m - {id})| + if m[id].phase.TotalBack? then 1 else 0
  {
    assert (m - {id}).Keys == m.Keys - {id};
    assert Back(m) == if m[id].phase.TotalBack? then Back(m - {id}) + {id} else Back(m - {id});
  }

  /** A class counter exceeds the total by the requests between their two releases at most. */
  lemma {:induction false} ClassByTotal(m: map<nat, Request>, k: Class, size: nat)
    requires BytesWithin(m, size)
    ensures Sum(m, OfClass(k)) <= Sum(m, Total) + |Back(m)| * size
    decreases |m|
  {
    if m != map[] {
      var id :| id in m;
      SumWithout(m, OfClass(k), id);
      SumWithout(m, Total, id);
      BackWithout(m, id);
      ClassByTotal(m - {id}, k, size);
      AddOne(|Back(m - {id})|, size);
    }
  }

  ghost predicate SmallArrivals(actions: seq<Action>, size: nat) {
    forall i :: 0 <= i < |actions| && actions[i].Arrive? ==> actions[i].size <= size
  }

  lemma NextBytes(config: Config, w: World, a: Action, size: nat)
    requires BytesWithin(w.requests, size) && (a.Arrive? ==> a.size <= size)
    ensures BytesWithin(Next(config, w, a).requests, size) && |Next(config, w, a).requests| <= |w.requests| + 1
  {
    var w' := Next(config, w, a);
    var id := Touched(w, a);
    forall x | x in w'.requests ensures w'.requests[x].bytes <= size {
      if id != Some(x) { OthersSame(config, w, a, x); }
    }
    forall x | x in w'.requests.Keys ensures x in w.requests.Keys || id == Some(x) {
      if id != Some(x) { OthersSame(config, w, a, x); }
    }
    SubsetCount(w'.requests.Keys, w.requests.Keys + if id.Some? then {id.value} else {});
  }

  lemma {:induction false} RunBytes(config: Config, actions: seq<Action>, size: nat)
    requires SmallArrivals(actions, size)
    ensures BytesWithin(Run(config, actions).requests, size) && |Run(config, actions).requests| <= |actions|
  {
    if |actions| > 0 {
      RunBytes(config, actions[..|actions| - 1], size);
      NextBytes(config, Run(config, actions[..|actions| - 1]), actions[|actions| - 1], size);
    }
  }

  /** No counter overflows when it holds at most `held` and int64 has room for `size` more. */
  lemma RoomNeverOverflows(config: Config, w: World, a: Action, size: nat, held: nat)
    requires Inv(config, w) && BytesWithin(w.requests, size) && held + size <= MAX_INT64
    requires forall c :: Sum(w.requests, c) <= held
    ensures !Overflows(config, w, a)
  {
    if (a.SwapTotal? || a.SwapClass?) && a.id in w.requests {
      var c := if a.SwapTotal? then Total else OfClass(w.requests[a.id].class_);
      assert Balanced(w, c) && Sum(w.requests, c) <= held;
    }
  }

  lemma HeldByLimit(config: Config, w: World, size: nat, back: nat)
    requires Inv(config, w) && 0 < config.maxTotal && BytesWithin(w.requests, size) && |Back(w.requests)| <= back
    ensures forall c :: Sum(w.requests, c) <= config.maxTotal + back * size
  {
    assert Balanced(w, Total) && Within(config, w, Total);
    forall c ensures Sum(w.requests, c) <= config.maxTotal + back * size {
      if c.OfClass? { ClassByTotal(w.requests, c.class_, size); }
      Scale(|Back(w.requests)|, back, size);
    }
  }

  lemma Scale(a: nat, b: nat, c: nat)
    requires a <= b
    ensures a * c <= b * c
  {
  }

  lemma LastOverflows(config: Config, actions: seq<Action>)
    requires |actions| > 0 && NeverOverflows(config, actions[..|actions| - 1])
    requires !Overflows(config, Run(config, actions[..|actions| - 1]), actions[|actions| - 1])
    ensures NeverOverflows(config, actions)
  {
    var n := |actions| - 1;
    var before := actions[..n];
    forall i | 0 <= i < |actions| ensures !Overflows(config, Run(config, actions[..i]), actions[i]) {
      if i < n {
        assert before[..i] == actions[..i];
        assert !Overflows(config, Run(config, before[..i]), before[i]);
      }
    }
  }

  lemma LimitedStep(config: Config, w: World, a: Action, size: nat, back: nat)
    requires Inv(config, w) && BytesWithin(w.requests, size) && 0 < config.maxTotal
    requires config.maxTotal + (back + 1) * size <= MAX_INT64 && |Back(w.requests)| <= back
    ensures !Overflows(config, w, a)
  {
    var held := config.maxTotal + back * size;
    HeldByLimit(config, w, size, back);
    assert held + size <= MAX_INT64 by { AddOne(back, size); }
    RoomNeverOverflows(config, w, a, size, held);
  }

  /** With a positive total limit, a run whose arrivals are at most `size` never overflows, if no
      more than `back` requests are between their two releases at a time and int64 has room for the
      limit and back + 1 requests. */
  lemma {:induction false} SmallRunNeverOverflows(config: Config, actions: seq<Action>, size: nat, back: nat)
    requires 0 < config.maxTotal && SmallArrivals(actions, size)
    requires config.maxTotal + (back + 1) * size <= MAX_INT64
    requires forall i :: 0 <= i < |actions| ==> |Back(Run(config, actions[..i]).requests)| <= back
    ensures NeverOverflows(config, actions)
  {
    if |actions| > 0 {
      var n := |actions| - 1;
      var before := actions[..n];
      forall i | 0 <= i < n ensures |Back(Run(config, before[..i]).requests)| <= back {
        assert before[..i] == actions[..i];
      }
      SmallRunNeverOverflows(config, before, size, back);
      RunInv(config, before);
      RunBytes(config, before, size);
      LimitedStep(config, Run(config, before), actions[n], size, back);
      LastOverflows(config, actions);
    }
  }

  lemma CountedStep(config: Config, w: World, a: Action, size: nat, n: nat)
    requires Inv(config, w) && BytesWithin(w.requests, size) && |w.requests| <= n && (n + 1) * size <= MAX_INT64
    ensures !Overflows(config, w, a)
  {
    var held := n * size;
    forall c ensures Sum(w.requests, c) <= held {
      SumByCount(w.requests, c, size);
      Scale(|w.requests|, n, size);
    }
    assert held + size <= MAX_INT64 by { AddOne(n, size); }
    RoomNeverOverflows(config, w, a, size, held);
  }

  /** Whatever the limits, a run whose arrivals are at most `size` never overflows if int64 has room
      for one such request per action. */
  lemma {:induction false} ShortRunNeverOverflows(config: Config, actions: seq<Action>, size: nat)
    requires SmallArrivals(actions, size) && |actions| * size <= MAX_INT64
    ensures NeverOverflows(config, actions)
  {
    if |actions| > 0 {
      var n := |actions| - 1;
      AddOne(n, size);
      ShortRunNeverOverflows(config, actions[..n], size);
      RunInv(config, actions[..n]);
      RunBytes(config, actions[..n], size);
      CountedStep(config, Run(config, actions[..n]), actions[n], size, n);
      LastOverflows(config, actions);
    }
  }

  lemma Then(config: Config, actions: seq<Action>, a: Action)
    ensures Run(config, actions + [a]) == Next(config, Run(config, actions), a)
  {
    assert (actions + [a])[..|actions|] == actions;
  }

  /** With one byte reserved of a limit of ten, a request of the largest size is admitted: the sum
      wraps below zero and passes the limit test. */
  lemma OverflowAdmits() returns (config: Config, actions: seq<Action>)
    ensures config.maxTotal == 10
    ensures var w := Run(config, actions);
            w.total < 0 && exists id :: id in w.requests && HoldsTotal(w.requests[id].phase) &&
                                        w.requests[id].bytes > config.maxTotal
  {
    config := Config(10, 0, 1);
    var a0 := [Arrive(0, Foreground, 1)];
    var a1 := a0 + [LoadTotal(0)];
    var a2 := a1 + [SwapTotal(0)];
    var a3 := a2 + [Arrive(1, Foreground, MAX_INT64)];
    var a4 := a3 + [LoadTotal(1)];
    actions := a4 + [SwapTotal(1)];
    assert a0 == [] + [Arrive(0, Foreground, 1)];
    Then(config, [], Arrive(0, Foreground, 1)); Then(config, a0, LoadTotal(0)); Then(config, a1, SwapTotal(0));
    Then(config, a2, Arrive(1, Foreground, MAX_INT64)); Then(config, a3, LoadTotal(1)); Then(config, a4, SwapTotal(1));
    var w := Run(config, actions);
    assert 1 in w.requests && w.requests[1].phase == HasTotal;
  }

  // ---- what each attempt comes to ----

  /** The limit of a class: only background writes have one. */
  function ClassLimit(config: Config, class_: Class): int { if class_ == Background then config.maxBackground else 0 }

  /** With no limit the bytes are added; with one, a request is refused exactly when what it saw and
      its bytes exceed it, tries again when the counter has moved, and otherwise takes its bytes. */
  lemma SwapTotalExact(config: Config, w: World, id: nat)
    requires id in w.requests && w.requests[id].phase.TotalSeen?
    ensures var r, w', limit := w.requests[id], Next(config, w, SwapTotal(id)), config.maxTotal;
            var over := limit > 0 && Wrap(r.phase.seen + r.bytes) > limit;
            var moved := limit > 0 && w.total != r.phase.seen;
            && (over ==> w' == w.(requests := w.requests[id := r.(phase := Finished(None))]))
            && (!over && moved ==> w' == w.(requests := w.requests[id := r.(phase := Arrived)]))
            && (!over && !moved ==>
                  w' == w.(total := Wrap(w.total + r.bytes),
                           requests := w.requests[id := r.(phase := HasTotal, totalTaken := r.totalTaken + 1)]))
  {
  }

  lemma SwapClassExact(config: Config, w: World, id: nat)
    requires id in w.requests && w.requests[id].phase.ClassSeen?
    ensures var r, w', c := w.requests[id], Next(config, w, SwapClass(id)), OfClass(w.requests[id].class_);
            var limit := ClassLimit(config, r.class_);
            var over := limit > 0 && Wrap(r.phase.seen + r.bytes) > limit;
            var moved := limit > 0 && Read(w, c) != r.phase.seen;
            && (over ==> w' == w.(requests := w.requests[id := r.(phase := Refused)]))
            && (!over && moved ==> w' == w.(requests := w.requests[id := r.(phase := HasTotal)]))
            && (!over && !moved ==>
                  && Read(w', c) == Wrap(Read(w, c) + r.bytes) && (forall d :: d != c ==> Read(w', d) == Read(w, d))
                  && w'.requests == w.requests[id := r.(phase := HasBoth, classTaken := r.classTaken + 1)]
                  && w'.foregroundQueue == w.foregroundQueue && w'.backgroundQueue == w.backgroundQueue)
  {
  }

  /** A write that holds its bytes is queued at the end, or dropped exactly when the queue is full. */
  lemma EnqueueExact(config: Config, w: World, id: nat)
    requires id in w.requests && w.requests[id].phase.HasBoth?
    ensures var r, w' := w.requests[id], Next(config, w, Enqueue(id));
            var full := |Queue(w, r.class_)| >= config.capacity;
            && w'.requests == w.requests[id := r.(phase := if full then Dropped else Queued)]
            && Queue(w', r.class_) == (if full then Queue(w, r.class_) else Queue(w, r.class_) + [id])
            && (forall c :: c != r.class_ ==> Queue(w', c) == Queue(w, c)) && (forall c :: Read(w', c) == Read(w, c))
  {
  }

  /** A worker takes the write that was queued first. */
  lemma TakeExact(config: Config, w: World, c: Class)
    requires QueueOk(w, c) && |Queue(w, c)| > 0
    ensures var id, w' := Queue(w, c)[0], Next(config, w, Take(c));
            && id in w.requests && w'.requests == w.requests[id := w.requests[id].(phase := Working)]
            && Queue(w', c) == Queue(w, c)[1..] && (forall d :: d != c ==> Queue(w', d) == Queue(w, d))
            && (forall d :: Read(w', d) == Read(w, d))
  {
    assert Queue(w, c)[0] in Queue(w, c);
  }

  /** Room for the request under a limit, without overflow. */
  predicate Fits(limit: int, current: int, bytes: nat) {
    IsInt64(current + bytes) && (limit > 0 ==> current + bytes <= limit)
  }

  /** A request that fits both limits, finds room in its queue and is not interrupted is queued with
      its bytes counted once in the total and once in its class. */
  lemma FittingIsQueued(config: Config, w: World, id: nat)
    requires id in w.requests && w.requests[id].phase == Arrived
    requires var r := w.requests[id];
             && Fits(config.maxTotal, w.total, r.bytes)
             && Fits(ClassLimit(config, r.class_), Read(w, OfClass(r.class_)), r.bytes)
             && |Queue(w, r.class_)| < config.capacity
    ensures var w2 := Next(config, Next(config, w, LoadTotal(id)), SwapTotal(id));
            var w4 := Next(config, Next(config, w2, LoadClass(id)), SwapClass(id));
            var w5, r := Next(config, w4, Enqueue(id)), w.requests[id];
            && id in w5.requests && w5.requests[id].phase == Queued
            && Queue(w5, r.class_) == Queue(w, r.class_) + [id]
            && w5.total == w.total + r.bytes
            && Read(w5, OfClass(r.class_)) == Read(w, OfClass(r.class_)) + r.bytes
  {
    var r := w.requests[id];
    var w1 := Next(config, w, LoadTotal(id));
    assert w1.requests[id] == r.(phase := TotalSeen(w.total)) && w1.total == w.total;
    SwapTotalExact(config, w1, id);
    var w2 := Next(config, w1, SwapTotal(id));
    assert w2.requests[id].phase == HasTotal && w2.total == w.total + r.bytes;
    var w3 := Next(config, w2, LoadClass(id));
    assert w3.requests[id].phase == ClassSeen(Read(w, OfClass(r.class_)));
    SwapClassExact(config, w3, id);
    EnqueueExact(config, Next(config, w3, SwapClass(id)), id);
  }

  /** A new request has its class and its bytes, none if the size is negative. */
  lemma ArriveExact(config: Config, w: World, id: nat, c: Class, size: int)
    requires id !in w.requests
    ensures var w' := Next(config, w, Arrive(id, c, size));
            && w' == w.(requests := w'.requests) && id in w'.requests
            && w'.requests[id].class_ == c && w'.requests[id].bytes == (if size < 0 then 0 else size)
            && w'.requests[id].phase == Arrived && (forall x :: x in w.requests ==> w'.requests[x] == w.requests[x])
            && w'.requests.Keys == w.requests.Keys + {id}
  {
  }

  /** A caller that gives up only stops waiting: its write goes on as before. */
  lemma CancelExact(config: Config, w: World, id: nat)
    requires id in w.requests
    ensures Next(config, w, Cancel(id)) == w.(requests := w.requests[id := w.requests[id].(waiting := false)])
  {
  }

  /** A worker that is done with a write gives its bytes back to both counters, and the request ends. */
  lemma WorkIsGivenBack(config: Config, w: World, id: nat)
    requires Inv(config, w) && id in w.requests && w.requests[id].phase == Working
    ensures var w', r := Next(config, Next(config, w, GiveTotal(id)), GiveClass(id)), w.requests[id];
            && id in w'.requests && w'.requests[id].phase == Finished(None)
            && w'.total == w.total - r.bytes
            && Read(w', OfClass(r.class_)) == Read(w, OfClass(r.class_)) - r.bytes
  {
    var r, c := w.requests[id], OfClass(w.requests[id].class_);
    assert Balanced(w, Total) && Balanced(w, c);
    HeldWithin(w, Total, id);
    HeldWithin(w, c, id);
    GiveBackExact(w, Total, r.bytes);
    var w1 := Next(config, w, GiveTotal(id));
    assert w1.requests[id].phase == TotalBack(None) && w1.requests[id].bytes == r.bytes && Read(w1, c) == Read(w, c);
    GiveBackExact(w1, c, r.bytes);
  }

  // ---- queues over whole runs ----

  lemma QueueStep(config: Config, w: World, a: Action, c: Class)
    ensures var q, q' := Queue(w, c), Queue(Next(config, w, a), c);
            || q' == q
            || (a.Enqueue? && q' == q + [a.id] && |q| < config.capacity)
            || (a.Take? && a.class_ == c && |q| > 0 && q' == q[1..])
  {
  }

  /** In every run a queue never holds more than its capacity. */
  lemma {:induction false} QueuesBounded(config: Config, actions: seq<Action>, c: Class)
    ensures |Queue(Run(config, actions), c)| <= config.capacity
  {
    if |actions| > 0 {
      QueuesBounded(config, actions[..|actions| - 1], c);
      QueueStep(config, Run(config, actions[..|actions| - 1]), actions[|actions| - 1], c);
    }
  }
}
