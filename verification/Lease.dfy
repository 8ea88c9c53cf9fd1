/** The TTL lease lock: what acquire, refresh and release decide, the memory form, and the
    snapshot-read, conflict-checked-commit form over every interleaving of calls. */
module Lease {
  import opened MetaTypes

  datatype LockValue = LockValue(owner: string, expires: int)

  const DEFAULT_TTL := 10000000000

  function Ttl(ttl: int): (t: int)
    ensures t > 0
  {
    if ttl <= 0 then DEFAULT_TTL else ttl
  }

  datatype Kind = Acquire | Refresh | Release

  datatype Decision = Refuse | Write(value: LockValue) | Remove

  /** What a call does about the lock value it reads. */
  function Decide(kind: Kind, lock: Option<LockValue>, owner: string, now: int, ttl: int): Decision {
    var mine := LockValue(owner, now + Ttl(ttl));
    match kind
    case Acquire => if lock.Some? && lock.value.expires > now && lock.value.owner != owner then Refuse else Write(mine)
    case Refresh => if lock.None? || lock.value.owner != owner || lock.value.expires <= now then Refuse else Write(mine)
    case Release => if lock.None? || lock.value.owner != owner then Refuse else Remove
  }

  function After(lock: Option<LockValue>, d: Decision): Option<LockValue> {
    match d
    case Refuse => lock
    case Write(v) => Some(v)
    case Remove => None
  }

  // ---- the memory form ----

  class LockTable {
    var kv: map<string, LockValue>

    ghost function Held(key: string): Option<LockValue> reads this { if key in kv then Some(kv[key]) else None }

    /** Only `key` changes, and by the decision of the call. */
    ghost predicate Decided(before: map<string, LockValue>, key: string, d: Decision) reads this {
      && Held(key) == After(if key in before then Some(before[key]) else None, d)
      && kv - {key} == before - {key}
    }

    method TryAcquireLockWithTTL(key: string, owner: string, ttl: int, now: int) returns (ok: bool)
      modifies this
      ensures Decided(old(kv), key, Decide(Acquire, old(Held(key)), owner, now, ttl))
      ensures ok == Decide(Acquire, old(Held(key)), owner, now, ttl).Write?
      ensures ok <==> !(key in old(kv) && old(kv)[key].owner != owner && old(kv)[key].expires > now)
      ensures ok ==> kv == old(kv)[key := LockValue(owner, now + if ttl <= 0 then 10_000_000_000 else ttl)]
      ensures !ok ==> kv == old(kv)
    {
      var newVal := LockValue(owner, now + Ttl(ttl));
      if key !in kv {
        kv := kv[key := newVal];
        return true;
      }
      var existing := kv[key];
      if existing.owner == owner && existing.expires > now {
        kv := kv[key := newVal];
        return true;
      }
      if existing.expires > now { return false; }
      kv := kv[key := newVal];
      return true;
    }

    method RefreshLock(key: string, owner: string, ttl: int, now: int) returns (ok: bool)
      modifies this
      ensures Decided(old(kv), key, Decide(Refresh, old(Held(key)), owner, now, ttl))
      ensures ok == Decide(Refresh, old(Held(key)), owner, now, ttl).Write?
      ensures ok <==> key in old(kv) && old(kv)[key].owner == owner && old(kv)[key].expires > now
      ensures ok ==> kv == old(kv)[key := LockValue(owner, now + if ttl <= 0 then 10_000_000_000 else ttl)]
      ensures !ok ==> kv == old(kv)
    {
      if key !in kv { return false; }
      var v := kv[key];
      if v.owner != owner || v.expires <= now { return false; }
      kv := kv[key := LockValue(owner, now + Ttl(ttl))];
      return true;
    }

    method ReleaseLock(key: string, owner: string)
      modifies this
      ensures forall now, ttl :: Decided(old(kv), key, Decide(Release, old(Held(key)), owner, now, ttl))
      ensures kv == if key in old(kv) && old(kv)[key].owner == owner then old(kv) - {key} else old(kv)
    {
      if key !in kv { return; }
      if kv[key].owner != owner { return; }
      kv := kv - {key};
    }
  }

  // ---- every interleaving of calls ----

  /** The lock value a call read, and how many commits had happened by then. */
  datatype Seen = Seen(version: nat, lock: Option<LockValue>)

  /** A call under way.  Acquire takes its time before it reads, refresh after. */
  datatype Call = Call(kind: Kind, owner: string, ttl: int, now: Option<int>, snap: Option<Seen>)

  /** `grants` maps an owner to the expiry of its last acquire or refresh that succeeded;
      `promises` keeps the expiry of every one since its last release. */
  datatype World = World(
    lock: Option<LockValue>, version: nat, clock: int, calls: map<nat, Call>,
    grants: map<string, int>, promises: set<LockValue>)

  datatype Action =
    | Tick(time: int)
    | Start(call: nat, kind: Kind, owner: string, ttl: int)
    | Sample(call: nat)
    | Read(call: nat)
    | Finish(call: nat)

  predicate CanSample(c: Call) {
    c.now.None? && (c.kind == Acquire ==> c.snap.None?) && (c.kind == Refresh ==> c.snap.Some?)
  }

  predicate CanRead(c: Call) { c.snap.None? && (c.kind == Acquire ==> c.now.Some?) }

  predicate CanFinish(c: Call) { c.snap.Some? && (c.kind != Release ==> c.now.Some?) }

  /** What a call that finishes now does to the lock: its decision, unless the lock was written since it read. */
  function Outcome(w: World, c: Call): Decision
    requires CanFinish(c)
  {
    if c.snap.value.version != w.version then Refuse
    else Decide(c.kind, c.snap.value.lock, c.owner, if c.now.Some? then c.now.value else 0, c.ttl)
  }

  function Commit(w: World, owner: string, d: Decision): World {
    match d
    case Refuse => w
    case Write(v) =>
      w.(lock := Some(v), version := w.version + 1, grants := w.grants[owner := v.expires],
         promises := w.promises + {v})
    case Remove =>
      w.(lock := None, version := w.version + 1, grants := w.grants - {owner},
         promises := set p | p in w.promises && p.owner != owner)
  }

  function Next(w: World, a: Action): World {
    match a
    case Tick(time) => if time > w.clock then w.(clock := time) else w
    case Start(id, kind, owner, ttl) => w.(calls := w.calls[id := Call(kind, owner, ttl, None, None)])
    case Sample(id) =>
      if id in w.calls && CanSample(w.calls[id]) then
        w.(calls := w.calls[id := w.calls[id].(now := Some(w.clock))])
      else
        w
    case Read(id) =>
      if id in w.calls && CanRead(w.calls[id]) then
        w.(calls := w.calls[id := w.calls[id].(snap := Some(Seen(w.version, w.lock)))])
      else
        w
    case Finish(id) =>
      if id in w.calls && CanFinish(w.calls[id]) then
        Commit(w.(calls := w.calls - {id}), w.calls[id].owner, Outcome(w, w.calls[id]))
      else w
  }

  function Run(actions: seq<Action>): World {
    if |actions| == 0 then World(None, 0, 0, map[], map[], {})
    else Next(Run(actions[..|actions| - 1]), actions[|actions| - 1])
  }

  // ---- what every step keeps ----

  /** A read at the current version is the current lock, and no time is in the future. */
  ghost predicate CallOk(w: World, c: Call) {
    && (c.now.Some? ==> c.now.value <= w.clock)
    && (c.snap.Some? ==>
          c.snap.value.version <= w.version && (c.snap.value.version == w.version ==> c.snap.value.lock == w.lock))
  }

  /** An unexpired grant is the stored lock. */
  ghost predicate GrantOk(w: World, owner: string) {
    owner in w.grants && w.grants[owner] > w.clock ==> w.lock == Some(LockValue(owner, w.grants[owner]))
  }

  ghost predicate Inv(w: World) {
    (forall id :: id in w.calls ==> CallOk(w, w.calls[id])) && (forall owner :: GrantOk(w, owner))
  }

  lemma FinishKeeps(w: World, id: nat)
    requires Inv(w) && id in w.calls && CanFinish(w.calls[id])
    ensures Inv(Next(w, Finish(id)))
  {
    var c := w.calls[id];
    var d := Outcome(w, c);
    var w' := Next(w, Finish(id));
    assert CallOk(w, c);
    forall owner ensures GrantOk(w', owner) {
      assert GrantOk(w, owner) && GrantOk(w, c.owner);
    }
    forall i | i in w'.calls ensures CallOk(w', w'.calls[i]) { assert CallOk(w, w.calls[i]); }
  }

  lemma NextKeeps(w: World, a: Action)
    requires Inv(w)
    ensures Inv(Next(w, a))
  {
    var w' := Next(w, a);
    if a.Finish? && a.call in w.calls && CanFinish(w.calls[a.call]) {
      FinishKeeps(w, a.call);
    } else {
      forall owner ensures GrantOk(w', owner) { assert GrantOk(w, owner); }
      forall i | i in w'.calls ensures CallOk(w', w'.calls[i]) { assert i in w.calls ==> CallOk(w, w.calls[i]); }
    }
  }

  lemma {:induction false} RunInv(actions: seq<Action>)
    ensures Inv(Run(actions))
  {
    if |actions| > 0 {
      RunInv(actions[..|actions| - 1]);
      NextKeeps(Run(actions[..|actions| - 1]), actions[|actions| - 1]);
    }
  }

  /** In every run at most one owner has an unexpired grant, and it is the stored lock. */
  lemma AtMostOneHolder(actions: seq<Action>, a: string, b: string)
    ensures var w := Run(actions);
            && (a in w.grants && w.grants[a] > w.clock ==> w.lock == Some(LockValue(a, w.grants[a])))
            && (a in w.grants && w.grants[a] > w.clock && b in w.grants && w.grants[b] > w.clock ==> a == b)
  {
    RunInv(actions);
    assert GrantOk(Run(actions), a) && GrantOk(Run(actions), b);
  }

  /** While another owner holds the lock, or nobody does, a refresh fails and a release changes
      nothing, even if it read the lock before the takeover. */
  lemma TakeoverIsFinal(actions: seq<Action>, id: nat)
    requires var w := Run(actions);
             && id in w.calls && CanFinish(w.calls[id]) && w.calls[id].kind != Acquire
             && (w.lock.Some? ==> w.lock.value.owner != w.calls[id].owner)
    ensures var w, w' := Run(actions), Next(Run(actions), Finish(id));
            && Outcome(w, w.calls[id]) == Refuse
            && w'.lock == w.lock && w'.version == w.version && w'.grants == w.grants
  {
    RunInv(actions);
    assert CallOk(Run(actions), Run(actions).calls[id]);
  }

  /** A takeover needs the old lease to have run out: a grant changes hands only after it expired
      or was released. */
  lemma TakeoverNeedsExpiry(actions: seq<Action>, id: nat)
    requires var w := Run(actions);
             && id in w.calls && CanFinish(w.calls[id]) && Outcome(w, w.calls[id]).Write?
    ensures var w := Run(actions);
            w.lock.Some? && w.lock.value.owner != w.calls[id].owner ==> w.lock.value.expires <= w.clock
  {
    RunInv(actions);
    assert CallOk(Run(actions), Run(actions).calls[id]);
  }

  // ---- the time of a call ----

  ghost predicate SampledAt(actions: seq<Action>, i: nat, id: nat, time: int) {
    i < |actions| && actions[i] == Sample(id) && Run(actions[..i]).clock == time
  }

  /** In every run the time of a call is what the clock showed when the call sampled it. */
  lemma {:induction false} CallsAreTimed(actions: seq<Action>, id: nat)
    requires id in Run(actions).calls && Run(actions).calls[id].now.Some?
    ensures exists i :: SampledAt(actions, i, id, Run(actions).calls[id].now.value)
  {
    if |actions| > 0 {
      var n := |actions| - 1;
      var before, time := actions[..n], Run(actions).calls[id].now.value;
      if id in Run(before).calls && Run(before).calls[id].now == Some(time) {
        CallsAreTimed(before, id);
        var i: nat :| SampledAt(before, i, id, time);
        assert before[..i] == actions[..i];
        assert SampledAt(actions, i, id, time);
      } else {
        assert SampledAt(actions, n, id, time);
      }
    }
  }

  // ---- what a call that finishes leaves behind ----

  /** When a lease taken or renewed by a call timed at `now` runs out. */
  predicate ExpiresFor(c: Call, expires: int) {
    c.now.Some? && expires == c.now.value + if c.ttl <= 0 then 10_000_000_000 else c.ttl
  }

  /** Another owner's lease, unexpired at the time of the call. */
  predicate Blocked(w: World, c: Call) {
    c.now.Some? && w.lock.Some? && w.lock.value.owner != c.owner && w.lock.value.expires > c.now.value
  }

  predicate Mine(w: World, c: Call) { w.lock.Some? && w.lock.value.owner == c.owner }

  /** In every run, a call whose read is out of date changes nothing.  Otherwise an acquire succeeds
      unless another owner's lease is running, a refresh exactly if the owner's own is, and both
      store the owner with the expiry counted from the call's time; a release removes the owner's
      lock and no other. */
  lemma FinishStores(actions: seq<Action>, id: nat)
    requires id in Run(actions).calls && CanFinish(Run(actions).calls[id])
    ensures var w, w' := Run(actions), Next(Run(actions), Finish(id));
            var c := w.calls[id];
            var upToDate := c.snap.value.version == w.version;
            && (upToDate && c.kind == Acquire && !Blocked(w, c) ==> Granted(w, w', c))
            && (upToDate && c.kind == Refresh && Mine(w, c) && w.lock.value.expires > c.now.value ==> Granted(w, w', c))
            && (upToDate && c.kind == Release && Mine(w, c) ==> Released(w, w', c))
            && (!upToDate || (c.kind == Acquire && Blocked(w, c)) || (c.kind != Acquire && !Mine(w, c)) ||
                (c.kind == Refresh && w.lock.value.expires <= c.now.value) ==>
                  w' == w.(calls := w.calls - {id}))
  {
    RunInv(actions);
    assert CallOk(Run(actions), Run(actions).calls[id]);
  }

  /** The lock is the caller's, until the time of the call plus its lease time. */
  ghost predicate Granted(w: World, w': World, c: Call) {
    && w'.lock.Some? && w'.lock.value.owner == c.owner && ExpiresFor(c, w'.lock.value.expires)
    && c.owner in w'.grants && w'.grants[c.owner] == w'.lock.value.expires
    && w'.promises == w.promises + {w'.lock.value} && w'.version == w.version + 1
    && forall o :: o != c.owner ==>
         (o in w'.grants <==> o in w.grants) && (o in w.grants ==> w'.grants[o] == w.grants[o])
  }

  ghost predicate Released(w: World, w': World, c: Call) {
    && w'.lock.None? && c.owner !in w'.grants && w'.version == w.version + 1
    && (forall p :: p in w'.promises <==> p in w.promises && p.owner != c.owner)
    && forall o :: o != c.owner ==>
         (o in w'.grants <==> o in w.grants) && (o in w.grants ==> w'.grants[o] == w.grants[o])
  }

  /** The i-th action finished an acquire or refresh of the owner, timed so that it expires then. */
  ghost predicate GivenAt(actions: seq<Action>, i: nat, p: LockValue) {
    && i < |actions| && actions[i].Finish? && actions[i].call in Run(actions[..i]).calls
    && var c := Run(actions[..i]).calls[actions[i].call];
       CanFinish(c) && c.kind != Release && c.owner == p.owner && ExpiresFor(c, p.expires)
  }

  /** Over every run, each promise and the stored lock stem from an acquire or refresh of that very
      owner, and expire at its time plus its lease time. */
  lemma {:induction false} PromisesAreTimed(actions: seq<Action>, p: LockValue)
    requires p in Run(actions).promises || Run(actions).lock == Some(p)
    ensures exists i :: GivenAt(actions, i, p)
  {
    if |actions| > 0 {
      var n := |actions| - 1;
      var before, a := actions[..n], actions[n];
      var w := Run(before);
      if p in w.promises || w.lock == Some(p) {
        PromisesAreTimed(before, p);
        var i: nat :| GivenAt(before, i, p);
        assert before[..i] == actions[..i];
        assert GivenAt(actions, i, p);
      } else {
        FinishStores(before, a.call);
        assert GivenAt(actions, n, p);
      }
    }
  }

  // ---- every grant ever given, not only the last one of each owner ----

  /** Every unexpired promise is covered by the stored lock. */
  ghost predicate Kept(w: World) {
    forall p :: p in w.promises && p.expires > w.clock ==>
      w.lock.Some? && w.lock.value.owner == p.owner && p.expires <= w.lock.value.expires
  }

  ghost predicate Stored(w: World) { w.lock.Some? ==> w.lock.value in w.promises }

  /** A call of the owner itself that would store an earlier expiry than the one still running. */
  predicate Shortens(w: World, d: Decision) {
    && d.Write? && w.lock.Some? && w.lock.value.owner == d.value.owner
    && d.value.expires < w.lock.value.expires && w.lock.value.expires > w.clock
  }

  /** A step keeps every promise covered exactly when it does not shorten a running lease. */
  lemma KeptUnlessShortened(w: World, id: nat)
    requires Inv(w) && Kept(w) && Stored(w) && id in w.calls && CanFinish(w.calls[id])
    ensures Kept(Next(w, Finish(id))) <==> !Shortens(w, Outcome(w, w.calls[id]))
  {
    var c := w.calls[id];
    var w' := Next(w, Finish(id));
    assert CallOk(w, c);
    if Shortens(w, Outcome(w, c)) {
      assert w.lock.value in w'.promises;
    }
  }

  lemma OtherStepsKeep(w: World, a: Action)
    requires Kept(w) && Stored(w) && !a.Finish?
    ensures Kept(Next(w, a)) && Stored(Next(w, a))
  {
  }

  lemma FinishStored(w: World, id: nat)
    requires Inv(w) && Stored(w) && id in w.calls && CanFinish(w.calls[id])
    ensures Stored(Next(w, Finish(id)))
  {
    assert CallOk(w, w.calls[id]);
  }

  /** No call along the run shortens its owner's running lease. */
  ghost predicate NeverShortens(actions: seq<Action>) {
    forall i :: 0 <= i < |actions| ==> var w := Run(actions[..i]);
      actions[i].Finish? && actions[i].call in w.calls && CanFinish(w.calls[actions[i].call]) ==>
        !Shortens(w, Outcome(w, w.calls[actions[i].call]))
  }

  /** Over a run that never shortens a running lease, all unexpired promises ever given belong to one owner. */
  lemma {:induction false} AllPromisesOneOwner(actions: seq<Action>)
    requires NeverShortens(actions)
    ensures Kept(Run(actions)) && Stored(Run(actions))
    ensures var w := Run(actions);
            forall p, q :: p in w.promises && q in w.promises && p.expires > w.clock && q.expires > w.clock ==>
              p.owner == q.owner
  {
    if |actions| > 0 {
      var before, a := actions[..|actions| - 1], actions[|actions| - 1];
      forall i | 0 <= i < |before| ensures before[..i] == actions[..i] {}
      AllPromisesOneOwner(before);
      RunInv(before);
      var w := Run(before);
      if !a.Finish? { OtherStepsKeep(w, a); }
      else if a.call in w.calls && CanFinish(w.calls[a.call]) {
        KeptUnlessShortened(w, a.call);
        FinishStored(w, a.call);
      }
    }
  }

  lemma Then(actions: seq<Action>, a: Action)
    ensures Run(actions + [a]) == Next(Run(actions), a)
  {
    assert (actions + [a])[..|actions|] == actions;
  }

  /** The call is under way with its time taken and the lock read, and nothing else has changed. */
  ghost predicate Underway(w: World, w': World, id: nat, kind: Kind, owner: string, ttl: int) {
    w' == w.(calls := w.calls[id := Call(kind, owner, ttl, Some(w.clock), Some(Seen(w.version, w.lock)))])
  }

  lemma GetsUnderway(w: World, id: nat, kind: Kind, owner: string, ttl: int, second: Action, third: Action)
    requires second == if kind == Refresh then Read(id) else Sample(id)
    requires third == if kind == Refresh then Sample(id) else Read(id)
    ensures Underway(w, Next(Next(Next(w, Start(id, kind, owner, ttl)), second), third), id, kind, owner, ttl)
  {
    var w1 := Next(w, Start(id, kind, owner, ttl));
    var w2 := Next(w1, second);
    assert w1.calls[id] == Call(kind, owner, ttl, None, None);
    assert w2.calls == w.calls[id := w2.calls[id]];
  }

  lemma FinishesAlone(w: World, w3: World, id: nat, kind: Kind, owner: string, ttl: int)
    requires id !in w.calls && Underway(w, w3, id, kind, owner, ttl)
    ensures Next(w3, Finish(id)) == Commit(w, owner, Decide(kind, w.lock, owner, w.clock, ttl))
  {
    assert w3.calls - {id} == w.calls;
  }

  /** A call that runs without interruption, as every call of the memory form does, decides on the
      lock as it is and never meets a conflict. */
  lemma WholeCall(actions: seq<Action>, id: nat, kind: Kind, owner: string, ttl: int) returns (longer: seq<Action>)
    requires id !in Run(actions).calls
    ensures |longer| == |actions| + 4 && longer[..|actions|] == actions && longer[|actions| + 3] == Finish(id)
    ensures Run(longer) == Commit(Run(actions), owner, Decide(kind, Run(actions).lock, owner, Run(actions).clock, ttl))
  {
    var first := Start(id, kind, owner, ttl);
    var second := if kind == Refresh then Read(id) else Sample(id);
    var third := if kind == Refresh then Sample(id) else Read(id);
    var a1 := actions + [first];
    var a2 := a1 + [second];
    var a3 := a2 + [third];
    longer := a3 + [Finish(id)];
    Then(actions, first); Then(a1, second); Then(a2, third); Then(a3, Finish(id));
    GetsUnderway(Run(actions), id, kind, owner, ttl, second, third);
    FinishesAlone(Run(actions), Run(a3), id, kind, owner, ttl);
  }

  /** Otherwise two owners can hold unexpired promises: an acquire of A that was timed before A's
      longer lease began but is stored after it shortens that lease, and B takes over early. */
  lemma ShorteningBreaksPromises() returns (actions: seq<Action>)
    ensures var w := Run(actions);
            exists p, q :: p in w.promises && q in w.promises && p.expires > w.clock && q.expires > w.clock &&
                           p.owner != q.owner
    ensures !NeverShortens(actions)
  {
    var slow := [Start(0, Acquire, "A", 5), Sample(0)];
    Then([], Start(0, Acquire, "A", 5)); Then([Start(0, Acquire, "A", 5)], Sample(0));
    assert [] + [Start(0, Acquire, "A", 5)] == [Start(0, Acquire, "A", 5)];
    assert slow == [Start(0, Acquire, "A", 5)] + [Sample(0)];
    var long := WholeCall(slow, 1, Acquire, "A", 20);
    Then(long, Read(0));
    var read := long + [Read(0)];
    Then(read, Finish(0));
    var shortened := read + [Finish(0)];
    Then(shortened, Tick(6));
    var later := shortened + [Tick(6)];
    actions := WholeCall(later, 2, Acquire, "B", 5);
    var w := Run(actions);
    assert LockValue("A", 20) in w.promises && LockValue("B", 11) in w.promises && w.clock == 6;
    if NeverShortens(actions) { AllPromisesOneOwner(actions); }
  }
}
