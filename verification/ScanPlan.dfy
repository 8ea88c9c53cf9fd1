/** Plans for scans in rounds with a doubling limit. */
module ScanPlan {
  /** Limit of the first round, number of rounds, and largest limit. */
  datatype Plan = Plan(base: nat, rounds: nat, adaptiveMax: nat)

  function ResolvePlan(base: int, rounds: int, adaptiveMax: int, fallback: nat): (p: Plan)
    requires fallback > 0
    ensures 0 < p.base <= p.adaptiveMax && 1 <= p.rounds <= 16
    ensures 0 < base <= adaptiveMax && 1 <= rounds <= 16 ==> p == Plan(base, rounds, adaptiveMax)
    ensures base > 0 ==> p.base == base
    ensures base <= 0 ==> p.base == fallback
    ensures rounds <= 0 ==> p.rounds == 1
    ensures rounds > 16 ==> p.rounds == 16
    ensures adaptiveMax > p.base ==> p.adaptiveMax == adaptiveMax
    ensures adaptiveMax <= p.base ==> p.adaptiveMax == p.base
  {
    var b: nat := if base <= 0 then fallback else base;
    Plan(b, if rounds <= 0 then 1 else if rounds > 16 then 16 else rounds, if adaptiveMax < b then b else adaptiveMax)
  }

  function NextLimit(limit: nat, adaptiveMax: nat): nat {
    if limit < adaptiveMax then (if limit * 2 > adaptiveMax then adaptiveMax else limit * 2) else limit
  }

  /** The most the rounds can visit: the sum of their limits. */
  function Budget(limit: nat, rounds: nat, adaptiveMax: nat): nat
    decreases rounds
  {
    if rounds == 0 then 0 else limit + Budget(NextLimit(limit, adaptiveMax), rounds - 1, adaptiveMax)
  }

  function Pow2(n: nat): nat { if n == 0 then 1 else 2 * Pow2(n - 1) }

  /** As long as the doubled limits stay within the largest, n rounds visit 2^n - 1 times the first
      limit; from the largest limit on each round adds the same. */
  lemma {:induction false} BudgetDoubles(limit: nat, rounds: nat, adaptiveMax: nat)
    ensures rounds > 0 && limit * Pow2(rounds - 1) <= adaptiveMax ==>
              Budget(limit, rounds, adaptiveMax) == limit * (Pow2(rounds) - 1)
    ensures limit >= adaptiveMax ==> Budget(limit, rounds, adaptiveMax) == limit * rounds
    decreases rounds
  {
    if rounds > 0 {
      BudgetDoubles(NextLimit(limit, adaptiveMax), rounds - 1, adaptiveMax);
      if rounds > 1 && limit * Pow2(rounds - 1) <= adaptiveMax { BudgetStep(limit, rounds, adaptiveMax); }
    }
  }

  lemma BudgetStep(limit: nat, rounds: nat, adaptiveMax: nat)
    requires rounds > 1 && limit * Pow2(rounds - 1) <= adaptiveMax
    ensures NextLimit(limit, adaptiveMax) == 2 * limit || limit == 0
    ensures NextLimit(limit, adaptiveMax) * Pow2(rounds - 2) <= adaptiveMax
    ensures limit + NextLimit(limit, adaptiveMax) * (Pow2(rounds - 1) - 1) == limit * (Pow2(rounds) - 1)
  {
    var p := Pow2(rounds - 2);
    Pow2Positive(rounds - 2);
    assert Pow2(rounds - 1) == 2 * p && Pow2(rounds) == 4 * p;
    Products(limit, p, limit * p);
  }

  lemma Products(limit: nat, p: nat, product: nat)
    requires p >= 1 && product == limit * p
    ensures limit * (2 * p) == 2 * product && (2 * limit) * p == 2 * product && product >= limit
    ensures (2 * limit) * (2 * p - 1) == 4 * product - 2 * limit && limit * (4 * p - 1) == 4 * product - limit
  {
    assert product - limit == limit * (p - 1);
  }

  lemma {:induction false} Pow2Positive(n: nat)
    ensures Pow2(n) >= 1
  {
    if n > 0 { Pow2Positive(n - 1); }
  }

  method DoubledLimit(limit: nat, adaptiveMax: nat) returns (next: nat)
    requires limit > 0
    ensures next == NextLimit(limit, adaptiveMax) && next > 0
    ensures limit >= adaptiveMax ==> next == limit
    ensures limit < adaptiveMax && 2 * limit <= adaptiveMax ==> next == 2 * limit
    ensures limit < adaptiveMax && 2 * limit > adaptiveMax ==> next == adaptiveMax
  {
    next := limit;
    if limit < adaptiveMax {
      next := limit * 2;
      if next > adaptiveMax { next := adaptiveMax; }
    }
  }
}
