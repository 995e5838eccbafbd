/** Basis-point and fee arithmetic of the ledger. The source computes the
    investor grant, the admin fee and each holder's payout in floating point
    and floors the result; here each is the exact integer floor of the same
    ratio (Dafny's `/` floors when the divisor is positive). */
module Equity {
  import opened LedgerTypes

  /** Every active admin receives 1.5% of each new company. */
  const AdminBpsPerAdmin: nat := 150
  /** 100% of a cap table, plus one basis point of rounding slack. */
  const EquityCapBps: nat := 10001
  /** The admin fee is 1.5% (15 per mille) of the gross, per admin. */
  const AdminFeePerMille: nat := 15

  /** Sum of the basis points requested by the founder allocations. */
  function SumFounderBps(fs: seq<FounderAllocation>): (total: nat)
    decreases |fs|
  {
    if fs == [] then 0 else SumFounderBps(fs[..|fs| - 1]) + fs[|fs| - 1].basisPoints
  }

  /** The cap-table check of company creation. */
  predicate CapTableFits(founderBps: int, investorPoolBps: int, adminCount: nat)
  {
    founderBps + investorPoolBps + AdminBpsPerAdmin * adminCount <= EquityCapBps
  }

  /** Basis points granted for investing `amount` against `fundingGoal`:
      the floor of `investorPoolBps * (amount / fundingGoal)`. */
  function GrantedBps(investorPoolBps: nat, amount: int, fundingGoal: nat): (bps: int)
    requires fundingGoal > 0
    ensures bps * fundingGoal <= investorPoolBps * amount < (bps + 1) * fundingGoal
    ensures amount >= 0 ==> bps >= 0
    ensures 0 <= amount <= fundingGoal ==> bps <= investorPoolBps
  {
    var q := investorPoolBps * amount / fundingGoal;
    assert 0 <= amount <= fundingGoal ==> q <= investorPoolBps by {
      if 0 <= amount <= fundingGoal {
        MulLeMul(investorPoolBps, amount, fundingGoal);
        FloorBelow(investorPoolBps * amount, fundingGoal, investorPoolBps);
      }
    }
    q
  }

  /** The investor-pool guard, as the source evaluates it in floating point:
      with a zero funding goal the ratio is +Infinity when the pool is
      non-empty (the guard fails) and NaN when it is empty (every comparison
      with NaN is false, so the guard passes). */
  predicate PoolCheckPasses(investorPoolBps: nat, allocatedInvestorBps: int, amount: int, fundingGoal: nat)
    requires amount > 0
  {
    if fundingGoal > 0 then GrantedBps(investorPoolBps, amount, fundingGoal) <= investorPoolBps - allocatedInvestorBps
    else investorPoolBps == 0
  }

  /** Per-admin fee: the floor of 1.5% of the gross amount. */
  function AdminFeePerAdmin(grossAmount: int): (fee: int)
    ensures fee * 1000 <= grossAmount * AdminFeePerMille < fee * 1000 + 1000
    ensures grossAmount >= 0 ==> fee >= 0
  {
    grossAmount * AdminFeePerMille / 1000
  }

  /** A holder's payout: the floor of `(bps / totalBps) * distributable`. */
  function HolderShare(bps: int, totalBps: int, distributable: int): (share: int)
    requires totalBps > 0
    ensures share * totalBps <= bps * distributable < share * totalBps + totalBps
    ensures bps >= 0 && distributable >= 0 ==> share >= 0
  {
    bps * distributable / totalBps
  }

  /** Sum of the basis points of a list of equity rows. */
  function SumBps(hs: seq<Allocation>): int
    decreases |hs|
  {
    if hs == [] then 0 else SumBps(hs[..|hs| - 1]) + hs[|hs| - 1].basisPoints
  }

  /** Sum of the payouts computed for a list of equity rows, paid or withheld. */
  function SumShares(hs: seq<Allocation>, totalBps: int, distributable: int): int
    requires totalBps > 0
    decreases |hs|
  {
    if hs == [] then 0
    else SumShares(hs[..|hs| - 1], totalBps, distributable) + HolderShare(hs[|hs| - 1].basisPoints, totalBps, distributable)
  }

  predicate AllNonNegative(hs: seq<Allocation>)
  {
    forall i :: 0 <= i < |hs| ==> hs[i].basisPoints >= 0
  }

  // ---- Arithmetic helpers

  lemma MulLeMul(a: nat, b: int, c: int)
    requires b <= c
    ensures a * b <= a * c
  {
  }

  /** A positive factor common to both sides of a strict inequality cancels. */
  lemma CancelFactorStrict(a: int, b: int, d: int)
    requires d > 0 && a * d < b * d
    ensures a < b
  {
  }

  /** If `x <= y * d` then the floor of `x / d` is at most `y`. */
  lemma FloorBelow(x: int, d: int, y: int)
    requires d > 0 && x <= y * d
    ensures x / d <= y
  {
    var q := x / d;
    if q > y {
      assert false;
    }
  }

  /** Both sides of an inequality multiplied by the same positive factor. */
  lemma CancelFactor(a: int, b: int, d: int)
    requires d > 0 && a * d <= b * d
    ensures a <= b
  {
    if a > b {
      assert false;
    }
  }

  // ---- Properties of the arithmetic

  /** The grants of successive investments never exceed the pool: if the
      investor-pool bps already granted are at most the pool's share of the
      funding so far, they stay so after one more investment. */
  lemma {:induction false} GrantKeepsProportion(pool: nat, taken: int, funding: int, amount: int, goal: nat)
    requires goal > 0
    requires taken * goal <= pool * funding
    ensures (taken + GrantedBps(pool, amount, goal)) * goal <= pool * (funding + amount)
  {
    var b := GrantedBps(pool, amount, goal);
    calc {
      (taken + b) * goal;
      taken * goal + b * goal;
    <= pool * funding + pool * amount;
      pool * (funding + amount);
    }
  }

  /** Within the funding headroom the pool guard always passes: an investment
      that keeps `currentFunding <= fundingGoal` is always granted bps that fit
      in the rest of the pool, so the guard only fails past the funding cap. */
  lemma {:induction false} HeadroomImpliesPoolRoom(pool: nat, taken: int, funding: int, amount: int, goal: nat)
    requires amount > 0
    requires 0 <= funding && funding + amount <= goal
    requires taken * goal <= pool * funding
    ensures PoolCheckPasses(pool, taken, amount, goal)
  {
    var b := GrantedBps(pool, amount, goal);
    GrantKeepsProportion(pool, taken, funding, amount, goal);
    MulLeMul(pool, funding + amount, goal);
    assert (taken + b) * goal <= pool * goal;
    CancelFactor(taken + b, pool, goal);
  }

  /** The per-admin fee times the number of admins stays within the gross
      amount exactly when there are at most 66 admins, so the distributable
      remainder is never negative for up to 66 admins. */
  lemma {:induction false} AdminShareWithinGross(grossAmount: nat, adminCount: nat)
    requires adminCount <= 66
    ensures AdminFeePerAdmin(grossAmount) * adminCount <= grossAmount
  {
    var fee := AdminFeePerAdmin(grossAmount);
    MulLeMul(fee, adminCount, 66);
    assert fee * 66 * 1000 <= grossAmount * 15 * 66 by {
      assert fee * 1000 <= grossAmount * 15;
    }
    assert fee * 66 * 1000 <= grossAmount * 1000;
    CancelFactor(fee * 66, grossAmount, 1000);
  }

  /** With 67 admins a gross of 1000 leaves a negative remainder. */
  lemma AdminShareCanExceedGross()
    ensures AdminFeePerAdmin(1000) * 67 > 1000
  {
  }

  /** Each share is scaled by the total: the shares of a list of rows sum to
      at most the distributable part of those rows' bps, and lose less than
      one unit per row to rounding. */
  lemma {:induction false} SharesScaled(hs: seq<Allocation>, totalBps: int, distributable: int)
    requires totalBps > 0
    ensures SumShares(hs, totalBps, distributable) * totalBps <= SumBps(hs) * distributable
    ensures SumBps(hs) * distributable <= SumShares(hs, totalBps, distributable) * totalBps + |hs| * (totalBps - 1)
    decreases |hs|
  {
    if hs != [] {
      var init := hs[..|hs| - 1];
      var b := hs[|hs| - 1].basisPoints;
      SharesScaled(init, totalBps, distributable);
      var s0, b0 := SumShares(init, totalBps, distributable), SumBps(init);
      var s := HolderShare(b, totalBps, distributable);
      assert SumShares(hs, totalBps, distributable) == s0 + s;
      assert SumBps(hs) == b0 + b;
      Distribute(s0, s, totalBps);
      Distribute(b0, b, distributable);
      Distribute(|init|, 1, totalBps - 1);
    }
  }

  lemma Distribute(x: int, y: int, k: int)
    ensures (x + y) * k == x * k + y * k
  {
  }

  /** The shares of all holders of a company, paid and withheld together,
      never exceed the distributable amount and fall short of it by less than
      the number of holders. */
  lemma {:induction false} SharesWithinDistributable(hs: seq<Allocation>, distributable: int)
    requires SumBps(hs) > 0
    ensures SumShares(hs, SumBps(hs), distributable) <= distributable
    ensures distributable - |hs| < SumShares(hs, SumBps(hs), distributable)
  {
    var t := SumBps(hs);
    SharesScaled(hs, t, distributable);
    var s := SumShares(hs, t, distributable);
    assert s * t <= distributable * t;
    CancelFactor(s, distributable, t);
    assert hs != [];
    assert distributable * t < (s + |hs|) * t;
    CancelFactorStrict(distributable, s + |hs|, t);
  }

  /** Non-negative rows have a non-negative total, zero only if every row is zero. */
  lemma {:induction false} SumBpsNonNegative(hs: seq<Allocation>)
    requires AllNonNegative(hs)
    ensures SumBps(hs) >= 0
    ensures SumBps(hs) == 0 ==> forall i :: 0 <= i < |hs| ==> hs[i].basisPoints == 0
    decreases |hs|
  {
    if hs != [] {
      SumBpsNonNegative(hs[..|hs| - 1]);
      assert forall i :: 0 <= i < |hs| - 1 ==> hs[..|hs| - 1][i] == hs[i];
    }
  }
}
