/** The pool iterator of a block under construction: it skips what earlier flashblocks committed. */
module BestTransactions {
  import opened Prelude

  type TxHash = nat

  /** What the pool offers next, and what execution makes of it. */
  datatype Offer = Offer(hash: TxHash, executes: bool, receipt: nat)

  function Hashes(offers: seq<Offer>): (r: seq<TxHash>)
    ensures |r| == |offers|
    ensures forall i :: 0 <= i < |r| ==> r[i] == offers[i].hash
  {
    seq(|offers|, i requires 0 <= i < |offers| => offers[i].hash)
  }

  function Receipts(offers: seq<Offer>): (r: seq<nat>)
    ensures |r| == |offers|
    ensures forall i :: 0 <= i < |r| ==> r[i] == offers[i].receipt
  {
    seq(|offers|, i requires 0 <= i < |offers| => offers[i].receipt)
  }

  lemma HashesConcat(xs: seq<Offer>, ys: seq<Offer>)
    ensures Hashes(xs + ys) == Hashes(xs) + Hashes(ys)
    ensures Receipts(xs + ys) == Receipts(xs) + Receipts(ys)
  {
  }

  function Elements(txs: seq<TxHash>): set<TxHash> {
    set h | h in txs
  }

  /** The offers an iterator yields: those not committed yet, in order. */
  function Uncommitted(offers: seq<Offer>, committed: set<TxHash>): seq<Offer> {
    if offers == [] then []
    else (if offers[0].hash in committed then [] else [offers[0]]) + Uncommitted(offers[1..], committed)
  }

  lemma {:induction false} UncommittedAre(offers: seq<Offer>, committed: set<TxHash>, x: Offer)
    ensures x in Uncommitted(offers, committed) <==> x in offers && x.hash !in committed
  {
    if offers != [] {
      UncommittedAre(offers[1..], committed, x);
      assert offers == [offers[0]] + offers[1..];
    }
  }

  /** The offers that execution accepts, in order. */
  function Executing(offers: seq<Offer>): seq<Offer> {
    if offers == [] then []
    else
      var last := offers[|offers| - 1];
      Executing(offers[..|offers| - 1]) + if last.executes then [last] else []
  }

  lemma {:induction false} ExecutingAre(offers: seq<Offer>, x: Offer)
    ensures x in Executing(offers) <==> x in offers && x.executes
  {
    if offers != [] {
      ExecutingAre(offers[..|offers| - 1], x);
      assert offers == offers[..|offers| - 1] + [offers[|offers| - 1]];
    }
  }

  class BestFlashblocksTxs {
    var inner: seq<Offer>
    var currentFlashblockNumber: nat
    var committed: set<TxHash>

    constructor (offers: seq<Offer>)
      ensures inner == offers && currentFlashblockNumber == 0 && committed == {}
    {
      inner, currentFlashblockNumber, committed := offers, 0, {};
    }

    method RefreshIterator(offers: seq<Offer>, flashblock: nat)
      modifies this
      ensures inner == offers && currentFlashblockNumber == flashblock && committed == old(committed)
    {
      inner, currentFlashblockNumber := offers, flashblock;
    }

    method MarkCommitted(txs: seq<TxHash>)
      modifies this`committed
      ensures committed == old(committed) + Elements(txs)
    {
      for n := 0 to |txs|
        invariant committed == old(committed) + Elements(txs[..n])
      {
        assert txs[..n + 1] == txs[..n] + [txs[n]];
        committed := committed + {txs[n]};
      }
      assert txs[..|txs|] == txs;
    }

    /** The first offer that is not committed; everything before it is passed over for good. */
    method Next() returns (tx: Option<Offer>)
      modifies this`inner
      ensures |inner| <= |old(inner)| && inner == old(inner)[|old(inner)| - |inner|..]
      ensures tx.None? ==> inner == [] && Uncommitted(old(inner), committed) == []
      ensures tx.Some? ==> |inner| < |old(inner)| && tx.value.hash !in committed
      ensures tx.Some? ==> Uncommitted(old(inner), committed) == [tx.value] + Uncommitted(inner, committed)
    {
      while true
        invariant |inner| <= |old(inner)| && inner == old(inner)[|old(inner)| - |inner|..]
        invariant Uncommitted(inner, committed) == Uncommitted(old(inner), committed)
        decreases |inner|
      {
        if inner == [] { return None; }
        var first := inner[0];
        inner := inner[1..];
        if first.hash in committed { continue; }
        return Some(first);
      }
    }
  }
}

/** Building one payload as a sequence of flashblocks: slices of one growing transaction list, published one
    after another under cumulative budgets. Execution, signals and the outcome of every send are left open. */
module Flashblocks {
  import opened Prelude
  import opened BestTransactions

  /** Block-level limits. */
  datatype Limits = Limits(blockGas: nat, maxDa: Option<nat>, footprintScalar: Option<nat>)

  datatype Flashblock = Flashblock(index: nat, txs: seq<TxHash>, receipts: seq<nat>)

  /** What the outside world does in one round of the loop. */
  datatype Round = Round(
    topBuilderTxs: seq<Offer>, reservedGas: nat, reservedDa: nat,
    offers: seq<Offer>, executionFails: bool, cancelled: bool,
    bottomBuilderTxs: seq<Offer>, sealFails: bool, publishFails: bool, sendFails: bool)

  /** All a payload job is given: limits, the fallback block, and one round per build signal. */
  datatype Plan = Plan(
    limits: Limits, target: nat, preSteps: seq<Offer>, builderTxs: seq<Offer>,
    sealFails: bool, sendFails: bool, publishFails: bool, rounds: seq<Round>)

  datatype Outcome = Built | Cancelled | Failed

  // ---------------------------------------------------------------------------------------------
  // Budgets
  // ---------------------------------------------------------------------------------------------

  datatype FbState = FbState(index: nat, targetCount: nat,
                             targetGas: nat, targetDa: Option<nat>, targetFootprint: Option<nat>,
                             gasPerBatch: nat, daPerBatch: Option<nat>, footprintPerBatch: Option<nat>,
                             lastTxIndex: nat)

  function Share(limit: Option<nat>, count: nat): Option<nat>
    requires count >= 1
  {
    match limit
    case Some(l) => Some(l / count)
    case None => None
  }

  /** The footprint limit is the gas limit, and only there if footprints are metered. */
  function FootprintLimit(limits: Limits): Option<nat> {
    if limits.footprintScalar.Some? then Some(limits.blockGas) else None
  }

  function Lowered(target: Option<nat>, less: nat): Option<nat> {
    match target
    case Some(t) => Some(SaturatingSub(t, less))
    case None => None
  }

  function Raised(target: Option<nat>, share: Option<nat>): Option<nat> {
    if target.Some? && share.Some? then Some(target.value + share.value) else target
  }

  /** What the builder's own transactions take off the footprint budget. */
  function ReservedFootprint(limits: Limits, r: Round): nat {
    match limits.footprintScalar
    case Some(scalar) => Min(r.reservedDa * scalar, U64_BOUND - 1)
    case None => 0
  }

  /** The DA and footprint budgets carried to flashblock `n + 1`: a share more each time, less what the builder's
      own transactions reserved before. */
  function CarriedDa(limits: Limits, count: nat, rounds: seq<Round>, n: nat): Option<nat>
    requires count >= 1 && n <= |rounds|
  {
    if n == 0 then Share(limits.maxDa, count)
    else
      Raised(Lowered(CarriedDa(limits, count, rounds, n - 1), rounds[n - 1].reservedDa), Share(limits.maxDa, count))
  }

  function CarriedFootprint(limits: Limits, count: nat, rounds: seq<Round>, n: nat): Option<nat>
    requires count >= 1 && n <= |rounds|
  {
    if n == 0 then Share(FootprintLimit(limits), count)
    else
      Raised(Lowered(CarriedFootprint(limits, count, rounds, n - 1), ReservedFootprint(limits, rounds[n - 1])),
             Share(FootprintLimit(limits), count))
  }

  /** The builder's state before round `n`, with `done` transactions already cut into slices. */
  function StateAt(limits: Limits, count: nat, rounds: seq<Round>, n: nat, done: nat): FbState
    requires count >= 1 && n <= |rounds|
  {
    FbState(n + 1, count,
            (n + 1) * (limits.blockGas / count), CarriedDa(limits, count, rounds, n),
            CarriedFootprint(limits, count, rounds, n),
            limits.blockGas / count, Share(limits.maxDa, count), Share(FootprintLimit(limits), count), done)
  }

  /** From one flashblock to the next: gas grows by its share, the others by theirs less what was reserved. */
  lemma StateCarries(limits: Limits, count: nat, rounds: seq<Round>, n: nat, done: nat)
    requires count >= 1 && n < |rounds|
    ensures var fb := StateAt(limits, count, rounds, n, done);
            StateAt(limits, count, rounds, n + 1, done) ==
            fb.(index := fb.index + 1, targetGas := fb.targetGas + fb.gasPerBatch,
                targetDa := Raised(Lowered(fb.targetDa, rounds[n].reservedDa), fb.daPerBatch),
                targetFootprint := Raised(Lowered(fb.targetFootprint, ReservedFootprint(limits, rounds[n])),
                                          fb.footprintPerBatch))
  {
    var share := limits.blockGas / count;
    assert (n + 2) * share == (n + 1) * share + share;
  }

  /** The budget one flashblock's pool pass runs under: what was carried to it, and what is left of it after
      the builder's own transactions. */
  datatype Allowance = Allowance(
    index: nat, carriedGas: nat, carriedDa: Option<nat>, carriedFootprint: Option<nat>,
    gas: nat, da: Option<nat>, footprint: Option<nat>)

  function AllowanceOf(limits: Limits, fb: FbState, r: Round): Allowance {
    Allowance(fb.index, fb.targetGas, fb.targetDa, fb.targetFootprint,
              Min(SaturatingSub(fb.targetGas, r.reservedGas), limits.blockGas), Lowered(fb.targetDa, r.reservedDa),
              Lowered(fb.targetFootprint, ReservedFootprint(limits, r)))
  }

  /** At most `i` shares, and there exactly if the block limits it. */
  ghost predicate Within(target: Option<nat>, limit: Option<nat>, count: nat, i: nat)
    requires count >= 1
  {
    && (target.Some? <==> limit.Some?)
    && (target.Some? ==> target.value <= i * (limit.value / count))
  }

  lemma WithinNext(target: Option<nat>, limit: Option<nat>, count: nat, i: nat, less: nat)
    requires count >= 1 && Within(target, limit, count, i)
    ensures Within(Lowered(target, less), limit, count, i)
    ensures Within(Raised(Lowered(target, less), Share(limit, count)), limit, count, i + 1)
  {
    if target.Some? {
      var share := limit.value / count;
      assert (i + 1) * share == i * share + share;
    }
  }

  lemma {:induction false} CarriedWithin(limits: Limits, count: nat, rounds: seq<Round>, n: nat)
    requires count >= 1 && n <= |rounds|
    ensures Within(CarriedDa(limits, count, rounds, n), limits.maxDa, count, n + 1)
    ensures Within(CarriedFootprint(limits, count, rounds, n), FootprintLimit(limits), count, n + 1)
  {
    if n > 0 {
      CarriedWithin(limits, count, rounds, n - 1);
      WithinNext(CarriedDa(limits, count, rounds, n - 1), limits.maxDa, count, n, rounds[n - 1].reservedDa);
      WithinNext(CarriedFootprint(limits, count, rounds, n - 1), FootprintLimit(limits), count, n,
                 ReservedFootprint(limits, rounds[n - 1]));
    }
  }

  lemma MoreShares(i: nat, j: nat, share: nat)
    requires i <= j
    ensures i * share <= j * share
  {
  }

  lemma ShareFits(limit: nat, count: nat, i: nat)
    requires 1 <= count && i <= count
    ensures i * (limit / count) <= limit
  {
    assert count * (limit / count) <= limit;
    MoreShares(i, count, limit / count);
  }

  /** Flashblock `i` of `count`: the carried gas is exactly `i` shares; the carried DA and footprint budgets are
      present exactly when the block limits them, and at most `i` shares; what the pool pass gets is no more. */
  ghost predicate WithinBudget(a: Allowance, i: nat, count: nat, limits: Limits) {
    && count >= 1 && a.index == i && a.carriedGas == i * (limits.blockGas / count) && a.gas <= a.carriedGas
    && Within(a.carriedDa, limits.maxDa, count, i)
    && Within(a.carriedFootprint, FootprintLimit(limits), count, i)
    && AtMost(a.da, a.carriedDa) && AtMost(a.footprint, a.carriedFootprint)
  }

  ghost predicate AtMost(a: Option<nat>, b: Option<nat>) {
    (a.Some? <==> b.Some?) && (a.Some? ==> a.value <= b.value)
  }

  /** What is left of a budget: with the reservation it is the whole budget again, or nothing if that did not fit. */
  ghost predicate Leaves(budget: nat, reserved: nat, left: nat) {
    if reserved <= budget then left + reserved == budget else left == 0
  }

  ghost predicate LeavesOf(budget: Option<nat>, reserved: nat, left: Option<nat>) {
    (left.Some? <==> budget.Some?) && (budget.Some? ==> Leaves(budget.value, reserved, left.value))
  }

  /** The footprint of what is reserved: its DA times the scalar, or the largest 64-bit number if that is less. */
  ghost predicate IsFootprint(limits: Limits, da: nat, footprint: nat) {
    limits.footprintScalar.Some? ==>
      var product := da * limits.footprintScalar.value;
      if product < U64_BOUND then footprint == product else footprint + 1 == U64_BOUND
  }

  /** A pool pass of round `r` gets the carried budgets less what the builder reserved, and never more gas than the
      block has. */
  ghost predicate SetsAside(a: Allowance, limits: Limits, r: Round) {
    && (a.carriedGas <= limits.blockGas ==> Leaves(a.carriedGas, r.reservedGas, a.gas)) && a.gas <= limits.blockGas
    && LeavesOf(a.carriedDa, r.reservedDa, a.da)
    && (a.carriedFootprint.Some? <==> limits.footprintScalar.Some?)
    && (forall f: nat :: IsFootprint(limits, r.reservedDa, f) && limits.footprintScalar.Some? ==>
                           LeavesOf(a.carriedFootprint, f, a.footprint))
  }

  lemma AllowanceSetsAside(limits: Limits, count: nat, rounds: seq<Round>, n: nat, done: nat)
    requires count >= 1 && n < |rounds|
    ensures SetsAside(AllowanceOf(limits, StateAt(limits, count, rounds, n, done), rounds[n]), limits, rounds[n])
  {
    CarriedWithin(limits, count, rounds, n);
  }

  // ---------------------------------------------------------------------------------------------
  // Conservation of the carried budgets
  // ---------------------------------------------------------------------------------------------

  /** What is in a budget that gets `share` at the start and after each reservation. */
  function Refilled(share: nat, reserved: seq<nat>): nat {
    if reserved == [] then share
    else
      var before, last := Refilled(share, reserved[..|reserved| - 1]), reserved[|reserved| - 1];
      if last <= before then before - last + share else share
  }

  function SumOf(xs: seq<nat>): nat {
    if xs == [] then 0 else SumOf(xs[..|xs| - 1]) + xs[|xs| - 1]
  }

  /** Every reservation fits what is there when it is made. */
  ghost predicate AllFit(share: nat, reserved: seq<nat>) {
    forall k :: 0 <= k < |reserved| ==> reserved[k] <= Refilled(share, reserved[..k])
  }

  lemma AllFitSnoc(share: nat, reserved: seq<nat>)
    requires reserved != []
    ensures var front := reserved[..|reserved| - 1];
            AllFit(share, reserved) <==>
            AllFit(share, front) && reserved[|reserved| - 1] <= Refilled(share, front)
  {
    var n := |reserved| - 1;
    var front := reserved[..n];
    assert forall k :: 0 <= k <= n ==> front[..k] == reserved[..k];
    assert reserved[..n] == front;
    if AllFit(share, front) && reserved[n] <= Refilled(share, front) {
      forall k | 0 <= k < |reserved| ensures reserved[k] <= Refilled(share, reserved[..k]) {
        if k < n { assert front[k] == reserved[k]; }
      }
    }
    if AllFit(share, reserved) {
      forall k | 0 <= k < n ensures front[k] <= Refilled(share, front[..k]) {
        assert front[k] == reserved[k];
      }
    }
  }

  /** Nothing of a budget is lost: with all reservations it is at least the shares given out, and exactly those iff
      every reservation fitted. */
  lemma {:induction false} Conserved(share: nat, reserved: seq<nat>)
    ensures Refilled(share, reserved) + SumOf(reserved) >= (|reserved| + 1) * share
    ensures Refilled(share, reserved) + SumOf(reserved) == (|reserved| + 1) * share <==> AllFit(share, reserved)
  {
    if reserved != [] {
      var n := |reserved| - 1;
      Conserved(share, reserved[..n]);
      AllFitSnoc(share, reserved);
      assert (n + 2) * share == (n + 1) * share + share;
    }
  }

  function ReservedDas(rounds: seq<Round>, n: nat): seq<nat>
    requires n <= |rounds|
  {
    seq(n, k requires 0 <= k < n => rounds[k].reservedDa)
  }

  function ReservedFootprints(limits: Limits, rounds: seq<Round>, n: nat): seq<nat>
    requires n <= |rounds|
  {
    seq(n, k requires 0 <= k < n => ReservedFootprint(limits, rounds[k]))
  }

  /** The carried budgets are a share of the DA limit, or of the gas limit for footprints, refilled each time. */
  lemma {:induction false} CarriedIs(limits: Limits, count: nat, rounds: seq<Round>, n: nat)
    requires count >= 1 && n <= |rounds|
    ensures CarriedDa(limits, count, rounds, n) ==
            if limits.maxDa.Some? then Some(Refilled(limits.maxDa.value / count, ReservedDas(rounds, n))) else None
    ensures CarriedFootprint(limits, count, rounds, n) ==
            if limits.footprintScalar.Some?
            then Some(Refilled(limits.blockGas / count, ReservedFootprints(limits, rounds, n))) else None
  {
    if n > 0 {
      CarriedIs(limits, count, rounds, n - 1);
      assert ReservedDas(rounds, n)[..n - 1] == ReservedDas(rounds, n - 1);
      assert ReservedFootprints(limits, rounds, n)[..n - 1] == ReservedFootprints(limits, rounds, n - 1);
    }
  }

  /** The DA budget carried to a flashblock and everything reserved before it make up the shares given out, exactly
      iff every reservation fitted. */
  lemma DaConserved(limits: Limits, count: nat, rounds: seq<Round>, n: nat)
    requires count >= 1 && n <= |rounds| && limits.maxDa.Some?
    ensures var share, reserved := limits.maxDa.value / count, ReservedDas(rounds, n);
            && CarriedDa(limits, count, rounds, n).Some?
            && CarriedDa(limits, count, rounds, n).value + SumOf(reserved) >= (n + 1) * share
            && (CarriedDa(limits, count, rounds, n).value + SumOf(reserved) == (n + 1) * share <==>
                  AllFit(share, reserved))
  {
    CarriedIs(limits, count, rounds, n);
    Conserved(limits.maxDa.value / count, ReservedDas(rounds, n));
  }

  /** The same for footprints, a share of the gas limit each. */
  lemma FootprintConserved(limits: Limits, count: nat, rounds: seq<Round>, n: nat)
    requires count >= 1 && n <= |rounds| && limits.footprintScalar.Some?
    ensures var share, reserved := limits.blockGas / count, ReservedFootprints(limits, rounds, n);
            && CarriedFootprint(limits, count, rounds, n).Some?
            && CarriedFootprint(limits, count, rounds, n).value + SumOf(reserved) >= (n + 1) * share
            && (CarriedFootprint(limits, count, rounds, n).value + SumOf(reserved) == (n + 1) * share <==>
                  AllFit(share, reserved))
            && forall k :: 0 <= k < n ==> IsFootprint(limits, rounds[k].reservedDa, reserved[k])
  {
    CarriedIs(limits, count, rounds, n);
    Conserved(limits.blockGas / count, ReservedFootprints(limits, rounds, n));
  }

  /** Up to the target, every budget is within the block's own limit. */
  lemma AllowanceFitsBlock(a: Allowance, i: nat, count: nat, limits: Limits)
    requires WithinBudget(a, i, count, limits) && i <= count
    ensures a.gas <= a.carriedGas <= limits.blockGas
    ensures AtMost(a.da, a.carriedDa) && AtMost(a.carriedDa, limits.maxDa)
    ensures AtMost(a.footprint, a.carriedFootprint) && AtMost(a.carriedFootprint, FootprintLimit(limits))
  {
    ShareFits(limits.blockGas, count, i);
    if limits.maxDa.Some? { ShareFits(limits.maxDa.value, count, i); }
  }

  lemma AllowanceWithin(limits: Limits, count: nat, rounds: seq<Round>, n: nat, done: nat)
    requires count >= 1 && n < |rounds|
    ensures WithinBudget(AllowanceOf(limits, StateAt(limits, count, rounds, n, done), rounds[n]), n + 1, count, limits)
  {
    CarriedWithin(limits, count, rounds, n);
  }

  /** The shares given out to all flashblocks plus one more: what is carried past the last one. */
  function PastTarget(limit: nat, count: nat): nat
    requires count >= 1
  {
    limit - limit % count + limit / count
  }

  lemma SharesCarried(limit: nat, count: nat, i: nat)
    requires 1 <= count && i <= count + 1
    ensures i <= count ==> i * (limit / count) <= limit
    ensures i == count + 1 ==> i * (limit / count) == PastTarget(limit, count)
    ensures i * (limit / count) <= PastTarget(limit, count)
  {
    var share := limit / count;
    assert limit == count * share + limit % count;
    assert (count + 1) * share == count * share + share;
    MoreShares(i, count + 1, share);
    if i <= count { MoreShares(i, count, share); }
  }

  ghost predicate Fits64(fb: FbState) {
    && fb.targetGas < U64_BOUND
    && (fb.targetDa.Some? ==> fb.targetDa.value < U64_BOUND)
    && (fb.targetFootprint.Some? ==> fb.targetFootprint.value < U64_BOUND)
  }

  /** The shares given out plus one more fit 64 bits, for gas and for DA. */
  ghost predicate RoomPastTarget(limits: Limits, count: nat)
    requires count >= 1
  {
    && PastTarget(limits.blockGas, count) < U64_BOUND
    && (limits.maxDa.Some? ==> PastTarget(limits.maxDa.value, count) < U64_BOUND)
  }

  /** Up to the target every carried budget fits 64 bits, and one carried past it does if there is room. */
  lemma CarriedBudgetsFit64(limits: Limits, count: nat, rounds: seq<Round>, n: nat, done: nat)
    requires count >= 1 && n <= |rounds| && n <= count
    requires limits.blockGas < U64_BOUND && (limits.maxDa.Some? ==> limits.maxDa.value < U64_BOUND)
    ensures n < count ==> Fits64(StateAt(limits, count, rounds, n, done))
    ensures RoomPastTarget(limits, count) ==> Fits64(StateAt(limits, count, rounds, n, done))
  {
    CarriedWithin(limits, count, rounds, n);
    SharesCarried(limits.blockGas, count, n + 1);
    if limits.maxDa.Some? { SharesCarried(limits.maxDa.value, count, n + 1); }
  }

  ghost predicate NothingReserved(rounds: seq<Round>) {
    forall k :: 0 <= k < |rounds| ==> rounds[k].reservedDa == 0
  }

  /** Without reservations the DA budget is exactly its shares. */
  lemma {:induction false} UnreservedDa(limits: Limits, count: nat, rounds: seq<Round>, n: nat)
    requires count >= 1 && n <= |rounds| && NothingReserved(rounds) && limits.maxDa.Some?
    ensures CarriedDa(limits, count, rounds, n) == Some((n + 1) * (limits.maxDa.value / count))
  {
    if n > 0 {
      UnreservedDa(limits, count, rounds, n - 1);
      var share := limits.maxDa.value / count;
      assert (n + 1) * share == n * share + share;
    }
  }

  /** The budgets carried past the last flashblock, which none runs under, fit 64 bits whatever the rounds reserve
      exactly when the shares given out plus one more do. */
  lemma PastTargetFitsIff(limits: Limits, count: nat, idle: Round)
    requires count >= 1 && idle.reservedDa == 0
    requires limits.blockGas < U64_BOUND && (limits.maxDa.Some? ==> limits.maxDa.value < U64_BOUND)
    ensures (forall rounds, done :: |rounds| == count ==> Fits64(StateAt(limits, count, rounds, count, done)))
       <==> RoomPastTarget(limits, count)
  {
    if RoomPastTarget(limits, count) {
      forall rounds, done | |rounds| == count ensures Fits64(StateAt(limits, count, rounds, count, done)) {
        CarriedBudgetsFit64(limits, count, rounds, count, done);
      }
    } else {
      var rounds := seq(count, _ => idle);
      SharesCarried(limits.blockGas, count, count + 1);
      if limits.maxDa.Some? {
        UnreservedDa(limits, count, rounds, count);
        SharesCarried(limits.maxDa.value, count, count + 1);
      }
      assert !Fits64(StateAt(limits, count, rounds, count, 0));
    }
  }

  /** The largest block limit does overflow, after a single flashblock. */
  lemma LargestLimitOverflows(limits: Limits, r: Round, done: nat)
    requires limits.blockGas == U64_BOUND - 1
    ensures StateAt(limits, 1, [r], 1, done).targetGas == 2 * (U64_BOUND - 1)
    ensures !Fits64(StateAt(limits, 1, [r], 1, done))
  {
  }

  // ---------------------------------------------------------------------------------------------
  // What a job does, from what it is given
  // ---------------------------------------------------------------------------------------------

  /** How a round ends. */
  function OutcomeOf(r: Round): Outcome {
    if r.executionFails then Failed
    else if r.cancelled then Cancelled
    else if r.sealFails || r.publishFails || r.sendFails then Failed
    else Built
  }

  /** The round gets as far as sealing its block. */
  predicate Seals(r: Round) {
    !r.executionFails && !r.cancelled
  }

  /** Its flashblock reaches the subscribers. */
  predicate Publishes(r: Round) {
    Seals(r) && !r.sealFails && !r.publishFails
  }

  /** Published, but not handed to the payload handler. */
  predicate HandOverFailed(r: Round) {
    Publishes(r) && r.sendFails
  }

  /** What is committed before round `n`, if all earlier ones came through. */
  function Committed(rounds: seq<Round>, n: nat): set<TxHash>
    requires n <= |rounds|
    decreases n, 0
  {
    if n == 0 then {} else Committed(rounds, n - 1) + Elements(Hashes(Filled(rounds, n - 1)))
  }

  /** What the pool iterator yields in round `n`. */
  function Yielded(rounds: seq<Round>, n: nat): seq<Offer>
    requires n < |rounds|
    decreases n, 1
  {
    Uncommitted(rounds[n].offers, Committed(rounds, n))
  }

  /** What round `n` executes up to the commit marks: the builder's own first, then from the pool. */
  function Filled(rounds: seq<Round>, n: nat): seq<Offer>
    requires n < |rounds|
    decreases n, 2
  {
    rounds[n].topBuilderTxs + Executing(Yielded(rounds, n))
  }

  /** All that round `n` executes. */
  function Work(rounds: seq<Round>, n: nat): seq<Offer>
    requires n < |rounds|
  {
    Filled(rounds, n) + if Seals(rounds[n]) then rounds[n].bottomBuilderTxs else []
  }

  function WorkUpTo(first: seq<Offer>, rounds: seq<Round>, n: nat): seq<Offer>
    requires n <= |rounds|
  {
    if n == 0 then first else WorkUpTo(first, rounds, n - 1) + Work(rounds, n - 1)
  }

  function Slice(index: nat, work: seq<Offer>): Flashblock {
    Flashblock(index, Hashes(work), Receipts(work))
  }

  /** The fallback block and the first `n` rounds, one flashblock each. */
  function PublishedUpTo(first: seq<Offer>, rounds: seq<Round>, n: nat): seq<Flashblock>
    requires n <= |rounds|
  {
    if n == 0 then [Slice(0, first)] else PublishedUpTo(first, rounds, n - 1) + [Slice(n, Work(rounds, n - 1))]
  }

  /** Rounds played from `n` on: up to and including the first that does not come through, at most the target. */
  function PlayedFrom(rounds: seq<Round>, target: nat, n: nat): nat
    requires n <= |rounds| && n <= target
    decreases |rounds| - n
  {
    if n == |rounds| || n == target then n
    else if !OutcomeOf(rounds[n]).Built? then n + 1
    else PlayedFrom(rounds, target, n + 1)
  }

  ghost predicate AllBuilt(rounds: seq<Round>, n: nat)
    requires n <= |rounds|
  {
    forall k :: 0 <= k < n ==> OutcomeOf(rounds[k]).Built?
  }

  predicate FallbackFails(p: Plan) {
    p.sealFails || p.sendFails || p.publishFails
  }

  function First(p: Plan): seq<Offer> {
    p.preSteps + p.builderTxs
  }

  function Played(p: Plan): (n: nat)
    ensures n <= |p.rounds| && n <= p.target
  {
    if FallbackFails(p) then 0 else PlayedWithin(p.rounds, p.target, 0); PlayedFrom(p.rounds, p.target, 0)
  }

  lemma {:induction false} PlayedWithin(rounds: seq<Round>, target: nat, n: nat)
    requires n <= |rounds| && n <= target && AllBuilt(rounds, n)
    ensures IsPlayed(rounds, target, PlayedFrom(rounds, target, n))
    decreases |rounds| - n
  {
    if n < |rounds| && n < target && OutcomeOf(rounds[n]).Built? { PlayedWithin(rounds, target, n + 1); }
  }

  /** `n` is how many rounds a job plays: all before the last came through, and it stopped for a reason. */
  ghost predicate IsPlayed(rounds: seq<Round>, target: nat, n: nat) {
    && n <= |rounds| && n <= target
    && (forall k :: 0 <= k < n - 1 ==> OutcomeOf(rounds[k]).Built?)
    && (n == |rounds| || n == target || (n > 0 && !OutcomeOf(rounds[n - 1]).Built?))
  }

  /** There is exactly one such number, and it is the one the loop reaches. */
  lemma PlayedIff(rounds: seq<Round>, target: nat, n: nat)
    ensures IsPlayed(rounds, target, n) <==> n == PlayedFrom(rounds, target, 0)
  {
    PlayedWithin(rounds, target, 0);
  }

  /** What can be wrong with the last round played; those before it came through. */
  predicate LastNotBuilt(p: Plan) {
    Played(p) > 0 && !OutcomeOf(p.rounds[Played(p) - 1]).Built?
  }

  predicate LastUnpublished(p: Plan) {
    Played(p) > 0 && !Publishes(p.rounds[Played(p) - 1])
  }

  predicate LastLost(p: Plan) {
    Played(p) > 0 && HandOverFailed(p.rounds[Played(p) - 1])
  }

  /** Rounds whose flashblock was published, and rounds that reached the best payload. */
  function PublishedRounds(p: Plan): (n: nat)
    ensures n <= Played(p)
  {
    if LastUnpublished(p) then Played(p) - 1 else Played(p)
  }

  function BuiltRounds(p: Plan): (n: nat)
    ensures n <= PublishedRounds(p)
  {
    if LastNotBuilt(p) then Played(p) - 1 else Played(p)
  }

  function ExecutedBy(p: Plan): seq<Offer> {
    WorkUpTo(First(p), p.rounds, Played(p))
  }

  function PublishedBy(p: Plan): seq<Flashblock> {
    if FallbackFails(p) then [] else PublishedUpTo(First(p), p.rounds, PublishedRounds(p))
  }

  function PayloadOf(p: Plan): seq<TxHash> {
    if FallbackFails(p) then [] else Hashes(WorkUpTo(First(p), p.rounds, BuiltRounds(p)))
  }

  function EndOf(p: Plan): Outcome {
    if FallbackFails(p) then Failed
    else if Played(p) == 0 then Built
    else OutcomeOf(p.rounds[Played(p) - 1])
  }

  // ---------------------------------------------------------------------------------------------
  // Results on every job
  // ---------------------------------------------------------------------------------------------

  function Slices(fbs: seq<Flashblock>): seq<TxHash> {
    if fbs == [] then [] else Slices(fbs[..|fbs| - 1]) + fbs[|fbs| - 1].txs
  }

  function SliceReceipts(fbs: seq<Flashblock>): seq<nat> {
    if fbs == [] then [] else SliceReceipts(fbs[..|fbs| - 1]) + fbs[|fbs| - 1].receipts
  }

  ghost predicate Consecutive(fbs: seq<Flashblock>) {
    forall k :: 0 <= k < |fbs| ==> fbs[k].index == k
  }

  lemma SlicesSnoc(fbs: seq<Flashblock>, fb: Flashblock)
    ensures Slices(fbs + [fb]) == Slices(fbs) + fb.txs && SliceReceipts(fbs + [fb]) == SliceReceipts(fbs) + fb.receipts
  {
    assert (fbs + [fb])[..|fbs|] == fbs;
  }

  /** The slices of the first rounds are their work, index by index, nothing lost and nothing repeated. */
  lemma {:induction false} SlicesAre(first: seq<Offer>, rounds: seq<Round>, n: nat)
    requires n <= |rounds|
    ensures |PublishedUpTo(first, rounds, n)| == n + 1
    ensures Slices(PublishedUpTo(first, rounds, n)) == Hashes(WorkUpTo(first, rounds, n))
    ensures SliceReceipts(PublishedUpTo(first, rounds, n)) == Receipts(WorkUpTo(first, rounds, n))
  {
    if n == 0 {
      SlicesSnoc([], Slice(0, first));
      assert [] + [Slice(0, first)] == [Slice(0, first)];
    } else {
      SlicesAre(first, rounds, n - 1);
      OneMoreSlice(PublishedUpTo(first, rounds, n - 1), WorkUpTo(first, rounds, n - 1), n, Work(rounds, n - 1));
    }
  }

  lemma OneMoreSlice(fbs: seq<Flashblock>, done: seq<Offer>, index: nat, work: seq<Offer>)
    requires Slices(fbs) == Hashes(done) && SliceReceipts(fbs) == Receipts(done)
    ensures Slices(fbs + [Slice(index, work)]) == Hashes(done + work)
    ensures SliceReceipts(fbs + [Slice(index, work)]) == Receipts(done + work)
  {
    SlicesSnoc(fbs, Slice(index, work));
    HashesConcat(done, work);
  }

  lemma {:induction false} IndicesAre(first: seq<Offer>, rounds: seq<Round>, n: nat)
    requires n <= |rounds|
    ensures |PublishedUpTo(first, rounds, n)| == n + 1 && Consecutive(PublishedUpTo(first, rounds, n))
  {
    if n > 0 { IndicesAre(first, rounds, n - 1); }
  }

  lemma {:induction false} WorkGrows(first: seq<Offer>, rounds: seq<Round>, m: nat, n: nat)
    requires m <= n <= |rounds|
    ensures WorkUpTo(first, rounds, m) <= WorkUpTo(first, rounds, n)
  {
    if m < n { WorkGrows(first, rounds, m, n - 1); }
  }

  /** Everything executed is in exactly one slice: nothing was executed after the last published one. */
  ghost predicate AllSliced(p: Plan) {
    if FallbackFails(p) then First(p) == []
    else LastUnpublished(p) ==> Work(p.rounds, Played(p) - 1) == []
  }

  /** Published indices are consecutive from 0 and at most the target; the slices tile a prefix of what was
      executed, all of it exactly when `AllSliced`. */
  lemma SlicesTile(p: Plan)
    ensures Consecutive(PublishedBy(p)) && |PublishedBy(p)| <= p.target + 1
    ensures Slices(PublishedBy(p)) <= Hashes(ExecutedBy(p)) && SliceReceipts(PublishedBy(p)) <= Receipts(ExecutedBy(p))
    ensures Slices(PublishedBy(p)) == Hashes(ExecutedBy(p)) <==> AllSliced(p)
  {
    if !FallbackFails(p) {
      IndicesAre(First(p), p.rounds, PublishedRounds(p));
      SlicesAre(First(p), p.rounds, PublishedRounds(p));
      WorkGrows(First(p), p.rounds, PublishedRounds(p), Played(p));
    }
  }

  /** The best payload holds every published slice, unless the hand-over of the last one failed; then all but it. */
  lemma PayloadIs(p: Plan)
    requires !FallbackFails(p)
    ensures LastLost(p) ==> |PublishedBy(p)| > 1
    ensures PayloadOf(p) ==
            if LastLost(p) then Slices(PublishedBy(p)[..|PublishedBy(p)| - 1]) else Slices(PublishedBy(p))
  {
    SlicesAre(First(p), p.rounds, BuiltRounds(p));
    LostIsLast(p);
  }

  lemma LostIsLast(p: Plan)
    requires !FallbackFails(p)
    ensures LastLost(p) ==> |PublishedBy(p)| > 1
    ensures PublishedUpTo(First(p), p.rounds, BuiltRounds(p)) ==
            if LastLost(p) then PublishedBy(p)[..|PublishedBy(p)| - 1] else PublishedBy(p)
  {
    if LastLost(p) {
      IndicesAre(First(p), p.rounds, BuiltRounds(p));
      assert PublishedRounds(p) == BuiltRounds(p) + 1;
    } else {
      assert PublishedRounds(p) == BuiltRounds(p);
    }
  }

  lemma {:induction false} CommittedGrows(rounds: seq<Round>, m: nat, n: nat)
    requires m <= n <= |rounds|
    ensures Committed(rounds, m) <= Committed(rounds, n)
  {
    if m < n { CommittedGrows(rounds, m, n - 1); }
  }

  /** A transaction executed in one flashblock, from the pool or by the builder, is never yielded in a later one. */
  lemma NeverYieldedAgain(rounds: seq<Round>, i: nat, k: nat, x: Offer, y: Offer)
    requires i < k < |rounds| && x in Filled(rounds, i) && y in Yielded(rounds, k)
    ensures x.hash != y.hash
  {
    var j :| 0 <= j < |Filled(rounds, i)| && Filled(rounds, i)[j] == x;
    assert Hashes(Filled(rounds, i))[j] == x.hash;
    assert x.hash in Committed(rounds, i + 1);
    CommittedGrows(rounds, i + 1, k);
    UncommittedAre(rounds[k].offers, Committed(rounds, k), y);
  }

  /** A round that is cancelled after executing its only offer. */
  function CancelledRound(x: Offer): Round {
    Round([], 0, 0, [x], false, true, [], false, false, false)
  }

  /** Where a job leaves a transaction in no slice: it was executed, then the block was cancelled. */
  lemma CancelledIsUnsliced(limits: Limits, x: Offer)
    requires x.executes
    ensures var p := Plan(limits, 1, [], [], false, false, false, [CancelledRound(x)]);
            && EndOf(p) == Cancelled && Hashes(ExecutedBy(p)) == [x.hash]
            && Slices(PublishedBy(p)) == [] && !AllSliced(p)
  {
    var p := Plan(limits, 1, [], [], false, false, false, [CancelledRound(x)]);
    assert PlayedFrom(p.rounds, 1, 0) == 1;
    assert [x][1..] == [] && [x][..0] == [];
    assert Uncommitted([x], {}) == [x] + Uncommitted([], {});
    assert Executing([x]) == Executing([]) + [x];
    assert Work(p.rounds, 0) == [x];
    assert WorkUpTo([], p.rounds, 1) == WorkUpTo([], p.rounds, 0) + [x];
    SlicesAre(First(p), p.rounds, 0);
  }

  // ---------------------------------------------------------------------------------------------
  // The builder
  // ---------------------------------------------------------------------------------------------

  /** What one flashblock's pool pass ran under and what the iterator gave it. */
  datatype Pass = Pass(allowance: Allowance, yielded: seq<Offer>)

  function PassesUpTo(limits: Limits, first: seq<Offer>, count: nat, rounds: seq<Round>, n: nat): seq<Pass>
    requires count >= 1 && n <= |rounds|
  {
    if n == 0 then []
    else
      var fb := StateAt(limits, count, rounds, n - 1, |WorkUpTo(first, rounds, n - 1)|);
      PassesUpTo(limits, first, count, rounds, n - 1)
      + [Pass(AllowanceOf(limits, fb, rounds[n - 1]), Yielded(rounds, n - 1))]
  }

  /** Every pool pass runs within its flashblock's share of the block, with exactly what the builder reserved set
      aside, and is given exactly what is uncommitted. */
  lemma {:induction false} PassesWithin(limits: Limits, first: seq<Offer>, count: nat, rounds: seq<Round>, n: nat)
    requires count >= 1 && n <= |rounds|
    ensures var passes := PassesUpTo(limits, first, count, rounds, n);
            && |passes| == n
            && (forall k :: 0 <= k < n ==> WithinBudget(passes[k].allowance, k + 1, count, limits))
            && (forall k :: 0 <= k < n ==> SetsAside(passes[k].allowance, limits, rounds[k]))
            && (forall k :: 0 <= k < n ==> passes[k].yielded == Yielded(rounds, k))
  {
    if n > 0 {
      PassesWithin(limits, first, count, rounds, n - 1);
      var before := PassesUpTo(limits, first, count, rounds, n - 1);
      var passes := PassesUpTo(limits, first, count, rounds, n);
      assert forall k :: 0 <= k < n - 1 ==> passes[k] == before[k];
      AllowanceWithin(limits, count, rounds, n - 1, |WorkUpTo(first, rounds, n - 1)|);
      AllowanceSetsAside(limits, count, rounds, n - 1, |WorkUpTo(first, rounds, n - 1)|);
    }
  }

  /** Every pass of a job: the pool's gas and the builder's reservation make up the carried gas, which is the index
      times its share, or the pool gets none. */
  lemma PassesSplitGas(p: Plan, k: nat)
    requires k < Played(p)
    ensures var a := PassesUpTo(p.limits, First(p), p.target, p.rounds, Played(p));
            && |a| == Played(p) && a[k].allowance.carriedGas == (k + 1) * (p.limits.blockGas / p.target)
            && Leaves(a[k].allowance.carriedGas, p.rounds[k].reservedGas, a[k].allowance.gas)
  {
    PassesWithin(p.limits, First(p), p.target, p.rounds, Played(p));
    var a := PassesUpTo(p.limits, First(p), p.target, p.rounds, Played(p))[k].allowance;
    AllowanceFitsBlock(a, k + 1, p.target, p.limits);
  }

  /** The mutable state of one payload job. */
  class PayloadJob {
    const limits: Limits
    const best: BestFlashblocksTxs
    var fb: FbState
    /** Executed transactions and their receipts, growing. */
    var executed: seq<TxHash>
    var receipts: seq<nat>
    /** Flashblocks published to subscribers, and the transaction list of the best payload. */
    var published: seq<Flashblock>
    var bestPayload: seq<TxHash>
    ghost var passes: seq<Pass>

    constructor (l: Limits, offers: seq<Offer>, flashblocksPerBlock: nat)
      ensures limits == l && fresh(best) && best.committed == {} && executed == [] && receipts == [] && published == []
      ensures passes == [] && bestPayload == []
      ensures fb == FbState(0, flashblocksPerBlock, 0, None, None, 0, None, None, 0)
    {
      limits := l;
      fb := FbState(0, flashblocksPerBlock, 0, None, None, 0, None, None, 0);
      executed, receipts, published, bestPayload, passes := [], [], [], [], [];
      best := new BestFlashblocksTxs(offers);
    }

    /** Executed so far is `work`, with its receipts. */
    ghost predicate Holds(work: seq<Offer>)
      reads this
    {
      executed == Hashes(work) && receipts == Receipts(work)
    }

    /** The job stands before round `n`, all earlier ones having come through. */
    ghost predicate Before(first: seq<Offer>, rounds: seq<Round>, count: nat, n: nat)
      reads this, best
    {
      && count >= 1 && n <= |rounds|
      && Holds(WorkUpTo(first, rounds, n))
      && published == PublishedUpTo(first, rounds, n) && bestPayload == executed
      && best.committed == Committed(rounds, n)
      && fb == StateAt(limits, count, rounds, n, |executed|)
      && passes == PassesUpTo(limits, first, count, rounds, n)
    }

    /** Execution appends transactions and receipts in step. */
    method Append(ghost work: seq<Offer>, offers: seq<Offer>)
      requires Holds(work)
      modifies this`executed, this`receipts
      ensures Holds(work + offers)
    {
      HashesConcat(work, offers);
      executed, receipts := executed + Hashes(offers), receipts + Receipts(offers);
    }

    /** Pulls transactions until the iterator is dry; each is executed or skipped. */
    method ExecuteBestTransactions(ghost work: seq<Offer>) returns (ghost yielded: seq<Offer>)
      requires Holds(work)
      modifies this`executed, this`receipts, best`inner
      ensures yielded == Uncommitted(old(best.inner), best.committed) && Holds(work + Executing(yielded))
    {
      yielded := [];
      assert work + [] == work;
      while true
        invariant yielded + Uncommitted(best.inner, best.committed) == Uncommitted(old(best.inner), best.committed)
        invariant Holds(work + Executing(yielded))
        decreases |best.inner|
      {
        ghost var before := best.inner;
        var tx := best.Next();
        if tx.None? { break; }
        Assoc(yielded, [tx.value], Uncommitted(best.inner, best.committed));
        ExecutingSnoc(yielded, tx.value);
        if tx.value.executes {
          Append(work + Executing(yielded), [tx.value]);
          Assoc(work, Executing(yielded), [tx.value]);
        }
        yielded := yielded + [tx.value];
      }
      assert yielded + [] == yielded;
    }

    /** Seals the block over everything executed and cuts off the new slice. */
    method BuildBlock(sealFails: bool) returns (slice: Option<Flashblock>)
      requires fb.lastTxIndex <= |executed| == |receipts|
      modifies this`fb
      ensures sealFails ==> slice.None? && fb == old(fb)
      ensures !sealFails ==>
                && slice == Some(Flashblock(0, executed[old(fb.lastTxIndex)..], receipts[old(fb.lastTxIndex)..]))
                && fb == old(fb).(lastTxIndex := |executed|)
    {
      if sealFails { return None; }
      slice := Some(Flashblock(0, executed[fb.lastTxIndex..], receipts[fb.lastTxIndex..]));
      fb := fb.(lastTxIndex := |executed|);
    }

    /** Pre-execution steps, the first builder transactions and the fallback block, published as index 0. */
    method BuildFallback(p: Plan) returns (ok: bool)
      requires executed == [] && receipts == [] && published == [] && bestPayload == [] && fb.lastTxIndex == 0
      modifies this`executed, this`receipts, this`fb, this`published, this`bestPayload
      ensures Holds(First(p)) && (ok <==> !FallbackFails(p))
      ensures ok ==> published == [Slice(0, First(p))] && bestPayload == executed && fb.lastTxIndex == |executed|
      ensures !ok ==> published == []
    {
      Append([], p.preSteps);
      assert [] + p.preSteps == p.preSteps;
      Append(p.preSteps, p.builderTxs);
      var slice := BuildBlock(p.sealFails);
      if slice.None? || p.sendFails || p.publishFails { return false; }
      published := [slice.value];
      bestPayload := executed;
      ok := true;
    }

    /** The first budgets are one share of each block limit. */
    method SetBatchLimits(count: nat, ghost rounds: seq<Round>)
      requires count >= 1
      modifies this`fb
      ensures fb == StateAt(limits, count, rounds, 0, old(fb.lastTxIndex))
    {
      var gasPerBatch := limits.blockGas / count;
      var daPerBatch := if limits.maxDa.Some? then Some(limits.maxDa.value / count) else None;
      var footprintPerBatch := if limits.footprintScalar.Some? then Some(limits.blockGas / count) else None;
      fb := FbState(1, count, gasPerBatch, daPerBatch, footprintPerBatch,
                    gasPerBatch, daPerBatch, footprintPerBatch, fb.lastTxIndex);
    }

    /** Everything of a flashblock up to and including the commit marks, which a failed execution skips. */
    method FillFlashblock(ghost first: seq<Offer>, ghost rounds: seq<Round>, ghost count: nat, ghost n: nat, r: Round,
                          gas: nat, da: Option<nat>, footprint: Option<nat>)
      requires Before(first, rounds, count, n) && n < |rounds| && r == rounds[n]
      requires gas == AllowanceOf(limits, fb, r).gas && da == AllowanceOf(limits, fb, r).da
      requires footprint == AllowanceOf(limits, fb, r).footprint
      modifies this`executed, this`receipts, this`passes, best
      ensures Holds(WorkUpTo(first, rounds, n) + Filled(rounds, n))
      ensures passes == PassesUpTo(limits, first, count, rounds, n + 1)
      ensures !r.executionFails ==> best.committed == Committed(rounds, n + 1)
    {
      ghost var work := WorkUpTo(first, rounds, n);
      ghost var yielded := RunPoolPass(work, r);
      ghost var filled := r.topBuilderTxs + Executing(yielded);
      assert filled == Filled(rounds, n);
      if !r.executionFails { MarkNew(work, filled); }
      passes := passes + [Pass(Allowance(fb.index, fb.targetGas, fb.targetDa, fb.targetFootprint, gas, da, footprint),
                               yielded)];
    }

    /** Marks everything since the last slice as committed. */
    method MarkNew(ghost work: seq<Offer>, ghost more: seq<Offer>)
      requires Holds(work + more) && fb.lastTxIndex == |work|
      modifies best`committed
      ensures best.committed == old(best.committed) + Elements(Hashes(more))
    {
      SliceOf(work, more);
      best.MarkCommitted(executed[fb.lastTxIndex..]);
    }

    /** The builder's own first transactions, then a fresh iterator run dry. */
    method RunPoolPass(ghost work: seq<Offer>, r: Round) returns (ghost yielded: seq<Offer>)
      requires Holds(work)
      modifies this`executed, this`receipts, best
      ensures best.committed == old(best.committed) && yielded == Uncommitted(r.offers, best.committed)
      ensures Holds(work + (r.topBuilderTxs + Executing(yielded)))
    {
      Append(work, r.topBuilderTxs);
      best.RefreshIterator(r.offers, fb.index);
      yielded := ExecuteBestTransactions(work + r.topBuilderTxs);
      Assoc(work, r.topBuilderTxs, Executing(yielded));
    }

    /** The limits left for pool transactions once the builder's own uncommitted ones are set aside. */
    method ReservedLimits(r: Round) returns (gas: nat, da: Option<nat>, footprint: Option<nat>)
      requires limits.footprintScalar.None? ==> fb.targetFootprint.None?
      ensures gas == AllowanceOf(limits, fb, r).gas && da == AllowanceOf(limits, fb, r).da
      ensures footprint == AllowanceOf(limits, fb, r).footprint
    {
      gas := Min(SaturatingSub(fb.targetGas, r.reservedGas), limits.blockGas);
      da := Lowered(fb.targetDa, r.reservedDa);
      footprint := fb.targetFootprint;
      if fb.targetFootprint.Some? && limits.footprintScalar.Some? {
        var product := Min(r.reservedDa * limits.footprintScalar.value, U64_BOUND - 1);
        footprint := Some(SaturatingSub(fb.targetFootprint.value, product));
      }
    }

    /** Seals, publishes, hands over. The flashblock is published before it is handed to the payload handler,
        so a failed hand-over leaves it published but not in the best payload. */
    method PublishFlashblock(ghost work: seq<Offer>, ghost filled: seq<Offer>, r: Round) returns (outcome: Outcome)
      requires Holds(work + filled) && fb.lastTxIndex == |work|
      modifies this`executed, this`receipts, this`fb, this`published, this`bestPayload
      ensures Holds(work + (filled + r.bottomBuilderTxs))
      ensures outcome == if r.sealFails || r.publishFails || r.sendFails then Failed else Built
      ensures published == if r.sealFails || r.publishFails then old(published)
                           else old(published) + [Slice(old(fb.index), filled + r.bottomBuilderTxs)]
      ensures bestPayload == if outcome.Built? then executed else old(bestPayload)
      ensures outcome.Built? ==> fb == old(fb).(lastTxIndex := |executed|)
    {
      Append(work + filled, r.bottomBuilderTxs);
      Assoc(work, filled, r.bottomBuilderTxs);
      SliceOf(work, filled + r.bottomBuilderTxs);
      var slice := BuildBlock(r.sealFails);
      if slice.None? { return Failed; }
      var flashblock := slice.value.(index := fb.index);
      if r.publishFails { return Failed; }
      published := published + [flashblock];
      if r.sendFails { return Failed; }
      bestPayload := executed;
      outcome := Built;
    }

    /** Raises the budgets for the next flashblock. The branch for a missing DA budget is dead. */
    method CarryBudgets(ghost rounds: seq<Round>, count: nat, ghost n: nat, r: Round, da: Option<nat>,
                        footprint: Option<nat>)
      requires count >= 1 && n < |rounds| && r == rounds[n]
      requires fb == StateAt(limits, count, rounds, n, fb.lastTxIndex)
      requires da == Lowered(fb.targetDa, r.reservedDa)
      requires footprint == Lowered(fb.targetFootprint, ReservedFootprint(limits, r))
      modifies this`fb
      ensures fb == StateAt(limits, count, rounds, n + 1, old(fb.lastTxIndex))
    {
      CarriedWithin(limits, count, rounds, n);
      StateCarries(limits, count, rounds, n, fb.lastTxIndex);
      var da', footprint' := da, footprint;
      if fb.daPerBatch.Some? {
        if da.Some? { da' := Some(da.value + fb.daPerBatch.value); } else { assert false; }
      }
      if footprint.Some? && fb.footprintPerBatch.Some? {
        footprint' := Some(footprint.value + fb.footprintPerBatch.value);
      }
      fb := fb.(index := fb.index + 1, targetGas := fb.targetGas + fb.gasPerBatch,
                targetDa := da', targetFootprint := footprint');
    }

    /** The job after round `n`, whatever became of it. */
    ghost predicate After(first: seq<Offer>, rounds: seq<Round>, count: nat, n: nat)
      requires n < |rounds|
      reads this
    {
      && count >= 1 && Holds(WorkUpTo(first, rounds, n + 1))
      && published == PublishedUpTo(first, rounds, if Publishes(rounds[n]) then n + 1 else n)
      && bestPayload == Hashes(WorkUpTo(first, rounds, if OutcomeOf(rounds[n]).Built? then n + 1 else n))
      && passes == PassesUpTo(limits, first, count, rounds, n + 1)
    }

    /** One flashblock under the budget carried to it. */
    method BuildNextFlashblock(ghost first: seq<Offer>, ghost rounds: seq<Round>, count: nat, ghost n: nat, r: Round)
      returns (outcome: Outcome)
      requires Before(first, rounds, count, n) && n < |rounds| && r == rounds[n]
      modifies this, best
      ensures outcome == OutcomeOf(r) && After(first, rounds, count, n)
      ensures executed == Continued(old(executed), old(best.committed), r)
      ensures outcome == Cancelled <==> r.cancelled && !r.executionFails
      ensures outcome == Built <==>
              !(r.executionFails || r.cancelled || r.sealFails || r.publishFails || r.sendFails)
      ensures outcome.Built? ==> Before(first, rounds, count, n + 1)
    {
      ghost var work := WorkUpTo(first, rounds, n);
      RoundContinues(first, rounds, n);
      CarriedWithin(limits, count, rounds, n);
      var gas, da, footprint := ReservedLimits(r);
      FillFlashblock(first, rounds, count, n, r, gas, da, footprint);
      assert Filled(rounds, n) + [] == Filled(rounds, n);
      if r.executionFails { return Failed; }
      if r.cancelled { return Cancelled; }
      outcome := PublishFlashblock(work, Filled(rounds, n), r);
      if outcome.Failed? { return; }
      CarryBudgets(rounds, count, n, r, da, footprint);
    }

    /** The loop over build signals: it stops when the channel closes, when the target is reached, or when a
        flashblock is cancelled or fails. */
    method BuildFlashblocks(ghost first: seq<Offer>, rounds: seq<Round>, count: nat)
      returns (ended: Outcome, n: nat)
      requires Before(first, rounds, count, 0)
      modifies this, best
      ensures n == PlayedFrom(rounds, count, 0) && n <= |rounds|
      ensures ended == if n == 0 then Built else OutcomeOf(rounds[n - 1])
      ensures if n == 0 then Before(first, rounds, count, 0) else After(first, rounds, count, n - 1)
    {
      n, ended := 0, Built;
      while n < |rounds| && ended.Built?
        invariant n <= |rounds| && n <= count
        invariant ended == if n == 0 then Built else OutcomeOf(rounds[n - 1])
        invariant PlayedFrom(rounds, count, 0) == if ended.Built? then PlayedFrom(rounds, count, n) else n
        invariant if n == 0 then Before(first, rounds, count, 0) else After(first, rounds, count, n - 1)
        invariant ended.Built? ==> Before(first, rounds, count, n)
      {
        if fb.index > fb.targetCount { break; }
        ended := BuildNextFlashblock(first, rounds, count, n, rounds[n]);
        n := n + 1;
      }
    }
  }

  /** What a round appends to what was executed: the builder's first transactions, the uncommitted offers that
      execute, and the builder's last ones unless execution failed or the block was cancelled. */
  ghost function Continued(executed: seq<TxHash>, committed: set<TxHash>, r: Round): seq<TxHash> {
    executed + Hashes(r.topBuilderTxs) + Hashes(Executing(Uncommitted(r.offers, committed)))
    + if r.executionFails || r.cancelled then [] else Hashes(r.bottomBuilderTxs)
  }

  lemma RoundContinues(first: seq<Offer>, rounds: seq<Round>, n: nat)
    requires n < |rounds|
    ensures Hashes(WorkUpTo(first, rounds, n + 1)) ==
            Continued(Hashes(WorkUpTo(first, rounds, n)), Committed(rounds, n), rounds[n])
  {
    var r, work := rounds[n], WorkUpTo(first, rounds, n);
    var pool := Executing(Yielded(rounds, n));
    var last := if Seals(r) then r.bottomBuilderTxs else [];
    assert WorkUpTo(first, rounds, n + 1) == work + r.topBuilderTxs + pool + last;
    HashesConcat(work, r.topBuilderTxs);
    HashesConcat(work + r.topBuilderTxs, pool);
    HashesConcat(work + r.topBuilderTxs + pool, last);
  }

  lemma ExecutingSnoc(offers: seq<Offer>, x: Offer)
    ensures Executing(offers + [x]) == Executing(offers) + if x.executes then [x] else []
  {
    assert (offers + [x])[..|offers|] == offers;
  }

  lemma SliceOf(work: seq<Offer>, more: seq<Offer>)
    ensures Hashes(work + more)[|work|..] == Hashes(more) && Receipts(work + more)[|work|..] == Receipts(more)
  {
    HashesConcat(work, more);
  }

  /** What the plan says, by the rounds played. */
  lemma PlanPlayed(p: Plan, n: nat)
    requires !FallbackFails(p) && n == Played(p)
    ensures PublishedBy(p) ==
            PublishedUpTo(First(p), p.rounds, if n > 0 && !Publishes(p.rounds[n - 1]) then n - 1 else n)
    ensures PayloadOf(p) ==
            Hashes(WorkUpTo(First(p), p.rounds, if n > 0 && !OutcomeOf(p.rounds[n - 1]).Built? then n - 1 else n))
    ensures EndOf(p) == if n == 0 then Built else OutcomeOf(p.rounds[n - 1])
  {
  }

  /** What a job publishes, executes and resolves to is determined by its plan, and so is how it ends: whatever
      the pool offers and whichever step fails. */
  method BuildPayload(p: Plan, flashblocksPerBlock: nat)
    returns (published: seq<Flashblock>, payload: seq<TxHash>, executed: seq<TxHash>, receipts: seq<nat>,
             ended: Outcome,
             ghost passes: seq<Pass>)
    ensures published == PublishedBy(p) && payload == PayloadOf(p) && ended == EndOf(p)
    ensures executed == Hashes(ExecutedBy(p)) && receipts == Receipts(ExecutedBy(p))
    ensures passes == if p.target == 0 then [] else PassesUpTo(p.limits, First(p), p.target, p.rounds, Played(p))
  {
    var job := new PayloadJob(p.limits, [], flashblocksPerBlock);
    passes, ended := [], Built;
    var ok := job.BuildFallback(p);
    if !ok { return [], [], job.executed, job.receipts, Failed, []; }
    if p.target > 0 {
      job.SetBatchLimits(p.target, p.rounds);
      var n;
      ended, n := job.BuildFlashblocks(First(p), p.rounds, p.target);
      PlanPlayed(p, n);
    } else {
      PlanPlayed(p, 0);
    }
    published, payload, passes := job.published, job.bestPayload, job.passes;
    executed, receipts := job.executed, job.receipts;
  }
}
