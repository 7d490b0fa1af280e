/** Why an entry is in the state it is in: results over whole runs from the empty pool, with any interleaving. */
module FilterHistory {
  import opened Prelude
  import opened Matcher
  import opened Lifecycle
  import opened Pool
  import opened FilterSteps
  import opened FilterInvariants
  import opened FilterMoves

  // ---------------------------------------------------------------------------------------------
  // The last change of an entry, and the admission of a lifecycle
  // ---------------------------------------------------------------------------------------------

  ghost predicate Same(s: State, h: Hash, e: Entry) {
    h in s.entries && s.entries[h] == e
  }

  /** From point `i` to the end of the run the entry of `h` is `e`. */
  ghost predicate SameSince(w: World, steps: seq<Step>, i: nat, h: Hash, e: Entry) {
    forall k :: i <= k <= |steps| ==> Same(At(w, INITIAL, steps, k), h, e)
  }

  lemma SameSinceGrows(w: World, steps: seq<Step>, i: nat, h: Hash, e: Entry)
    requires steps != [] && i < |steps|
    requires SameSince(w, steps[..|steps| - 1], i, h, e) && Same(Run(w, INITIAL, steps), h, e)
    ensures SameSince(w, steps, i, h, e)
  {
    forall k | i <= k <= |steps| ensures Same(At(w, INITIAL, steps, k), h, e) {
      if k < |steps| { AtFront(w, INITIAL, steps, k); } else { AtEnd(w, INITIAL, steps); }
    }
  }

  ghost predicate LastChangedAt(w: World, steps: seq<Step>, i: nat, h: Hash, e: Entry) {
    i < |steps| && !Same(At(w, INITIAL, steps, i), h, e) && SameSince(w, steps, i + 1, h, e)
  }

  lemma {:induction false} LastChange(w: World, steps: seq<Step>, h: Hash, e: Entry)
    requires Same(Run(w, INITIAL, steps), h, e)
    ensures exists i: nat :: LastChangedAt(w, steps, i, h, e)
    decreases |steps|
  {
    var front := steps[..|steps| - 1];
    if Same(Run(w, INITIAL, front), h, e) {
      LastChange(w, front, h, e);
      var i: nat :| LastChangedAt(w, front, i, h, e);
      SameSinceGrows(w, steps, i + 1, h, e);
      AtFront(w, INITIAL, steps, i);
      assert LastChangedAt(w, steps, i, h, e);
    } else {
      AtEnd(w, INITIAL, steps);
      assert SameSince(w, steps, |steps|, h, e);
      assert LastChangedAt(w, steps, |steps| - 1, h, e);
    }
  }

  /** The step that last changed an entry either admitted it or moved it. */
  lemma ChangedBy(w: World, steps: seq<Step>, i: nat, h: Hash, e: Entry)
    requires LastChangedAt(w, steps, i, h, e)
    ensures var s := At(w, INITIAL, steps, i);
            if h in s.entries then s.entries[h].txHash == h && Evolve(w.cfg, steps[i], s.entries[h]) == Some(e)
              && s.entries[h] != e
            else e.status.NotSubmitted?
  {
    var s := At(w, INITIAL, steps, i);
    RunKeyed(w, INITIAL, steps[..i]);
    AtStep(w, INITIAL, steps, i);
    assert Same(At(w, INITIAL, steps, i + 1), h, e);
    NextEntry(w, s, steps[i], h);
  }

  lemma CauseOfApproval(cfg: Config, step: Step, b: Entry, e: Entry)
    requires Evolve(cfg, step, b) == Some(e) && b != e && e.status.Approved?
    ensures step.QueryAnswers? && b.txHash in step.answers && step.answers[b.txHash] == (b.generation, SaysApproved)
    ensures (b.status.Submitted? || b.status.Pending?) && e == Move(b, Approved, step.now)
    ensures Elapsed(step.now, b.firstNotSubmittedAt) <= cfg.totalRetryTimeout
  {
  }

  lemma CauseOfRelease(cfg: Config, step: Step, b: Entry, e: Entry)
    requires Evolve(cfg, step, b) == Some(e) && b != e && e.status.TimedOutAllow?
    ensures step.ResolveTotals? || step.SubmitResponse? || step.QueryAnswers? || step.TimeoutTick?
    ensures Retryable(b.status) && b.request.timeoutAction.AllowOnTimeout? && e == Move(b, TimedOutAllow, step.now)
    ensures Elapsed(step.now, b.firstNotSubmittedAt) > cfg.totalRetryTimeout
  {
  }

  /** RCS approved exactly this lifecycle, in time, while it was at RCS. */
  ghost predicate ApprovedInTime(w: World, steps: seq<Step>, i: nat, h: Hash, e: Entry) {
    && i < |steps| && h in At(w, INITIAL, steps, i).entries
    && var b := At(w, INITIAL, steps, i).entries[h];
       && b.generation == e.generation && (b.status.Submitted? || b.status.Pending?)
       && steps[i].QueryAnswers? && h in steps[i].answers && steps[i].answers[h] == (e.generation, SaysApproved)
       && Elapsed(steps[i].now, e.firstNotSubmittedAt) <= w.cfg.totalRetryTimeout
  }

  /** The cumulative deadline passed while RCS had not approved, and the rules say to fail open. */
  ghost predicate ReleasedByTimeout(w: World, steps: seq<Step>, i: nat, h: Hash, e: Entry) {
    && i < |steps| && h in At(w, INITIAL, steps, i).entries
    && var b := At(w, INITIAL, steps, i).entries[h];
       && b.generation == e.generation && Retryable(b.status) && e.request.timeoutAction.AllowOnTimeout?
       && (steps[i].ResolveTotals? || steps[i].SubmitResponse? || steps[i].QueryAnswers? || steps[i].TimeoutTick?)
       && Elapsed(steps[i].now, e.firstNotSubmittedAt) > w.cfg.totalRetryTimeout
  }

  /** An approved entry was approved in time by RCS and has been left alone since. */
  lemma ApprovalHistory(w: World, steps: seq<Step>, h: Hash, e: Entry)
    requires Same(Run(w, INITIAL, steps), h, e) && e.status.Approved?
    ensures exists i: nat :: ApprovedInTime(w, steps, i, h, e) && SameSince(w, steps, i + 1, h, e)
  {
    LastChange(w, steps, h, e);
    var i: nat :| LastChangedAt(w, steps, i, h, e);
    ChangedBy(w, steps, i, h, e);
    var b := At(w, INITIAL, steps, i).entries[h];
    CauseOfApproval(w.cfg, steps[i], b, e);
    EvolveKeepsIdentity(w.cfg, steps[i], b);
    assert ApprovedInTime(w, steps, i, h, e);
  }

  lemma ReleaseHistory(w: World, steps: seq<Step>, h: Hash, e: Entry)
    requires Same(Run(w, INITIAL, steps), h, e) && e.status.TimedOutAllow?
    ensures exists i: nat :: ReleasedByTimeout(w, steps, i, h, e) && SameSince(w, steps, i + 1, h, e)
  {
    LastChange(w, steps, h, e);
    var i: nat :| LastChangedAt(w, steps, i, h, e);
    ChangedBy(w, steps, i, h, e);
    var b := At(w, INITIAL, steps, i).entries[h];
    CauseOfRelease(w.cfg, steps[i], b, e);
    EvolveKeepsIdentity(w.cfg, steps[i], b);
    assert ReleasedByTimeout(w, steps, i, h, e);
  }

  /** Step `i` admitted `input` under `snapshot`; the request, the generation and the deadline base of `e`
      are still the ones fixed then, and the lifecycle has been live ever since. */
  ghost predicate AdmittedAt(w: World, steps: seq<Step>, i: nat, h: Hash, e: Entry, input: Input, snapshot: seq<Rule>) {
    && i < |steps| && steps[i].Admit? && steps[i].input == input && steps[i].snapshot == snapshot && input.txHash == h
    && Inserts(w, At(w, INITIAL, steps, i), steps[i])
    && e.request == Admitted(w, input, snapshot, steps[i].now).value.request
    && e.firstNotSubmittedAt == steps[i].now
    && forall k :: i < k <= |steps| ==> Live(At(w, INITIAL, steps, k), h, e.generation)
  }

  lemma AdmittedAtGrows(w: World, steps: seq<Step>, i: nat, h: Hash, b: Entry, e: Entry, input: Input,
                        snapshot: seq<Rule>)
    requires steps != [] && AdmittedAt(w, steps[..|steps| - 1], i, h, b, input, snapshot)
    requires Same(Run(w, INITIAL, steps), h, e) && Progress(b, e)
    ensures AdmittedAt(w, steps, i, h, e, input, snapshot)
  {
    AtFront(w, INITIAL, steps, i);
    forall k | i < k <= |steps| ensures Live(At(w, INITIAL, steps, k), h, e.generation) {
      if k < |steps| { AtFront(w, INITIAL, steps, k); } else { AtEnd(w, INITIAL, steps); }
    }
  }

  lemma {:induction false} AdmissionHistory(w: World, steps: seq<Step>, h: Hash, e: Entry)
    requires Same(Run(w, INITIAL, steps), h, e)
    ensures exists i: nat, input, snapshot :: AdmittedAt(w, steps, i, h, e, input, snapshot)
    decreases |steps|
  {
    var front, last := steps[..|steps| - 1], steps[|steps| - 1];
    var m := Run(w, INITIAL, front);
    RunKeyed(w, INITIAL, front);
    NextEntry(w, m, last, h);
    if h in m.entries {
      AdmissionHistory(w, front, h, m.entries[h]);
      var i: nat, input, snapshot :| AdmittedAt(w, front, i, h, m.entries[h], input, snapshot);
      StepProgress(w.cfg, last, m.entries[h]);
      AdmittedAtGrows(w, steps, i, h, m.entries[h], e, input, snapshot);
    } else {
      AtEnd(w, INITIAL, steps);
      AtFront(w, INITIAL, steps, |steps| - 1);
      AtEnd(w, INITIAL, front);
      assert AdmittedAt(w, steps, |steps| - 1, h, e, last.input, last.snapshot);
    }
  }

  /** What is still said of an entry is what its admission found: the rules read then asked for an audit, and the
      request describes the transaction under those rules. */
  lemma RequestDescribes(w: World, steps: seq<Step>, i: nat, h: Hash, e: Entry, input: Input, snapshot: seq<Rule>)
    requires w.cfg.maxEventBindings < U64_BOUND && AdmittedAt(w, steps, i, h, e, input, snapshot)
    ensures NeedsAudit(w, snapshot, input) && Describes(w, input, snapshot, e.request)
  {
    AdmittedIff(w, input, snapshot, steps[i].now);
  }

  // ---------------------------------------------------------------------------------------------
  // Tombstones
  // ---------------------------------------------------------------------------------------------

  /** The only ways a dropped entry leaves: canonical inclusion, or pruning strictly after retention. */
  ghost predicate RemovesTombstone(cfg: Config, step: Step, e: Entry) {
    || (step.RemoveCanonical? && e.txHash in step.hashes)
    || (step.TimeoutTick? && Elapsed(step.now, e.lastTransitionAt) > cfg.terminalEntryRetention)
  }

  lemma TombstoneStep(cfg: Config, step: Step, e: Entry)
    requires e.status.Dropped?
    ensures Evolve(cfg, step, e) == if RemovesTombstone(cfg, step, e) then None else Some(e)
  {
  }

  /** A dropped entry is unchanged at the end of every run, unless some step of the run removed it, still
      unchanged, by canonical inclusion or after retention. Lag recovery is not among those steps. */
  lemma {:induction false} TombstoneSurvives(w: World, s: State, steps: seq<Step>, h: Hash, e: Entry)
    requires Keyed(s.entries) && Same(s, h, e) && e.status.Dropped?
    ensures Same(Run(w, s, steps), h, e)
         || exists k: nat :: k < |steps| && Same(At(w, s, steps, k), h, e) && RemovesTombstone(w.cfg, steps[k], e)
    decreases |steps|
  {
    if steps != [] {
      var front, last := steps[..|steps| - 1], steps[|steps| - 1];
      TombstoneSurvives(w, s, front, h, e);
      var m := Run(w, s, front);
      if Same(m, h, e) {
        NextEntry(w, m, last, h);
        TombstoneStep(w.cfg, last, e);
        AtFront(w, s, steps, |front|);
        AtEnd(w, s, front);
      } else {
        var k: nat :| k < |front| && Same(At(w, s, front, k), h, e) && RemovesTombstone(w.cfg, front[k], e);
        AtFront(w, s, steps, k);
        assert steps[k] == front[k];
      }
    }
  }

  // ---------------------------------------------------------------------------------------------
  // Deadlines
  // ---------------------------------------------------------------------------------------------

  /** A locked section that looks at the clock for this very lifecycle. */
  ghost predicate LooksAtDeadline(step: Step, e: Entry) {
    || step.ResolveTotals? || step.TimeoutTick?
    || (step.SubmitResponse? && e.txHash in step.expected && step.expected[e.txHash] == e.generation)
    || (step.QueryAnswers? && e.txHash in step.answers && step.answers[e.txHash].0 == e.generation)
  }

  /** Whatever RCS answered, a late lifecycle takes its own timeout action. */
  lemma LateMeansFallback(cfg: Config, step: Step, e: Entry)
    requires LooksAtDeadline(step, e) && Expired(cfg, e, step.now)
    ensures Evolve(cfg, step, e) == Some(Move(e, FallbackStatus(e), step.now))
    ensures EventOn(cfg, step, e) == if e.request.timeoutAction.DenyOnTimeout?
                                     then Some(Event(e.txHash, e.generation, FailCloseTimeout)) else None
  {
  }

  /** A timeout tick leaves no retryable entry past its deadline and none stalled at RCS. */
  lemma TickLeavesNoneLate(w: World, s: State, now: nat, h: Hash)
    requires h in Next(w, s, TimeoutTick(now)).entries
    ensures var e := Next(w, s, TimeoutTick(now)).entries[h];
            && (Retryable(e.status) ==> Elapsed(now, e.firstNotSubmittedAt) <= w.cfg.totalRetryTimeout)
            && (e.status.Submitted? ==> Elapsed(now, e.lastTransitionAt) <= w.cfg.submittedConfirmationTimeout)
            && (e.status.Pending? ==> Elapsed(now, e.lastTransitionAt) <= w.cfg.riskModuleUnresponsiveTimeout)
            && (Terminal(e.status) ==> Elapsed(now, e.lastTransitionAt) <= w.cfg.terminalEntryRetention)
  {
    NextEntry(w, s, TimeoutTick(now), h);
  }

  ghost predicate AdmitsAt(w: World, steps: seq<Step>, i: nat, h: Hash) {
    i < |steps| && Inserts(w, At(w, INITIAL, steps, i), steps[i]) && steps[i].input.txHash == h
  }

  /** The deadline base is the admission time, for as long as the lifecycle lives. */
  lemma DeadlineBase(w: World, steps: seq<Step>, i: nat, h: Hash)
    requires AdmitsAt(w, steps, i, h) && Insertions(w, INITIAL, steps) < U64_BOUND
    requires Live(Run(w, INITIAL, steps), h, At(w, INITIAL, steps, i + 1).nextGeneration)
    ensures Run(w, INITIAL, steps).entries[h].firstNotSubmittedAt == steps[i].now
  {
    AtStep(w, INITIAL, steps, i);
    NextEntry(w, At(w, INITIAL, steps, i), steps[i], h);
    AtEnd(w, INITIAL, steps);
    LifecycleProgress(w, steps, i + 1, |steps|, h);
  }

  lemma PastDeadline(w: World, s: State, step: Step, h: Hash)
    requires h in s.entries && LooksAtDeadline(step, s.entries[h])
    requires Elapsed(step.now, s.entries[h].firstNotSubmittedAt) > w.cfg.totalRetryTimeout
    ensures h in Next(w, s, step).entries ==> !Retryable(Next(w, s, step).entries[h].status)
  {
    var e := s.entries[h];
    NextEntry(w, s, step, h);
    if Expired(w.cfg, e, step.now) {
      LateMeansFallback(w.cfg, step, e);
    } else if Evolve(w.cfg, step, e).Some? {
      SettledStays(w.cfg, step, e);
    }
  }

  /** No sequence of retries moves the deadline: a lifecycle admitted at step `i` is no longer retryable
      after any later clock look past that admission time plus the total timeout. */
  lemma DeadlineNeverMoves(w: World, steps: seq<Step>, i: nat, h: Hash, last: Step)
    requires AdmitsAt(w, steps, i, h) && Insertions(w, INITIAL, steps) < U64_BOUND
    requires Live(Run(w, INITIAL, steps), h, At(w, INITIAL, steps, i + 1).nextGeneration)
    requires LooksAtDeadline(last, Run(w, INITIAL, steps).entries[h])
    requires Elapsed(last.now, steps[i].now) > w.cfg.totalRetryTimeout
    ensures var s := Next(w, Run(w, INITIAL, steps), last);
            h in s.entries ==> !Retryable(s.entries[h].status)
  {
    DeadlineBase(w, steps, i, h);
    PastDeadline(w, Run(w, INITIAL, steps), last, h);
  }

  lemma SettledStays(cfg: Config, step: Step, e: Entry)
    requires !Retryable(e.status) && Evolve(cfg, step, e).Some?
    ensures !Retryable(Evolve(cfg, step, e).value.status)
  {
  }

  // ---------------------------------------------------------------------------------------------
  // Terminal events
  // ---------------------------------------------------------------------------------------------

  /** The entry is dropped here, and not by the builder's own consistency check. */
  ghost predicate Discards(cfg: Config, step: Step, e: Entry) {
    && !Terminal(e.status) && !step.FinishConsistency?
    && Evolve(cfg, step, e).Some? && Evolve(cfg, step, e).value.status.Dropped?
  }

  /** A step owes an event for an entry exactly when it discards it. */
  lemma EventIffDiscard(cfg: Config, step: Step, e: Entry)
    ensures EventOn(cfg, step, e).Some? <==> Discards(cfg, step, e)
    ensures EventOn(cfg, step, e).Some? ==> EventOn(cfg, step, e).value.txHash == e.txHash
    ensures EventOn(cfg, step, e).Some? ==> EventOn(cfg, step, e).value.generation == e.generation
  {
  }

  ghost predicate DiscardedAt(w: World, steps: seq<Step>, i: nat, h: Hash, g: nat) {
    && i < |steps| && Live(At(w, INITIAL, steps, i), h, g)
    && Discards(w.cfg, steps[i], At(w, INITIAL, steps, i).entries[h])
  }

  ghost predicate Discarded(w: World, steps: seq<Step>, h: Hash, g: nat) {
    exists i: nat :: DiscardedAt(w, steps, i, h, g)
  }

  lemma EventForIs(w: World, s: State, step: Step, h: Hash, g: nat)
    requires Keyed(s.entries)
    ensures EventFor(w.cfg, s, step, h, g) <==> Live(s, h, g) && Discards(w.cfg, step, s.entries[h])
  {
    if h in s.entries { EventIffDiscard(w.cfg, step, s.entries[h]); }
  }

  lemma DiscardedSnoc(w: World, steps: seq<Step>, h: Hash, g: nat)
    requires steps != []
    ensures Discarded(w, steps, h, g) <==>
            || Discarded(w, steps[..|steps| - 1], h, g)
            || EventFor(w.cfg, Run(w, INITIAL, steps[..|steps| - 1]), steps[|steps| - 1], h, g)
  {
    var front, n := steps[..|steps| - 1], |steps| - 1;
    RunKeyed(w, INITIAL, front);
    EventForIs(w, Run(w, INITIAL, front), steps[n], h, g);
    AtFront(w, INITIAL, steps, n);
    AtEnd(w, INITIAL, front);
    if i: nat :| DiscardedAt(w, steps, i, h, g) {
      AtFront(w, INITIAL, steps, i);
      if i < n { assert DiscardedAt(w, front, i, h, g); }
    }
    if i: nat :| DiscardedAt(w, front, i, h, g) {
      AtFront(w, INITIAL, steps, i);
      assert DiscardedAt(w, steps, i, h, g);
    }
    if EventFor(w.cfg, Run(w, INITIAL, front), steps[n], h, g) {
      assert DiscardedAt(w, steps, n, h, g);
    }
  }

  /** What is known once an event is owed: the lifecycle is a tombstone or gone, and cannot come back. */
  ghost predicate SettledAfterEvent(s: State, h: Hash, g: nat) {
    g <= s.nextGeneration && (Live(s, h, g) ==> s.entries[h].status.Dropped?)
  }

  lemma SettledStep(w: World, s: State, step: Step, h: Hash, g: nat)
    requires Good(s) && (Inserts(w, s, step) ==> s.nextGeneration + 1 < U64_BOUND)
    requires SettledAfterEvent(s, h, g) || EventFor(w.cfg, s, step, h, g)
    ensures SettledAfterEvent(Next(w, s, step), h, g)
    ensures !(SettledAfterEvent(s, h, g) && EventFor(w.cfg, s, step, h, g))
  {
    EventForIs(w, s, step, h, g);
    NextCounter(w, s, step);
    if SettledAfterEvent(s, h, g) { StaysSettled(w, s, step, h, g); } else { EventSettles(w, s, step, h, g); }
  }

  lemma StaysSettled(w: World, s: State, step: Step, h: Hash, g: nat)
    requires Good(s) && (Inserts(w, s, step) ==> s.nextGeneration + 1 < U64_BOUND) && SettledAfterEvent(s, h, g)
    ensures Live(Next(w, s, step), h, g) ==> Next(w, s, step).entries[h].status.Dropped?
  {
    if Live(Next(w, s, step), h, g) {
      NextIdentity(w, s, step, h);
      NextEntry(w, s, step, h);
      StepProgress(w.cfg, step, s.entries[h]);
    }
  }

  lemma EventSettles(w: World, s: State, step: Step, h: Hash, g: nat)
    requires Good(s) && Live(s, h, g) && Discards(w.cfg, step, s.entries[h])
    ensures g <= s.nextGeneration && Next(w, s, step).entries[h].status.Dropped?
  {
    NextEntry(w, s, step, h);
  }

  lemma {:induction false} EventCountIs(w: World, steps: seq<Step>, h: Hash, g: nat)
    requires Insertions(w, INITIAL, steps) < U64_BOUND
    ensures EventCount(w, INITIAL, steps, h, g) == if Discarded(w, steps, h, g) then 1 else 0
    ensures Discarded(w, steps, h, g) ==> SettledAfterEvent(Run(w, INITIAL, steps), h, g)
    decreases |steps|
  {
    if steps != [] {
      var front, last := steps[..|steps| - 1], steps[|steps| - 1];
      EventCountIs(w, front, h, g);
      DiscardedSnoc(w, steps, h, g);
      RunGood(w, INITIAL, front);
      if Discarded(w, front, h, g) || EventFor(w.cfg, Run(w, INITIAL, front), last, h, g) {
        SettledStep(w, Run(w, INITIAL, front), last, h, g);
      }
    }
  }

  /** Some point of the run at which the lifecycle is a fail-open release. */
  ghost predicate WasReleased(w: World, steps: seq<Step>, h: Hash, g: nat) {
    exists j: nat ::
           j <= |steps| && Live(At(w, INITIAL, steps, j), h, g)
             && At(w, INITIAL, steps, j).entries[h].status.TimedOutAllow?
  }

  /** The builder's consistency check dropped the approved lifecycle at step `j`. */
  ghost predicate MismatchAt(w: World, steps: seq<Step>, j: nat, h: Hash, g: nat) {
    && j < |steps| && steps[j].FinishConsistency? && Live(At(w, INITIAL, steps, j), h, g)
    && At(w, INITIAL, steps, j).entries[h].status.Approved?
    && Live(At(w, INITIAL, steps, j + 1), h, g) && At(w, INITIAL, steps, j + 1).entries[h].status.Dropped?
  }

  ghost predicate WasMismatch(w: World, steps: seq<Step>, h: Hash, g: nat) {
    exists j: nat :: MismatchAt(w, steps, j, h, g)
  }

  /** After a discard the lifecycle is a tombstone wherever it is still live; before it, it is not terminal. */
  lemma AroundDiscard(w: World, steps: seq<Step>, i: nat, k: nat, h: Hash, g: nat)
    requires Insertions(w, INITIAL, steps) < U64_BOUND && DiscardedAt(w, steps, i, h, g)
    requires k <= |steps| && Live(At(w, INITIAL, steps, k), h, g)
    ensures k <= i ==> !Terminal(At(w, INITIAL, steps, k).entries[h].status)
    ensures k > i ==> At(w, INITIAL, steps, k).entries[h].status.Dropped?
  {
    if k <= i {
      LifecycleProgress(w, steps, k, i, h);
    } else {
      AtStep(w, INITIAL, steps, i);
      RunKeyed(w, INITIAL, steps[..i]);
      NextEntry(w, At(w, INITIAL, steps, i), steps[i], h);
      EvolveKeepsIdentity(w.cfg, steps[i], At(w, INITIAL, steps, i).entries[h]);
      LifecycleProgress(w, steps, i + 1, k, h);
    }
  }

  lemma DiscardExcludesRelease(w: World, steps: seq<Step>, i: nat, h: Hash, g: nat)
    requires Insertions(w, INITIAL, steps) < U64_BOUND && DiscardedAt(w, steps, i, h, g)
    ensures !WasReleased(w, steps, h, g)
  {
    if j: nat :|
      j <= |steps| && Live(At(w, INITIAL, steps, j), h, g)
        && At(w, INITIAL, steps, j).entries[h].status.TimedOutAllow? {
      AroundDiscard(w, steps, i, j, h, g);
    }
  }

  lemma DiscardExcludesMismatch(w: World, steps: seq<Step>, i: nat, h: Hash, g: nat)
    requires Insertions(w, INITIAL, steps) < U64_BOUND && DiscardedAt(w, steps, i, h, g)
    ensures !WasMismatch(w, steps, h, g)
  {
    if j: nat :| MismatchAt(w, steps, j, h, g) {
      AroundDiscard(w, steps, i, j, h, g);
      AroundDiscard(w, steps, i, j + 1, h, g);
    }
  }

  /** Terminal events over every run of fewer than 2^64 insertions: at most one per lifecycle; exactly one
      when a query or a fail-close timeout dropped it; none for a fail-open release or a mismatch. */
  lemma OneEventPerDiscard(w: World, steps: seq<Step>, h: Hash, g: nat)
    requires Insertions(w, INITIAL, steps) < U64_BOUND
    ensures EventCount(w, INITIAL, steps, h, g) == if Discarded(w, steps, h, g) then 1 else 0
    ensures WasReleased(w, steps, h, g) ==> EventCount(w, INITIAL, steps, h, g) == 0
    ensures WasMismatch(w, steps, h, g) ==> EventCount(w, INITIAL, steps, h, g) == 0
  {
    EventCountIs(w, steps, h, g);
    if i: nat :| DiscardedAt(w, steps, i, h, g) {
      DiscardExcludesRelease(w, steps, i, h, g);
      DiscardExcludesMismatch(w, steps, i, h, g);
    }
  }

  lemma CauseOfDrop(cfg: Config, step: Step, b: Entry, e: Entry)
    requires Evolve(cfg, step, b) == Some(e) && b != e && e.status.Dropped?
    ensures !Terminal(b.status)
    ensures step.FinishConsistency? ==>
            b.status.Approved? && step.hash == b.txHash && step.generation == b.generation && !step.consistent
    ensures !step.FinishConsistency? ==> Discards(cfg, step, b)
  {
  }

  lemma DropCause(w: World, steps: seq<Step>, i: nat, h: Hash, e: Entry)
    requires LastChangedAt(w, steps, i, h, e) && e.status.Dropped?
    ensures DiscardedAt(w, steps, i, h, e.generation) || MismatchAt(w, steps, i, h, e.generation)
  {
    ChangedBy(w, steps, i, h, e);
    var b := At(w, INITIAL, steps, i).entries[h];
    CauseOfDrop(w.cfg, steps[i], b, e);
    EvolveKeepsIdentity(w.cfg, steps[i], b);
    assert Same(At(w, INITIAL, steps, i + 1), h, e);
  }

  /** A dropped entry was discarded, with one event owed, or failed the consistency check while approved, with
      none; it is unchanged since, and never both. */
  lemma DropHistory(w: World, steps: seq<Step>, h: Hash, e: Entry)
    requires Same(Run(w, INITIAL, steps), h, e) && e.status.Dropped?
    ensures exists i: nat :: && (DiscardedAt(w, steps, i, h, e.generation) || MismatchAt(w, steps, i, h, e.generation))
                             && SameSince(w, steps, i + 1, h, e)
    ensures Insertions(w, INITIAL, steps) < U64_BOUND ==>
              && (Discarded(w, steps, h, e.generation) <==> !WasMismatch(w, steps, h, e.generation))
              && EventCount(w, INITIAL, steps, h, e.generation) == if Discarded(w, steps, h, e.generation) then 1 else 0
  {
    LastChange(w, steps, h, e);
    var i: nat :| LastChangedAt(w, steps, i, h, e);
    DropCause(w, steps, i, h, e);
    if Insertions(w, INITIAL, steps) < U64_BOUND { OneEventPerDiscard(w, steps, h, e.generation); }
  }
}
