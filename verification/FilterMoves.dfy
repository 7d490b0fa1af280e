/** What each step makes of each entry, spelled out state by state on the pool before and after, and what an
    admission fixes. */
module FilterMoves {
  import opened Prelude
  import opened Wire
  import opened Matcher
  import opened MatcherSpec
  import opened QuotaEncoding
  import opened Lifecycle
  import opened Pool
  import opened FilterSteps
  import opened FilterInvariants

  // ---------------------------------------------------------------------------------------------
  // Steps on a buffered entry
  // ---------------------------------------------------------------------------------------------

  /** The total time allowed since admission is over and RCS has not decided. */
  ghost predicate Late(cfg: Config, e: Entry, now: nat) {
    e.status in {NotSubmitted, Submitted, Pending} && now > e.firstNotSubmittedAt + cfg.totalRetryTimeout
  }

  /** RCS has kept silent about a submitted or pending transaction for too long. */
  ghost predicate Stalled(cfg: Config, e: Entry, now: nat) {
    || (e.status == Submitted && now > e.lastTransitionAt + cfg.submittedConfirmationTimeout)
    || (e.status == Pending && now > e.lastTransitionAt + cfg.riskModuleUnresponsiveTimeout)
  }

  /** The entry of `h` goes from `e` to `e'`. */
  ghost predicate Becomes(w: World, s: State, step: Step, h: Hash, e': Entry) {
    h in Next(w, s, step).entries && Next(w, s, step).entries[h] == e'
  }

  /** A step that looks at the clock on behalf of this lifecycle: both sweeps, and a reply naming its generation. */
  ghost predicate Clocks(step: Step, h: Hash, g: nat) {
    match step
    case ResolveTotals(_) => true
    case TimeoutTick(_) => true
    case SubmitResponse(_, expected, _) => h in expected && expected[h] == g
    case QueryAnswers(answers, _) => h in answers && answers[h].0 == g
    case _ => false
  }

  /** Whatever RCS says, a late lifecycle is released if its rules say so, and dropped with an event if not. */
  lemma LateMoves(w: World, s: State, step: Step, h: Hash)
    requires Keyed(s.entries) && h in s.entries && Clocks(step, h, s.entries[h].generation)
    requires Late(w.cfg, s.entries[h], step.now)
    ensures var e := s.entries[h];
            match e.request.timeoutAction
            case AllowOnTimeout =>
              && Becomes(w, s, step, h, e.(status := TimedOutAllow, lastTransitionAt := step.now))
              && EventOn(w.cfg, step, e) == None
            case DenyOnTimeout =>
              && Becomes(w, s, step, h, e.(status := Dropped, lastTransitionAt := step.now))
              && EventOn(w.cfg, step, e) == Some(Event(h, e.generation, FailCloseTimeout))
  {
    NextEntry(w, s, step, h);
  }

  /** An answer in time about an undecided or approved lifecycle: approval and pending only move it forward, a
      rejection drops it from anywhere and is announced with its own reason. */
  lemma AnswerMoves(w: World, s: State, answers: map<Hash, (nat, Answer)>, now: nat, h: Hash)
    requires Keyed(s.entries) && h in s.entries && h in answers && answers[h].0 == s.entries[h].generation
    requires !Late(w.cfg, s.entries[h], now) && s.entries[h].status !in {TimedOutAllow, Dropped}
    ensures var step, e := QueryAnswers(answers, now), s.entries[h];
            match answers[h].1
            case SaysApproved =>
              && EventOn(w.cfg, step, e) == None
              && Becomes(w, s, step, h, if e.status in {Submitted, Pending}
                                        then e.(status := Approved, lastTransitionAt := now) else e)
            case SaysPending =>
              && EventOn(w.cfg, step, e) == None
              && Becomes(w, s, step, h, if e.status == Submitted
                                        then e.(status := Pending, lastTransitionAt := now) else e)
            case SaysDenied =>
              && EventOn(w.cfg, step, e) == Some(Event(h, e.generation, DeniedByRcs))
              && Becomes(w, s, step, h, e.(status := Dropped, lastTransitionAt := now))
            case SaysOutdated =>
              && EventOn(w.cfg, step, e) == Some(Event(h, e.generation, OutdatedAtRcs))
              && Becomes(w, s, step, h, e.(status := Dropped, lastTransitionAt := now))
            case SaysOther => EventOn(w.cfg, step, e) == None && Becomes(w, s, step, h, e)
  {
    NextEntry(w, s, QueryAnswers(answers, now), h);
  }

  /** A submit reply in time: what was accepted and still waits becomes submitted, nothing else changes. */
  lemma AcceptanceMoves(w: World, s: State, accepted: set<Hash>, expected: map<Hash, nat>, now: nat, h: Hash)
    requires Keyed(s.entries) && h in s.entries && h in expected && expected[h] == s.entries[h].generation
    requires !Late(w.cfg, s.entries[h], now)
    ensures var step, e := SubmitResponse(accepted, expected, now), s.entries[h];
            && EventOn(w.cfg, step, e) == None
            && Becomes(w, s, step, h, if e.status == NotSubmitted && h in accepted
                                      then e.(status := Submitted, lastTransitionAt := now) else e)
  {
    NextEntry(w, s, SubmitResponse(accepted, expected, now), h);
  }

  /** A timeout tick: what stalls at RCS is to be submitted again, a terminal entry past retention is forgotten,
      everything else in time stays as it is. */
  lemma TickMoves(w: World, s: State, now: nat, h: Hash)
    requires Keyed(s.entries) && h in s.entries && !Late(w.cfg, s.entries[h], now)
    ensures var step, e := TimeoutTick(now), s.entries[h];
            && EventOn(w.cfg, step, e) == None
            && if Stalled(w.cfg, e, now)
               then Becomes(w, s, step, h, e.(status := NotSubmitted, lastTransitionAt := now))
               else if e.status in {TimedOutAllow, Dropped} && now > e.lastTransitionAt + w.cfg.terminalEntryRetention
               then h !in Next(w, s, step).entries
               else Becomes(w, s, step, h, e)
  {
    NextEntry(w, s, TimeoutTick(now), h);
  }

  /** The consistency check drops an approved lifecycle that fails it, and announces nothing. */
  lemma CheckMoves(w: World, s: State, hash: Hash, g: nat, consistent: bool, now: nat, h: Hash)
    requires Keyed(s.entries) && h in s.entries
    ensures var step, e := FinishConsistency(hash, g, consistent, now), s.entries[h];
            && EventOn(w.cfg, step, e) == None
            && Becomes(w, s, step, h, if hash == h && g == e.generation && e.status == Approved && !consistent
                                      then e.(status := Dropped, lastTransitionAt := now) else e)
  {
    NextEntry(w, s, FinishConsistency(hash, g, consistent, now), h);
  }

  /** The steps that remove: inclusion by hash, lag recovery all but the dropped, a targeted removal its own
      lifecycle unless it is terminal. What is not removed stays as it is. */
  ghost predicate Removes(step: Step, h: Hash, e: Entry) {
    match step
    case RemoveCanonical(hashes) => h in hashes
    case RecoverLag => e.status != Dropped
    case RemoveNonTerminal(hash, g) => hash == h && g == e.generation && e.status !in {TimedOutAllow, Dropped}
    case _ => false
  }

  lemma RemovalMoves(w: World, s: State, step: Step, h: Hash)
    requires Keyed(s.entries) && h in s.entries
    requires step.RemoveCanonical? || step.RecoverLag? || step.RemoveNonTerminal?
    ensures EventOn(w.cfg, step, s.entries[h]) == None
    ensures if Removes(step, h, s.entries[h]) then h !in Next(w, s, step).entries
            else Becomes(w, s, step, h, s.entries[h])
  {
    NextEntry(w, s, step, h);
  }

  /** Nothing else moves an entry: a reload, an admission, a deadline sweep in time, and a reply that does not name
      its lifecycle all leave it as it is. */
  lemma OthersLeave(w: World, s: State, step: Step, h: Hash)
    requires Keyed(s.entries) && h in s.entries
    requires || step.InstallRules? || step.Admit?
             || (step.ResolveTotals? && !Late(w.cfg, s.entries[h], step.now))
             || ((step.SubmitResponse? || step.QueryAnswers?) && !Clocks(step, h, s.entries[h].generation))
             || (step.QueryAnswers? && s.entries[h].status in {TimedOutAllow, Dropped})
    ensures Becomes(w, s, step, h, s.entries[h]) && EventOn(w.cfg, step, s.entries[h]) == None
  {
    NextEntry(w, s, step, h);
  }

  // ---------------------------------------------------------------------------------------------
  // Admission
  // ---------------------------------------------------------------------------------------------

  /** The rules refuse the transaction: one of them denies it, or there is too much to evaluate. */
  ghost predicate Refused(w: World, rules: seq<Rule>, input: Input) {
    AnyDenies(w.lib, rules, input) || Total(w.lib, rules, input, |rules|) > w.cfg.maxEventBindings
  }

  /** The rules ask for an audit. */
  ghost predicate NeedsAudit(w: World, rules: seq<Rule>, input: Input) {
    !Refused(w, rules, input) && AnyAudits(w.lib, rules, input)
  }

  /** What the request of a buffered transaction says about it. */
  ghost predicate Describes(w: World, input: Input, rules: seq<Rule>, r: Request) {
    && r.origin == input.origin && r.nonce == input.nonce && r.blockHeight == input.blockHeight && r.rules == rules
    && (match input.txTo
        case Some(to) => r.contractAddress == to
        case None => forall i :: 0 <= i < 20 ==> r.contractAddress[i] == 0)
    && (r.timeoutAction == DenyOnTimeout <==> AnyAuditFailsClosed(w.lib, rules, input))
    && (forall t: Text :: Emits(w.lib, rules, input, t, r.actions))
    && r.quotaHash == w.keccak(Encode(w.parse, r.actions))
  }

  lemma OutcomeIs(w: World, rules: seq<Rule>, input: Input)
    requires w.cfg.maxEventBindings < U64_BOUND
    ensures var outcome := TryEvaluate(w.lib, rules, input, w.cfg.maxEventBindings);
            && (outcome.Err? || outcome.value.Denied? <==> Refused(w, rules, input))
            && (outcome.Ok? && outcome.value.Audited? <==> NeedsAudit(w, rules, input))
            && (outcome.Ok? && outcome.value.Audited? ==>
                  (outcome.value.timeoutAction == DenyOnTimeout <==> AnyAuditFailsClosed(w.lib, rules, input)))
  {
    VerdictIs(w.lib, rules, input, w.cfg.maxEventBindings);
  }

  /** A transaction is buffered iff the rules ask for an audit of it, and then with a request that describes it, not
      yet submitted, and both clocks at the time of admission. */
  lemma AdmittedIff(w: World, input: Input, rules: seq<Rule>, now: nat)
    requires w.cfg.maxEventBindings < U64_BOUND
    ensures Admitted(w, input, rules, now).Some? <==> NeedsAudit(w, rules, input)
    ensures Admitted(w, input, rules, now).Some? ==>
              var e := Admitted(w, input, rules, now).value;
              && e.txHash == input.txHash && e.status == NotSubmitted
              && e.firstNotSubmittedAt == e.lastTransitionAt == now && Describes(w, input, rules, e.request)
  {
    OutcomeIs(w, rules, input);
    if Admitted(w, input, rules, now).Some? {
      var r := Admitted(w, input, rules, now).value.request;
      forall t: Text ensures Emits(w.lib, rules, input, t, r.actions) {
        EmittedActions(w.lib, rules, input, w.cfg.maxEventBindings, t);
      }
    }
  }

  /** The admission step on the pool: a hash that is there stays as it is, any other is buffered iff the rules read
      ask for it, under the next generation. */
  lemma AdmissionMoves(w: World, s: State, input: Input, rules: seq<Rule>, now: nat)
    requires w.cfg.maxEventBindings < U64_BOUND && s.nextGeneration < U64_BOUND
    ensures var s' := Next(w, s, Admit(input, rules, now));
            if input.txHash in s.entries || !NeedsAudit(w, rules, input) then s' == s
            else
              && input.txHash in s'.entries && s'.entries.Keys == s.entries.Keys + {input.txHash}
              && var e := s'.entries[input.txHash];
                 && e.txHash == input.txHash && e.status == NotSubmitted
                 && e.generation == s'.nextGeneration == (if s.nextGeneration + 1 < U64_BOUND then s.nextGeneration + 1
                                                          else 0)
                 && e.firstNotSubmittedAt == e.lastTransitionAt == now && Describes(w, input, rules, e.request)
  {
    AdmittedIff(w, input, rules, now);
    NextCounter(w, s, Admit(input, rules, now));
    var step := Admit(input, rules, now);
    assert Survivors(w.cfg, s.entries, step) == s.entries;
  }
}
