/** What one screening call decides, given what the other threads do between its locked sections. */
module Screening {
  import opened Prelude
  import opened Wire
  import opened Matcher
  import opened MatcherSpec
  import opened QuotaEncoding
  import opened Lifecycle
  import opened Pool
  import opened FilterSteps
  import opened FilterInvariants
  import opened FilterMoves
  import opened FilterHistory

  datatype Screen = Allow | Deny | AuditPending | AuditApproved | Drop

  datatype PreScreen = Execute | Defer | PreDrop

  /** What the first lock reads of an existing entry. */
  datatype Token = Token(status: Status, storedHash: nat, generation: nat, snapshot: seq<Rule>)

  /** Steps of other threads in the gaps between this call's locked sections. */
  datatype Gaps = Gaps(first: seq<Step>, second: seq<Step>, third: seq<Step>)

  function TokenOf(e: Entry): Token {
    Token(e.status, e.request.quotaHash, e.generation, e.request.rules)
  }

  /** The current logs, under the submit-time rules, give the stored quota hash. */
  predicate Consistent(w: World, snapshot: seq<Rule>, input: Input, storedHash: nat) {
    var outcome := TryEvaluate(w.lib, snapshot, input, w.cfg.maxEventBindings);
    outcome.Ok? && outcome.value.Audited? && QuotaHash(w, outcome.value.actions) == storedHash
  }

  predicate Holding(s: State, h: Hash, g: nat, status: Status) {
    Live(s, h, g) && s.entries[h].status == status
  }

  function ExistingScreen(w: World, s: State, t: Token, input: Input, now: nat, others: seq<Step>)
    : (Screen, seq<Step>)
  {
    var h := input.txHash;
    match t.status
    case TimedOutAllow => (if Holding(Run(w, s, others), h, t.generation, TimedOutAllow) then AuditApproved
                           else AuditPending, others)
    case Dropped => (if Holding(Run(w, s, others), h, t.generation, Dropped) then Drop else AuditPending, others)
    case Approved => ApprovedScreen(w, s, t, input, now, others)
    case _ => (AuditPending, others)
  }

  /** The quota is recomputed from the current logs under the submit-time rules. */
  function ApprovedScreen(w: World, s: State, t: Token, input: Input, now: nat, others: seq<Step>)
    : (Screen, seq<Step>)
  {
    var consistent := Consistent(w, t.snapshot, input, t.storedHash);
    var steps := others + [FinishConsistency(input.txHash, t.generation, consistent, now)];
    var after := Run(w, s, steps);
    (if Holding(after, input.txHash, t.generation, Approved) && consistent then AuditApproved
     else if Holding(after, input.txHash, t.generation, Dropped) then Drop
     else AuditPending,
     steps)
  }

  function ScreenOf(w: World, s: State, input: Input, now: nat, gaps: Gaps): (Screen, seq<Step>) {
    if input.txHash in s.entries then
      ExistingScreen(w, s, TokenOf(s.entries[input.txHash]), input, now, gaps.first)
    else FreshScreen(w, s, input, now, gaps)
  }

  function FreshScreen(w: World, s: State, input: Input, now: nat, gaps: Gaps): (Screen, seq<Step>) {
    var read := Run(w, s, gaps.first);
    var outcome := TryEvaluate(w.lib, read.rules, input, w.cfg.maxEventBindings);
    if outcome.Err? || outcome.value.Denied? then (Screen.Deny, gaps.first)
    else if outcome.value.Audited? then (AuditPending, gaps.first + gaps.second + [Admit(input, read.rules, now)])
    else
      var r := AllowedScreen(w, Run(w, s, gaps.first + gaps.second), input, now, gaps.third);
      (r.0, gaps.first + gaps.second + r.1)
  }

  /** Allowed by the rules: a second look at the pool catches an entry buffered meanwhile. */
  function AllowedScreen(w: World, s: State, input: Input, now: nat, others: seq<Step>): (Screen, seq<Step>) {
    if input.txHash !in s.entries then (Screen.Allow, [])
    else ExistingScreen(w, s, TokenOf(s.entries[input.txHash]), input, now, others)
  }

  function PreScreenOf(s: State, h: Hash): PreScreen {
    if h !in s.entries then Execute
    else
      match s.entries[h].status
      case Approved => Execute
      case TimedOutAllow => Execute
      case Dropped => PreDrop
      case _ => Defer
  }

  lemma SingleStep(w: World, s: State, step: Step)
    ensures Run(w, s, [step]) == Next(w, s, step)
  {
    assert [step][..0] == [];
  }

  // ---------------------------------------------------------------------------------------------
  // What an approval rests on
  // ---------------------------------------------------------------------------------------------

  /** At this moment the transaction may be packaged. */
  ghost predicate MayPackage(w: World, s: State, input: Input, g: nat) {
    && Live(s, input.txHash, g)
    && var e := s.entries[input.txHash];
       e.status.TimedOutAllow? || (e.status.Approved? && Consistent(w, e.request.rules, input, e.request.quotaHash))
  }

  lemma FinishKeepsOthers(w: World, s: State, h: Hash, g: nat, consistent: bool, now: nat)
    requires Keyed(s.entries)
    ensures var t := Next(w, s, FinishConsistency(h, g, consistent, now));
            && (Holding(t, h, g, Approved) <==> Holding(s, h, g, Approved) && consistent)
            && (Holding(t, h, g, Dropped) <==> Holding(s, h, g, Dropped) || (Holding(s, h, g, Approved) && !consistent))
            && (consistent ==> t.entries == s.entries)
  {
    NextEntry(w, s, FinishConsistency(h, g, consistent, now), h);
  }

  /** An existing entry passes only if, when the deciding lock is taken, its own lifecycle may be packaged. */
  lemma ExistingApproved(w: World, s: State, input: Input, now: nat, others: seq<Step>)
    requires Good(s) && s.nextGeneration + Insertions(w, s, others) < U64_BOUND && input.txHash in s.entries
    requires ExistingScreen(w, s, TokenOf(s.entries[input.txHash]), input, now, others).0 == AuditApproved
    ensures MayPackage(w, Run(w, s, others), input, s.entries[input.txHash].generation)
  {
    var h, m := input.txHash, Run(w, s, others);
    var t := TokenOf(s.entries[h]);
    RunKeyed(w, s, others);
    if t.status.Approved? {
      var consistent := Consistent(w, t.snapshot, input, t.storedHash);
      RunConcat(w, s, others, [FinishConsistency(h, t.generation, consistent, now)]);
      SingleStep(w, m, FinishConsistency(h, t.generation, consistent, now));
      FinishKeepsOthers(w, m, h, t.generation, consistent, now);
      RunProgress(w, s, others, h);
    }
  }

  /** Why lifecycle `e` may be packaged at the end of `steps`: it was released by the deadline, or RCS
      approved it in time, nothing has touched it since, and the current logs match what was approved. */
  ghost predicate Justified(w: World, steps: seq<Step>, input: Input, e: Entry) {
    && Same(Run(w, INITIAL, steps), input.txHash, e)
    && (|| (exists i: nat ::
            ReleasedByTimeout(w, steps, i, input.txHash, e) && SameSince(w, steps, i + 1, input.txHash, e))
        || (&& (exists i: nat ::
                ApprovedInTime(w, steps, i, input.txHash, e) && SameSince(w, steps, i + 1, input.txHash, e))
            && Consistent(w, e.request.rules, input, e.request.quotaHash)))
  }

  lemma MayPackageIsJustified(w: World, steps: seq<Step>, input: Input, g: nat)
    requires MayPackage(w, Run(w, INITIAL, steps), input, g)
    ensures Justified(w, steps, input, Run(w, INITIAL, steps).entries[input.txHash])
  {
    var e := Run(w, INITIAL, steps).entries[input.txHash];
    if e.status.TimedOutAllow? {
      ReleaseHistory(w, steps, input.txHash, e);
    } else {
      ApprovalHistory(w, steps, input.txHash, e);
    }
  }

  /** The steps of the call before the entry it decides on is read, and before the lock under which it decides. */
  function BeforeReading(w: World, s: State, input: Input, gaps: Gaps): seq<Step> {
    if input.txHash in s.entries then [] else gaps.first + gaps.second
  }

  function BeforeDecision(w: World, s: State, input: Input, gaps: Gaps): seq<Step> {
    if input.txHash in s.entries then gaps.first else gaps.first + gaps.second + gaps.third
  }

  /** After the deciding lock is taken the call does at most one thing: record the consistency result. */
  lemma DecidesLast(w: World, s: State, input: Input, now: nat, gaps: Gaps)
    requires ScreenOf(w, s, input, now, gaps).0 == AuditApproved
    ensures var before, trace := BeforeDecision(w, s, input, gaps), ScreenOf(w, s, input, now, gaps).1;
            && before <= trace && |trace| <= |before| + 1
            && (|trace| > |before| ==> trace[|before|].FinishConsistency?)
  {
  }

  lemma ScreenApproved(w: World, s: State, input: Input, now: nat, gaps: Gaps)
    requires Good(s) && s.nextGeneration + Insertions(w, s, BeforeDecision(w, s, input, gaps)) < U64_BOUND
    requires ScreenOf(w, s, input, now, gaps).0 == AuditApproved
    ensures var read := Run(w, s, BeforeReading(w, s, input, gaps));
            && input.txHash in read.entries
            && MayPackage(w, Run(w, s, BeforeDecision(w, s, input, gaps)), input, read.entries[input.txHash].generation)
  {
    var h := input.txHash;
    if h in s.entries {
      ExistingApproved(w, s, input, now, gaps.first);
    } else {
      var early := gaps.first + gaps.second;
      var later := Run(w, s, early);
      RunConcat(w, s, early, gaps.third);
      InsertionsConcat(w, s, early, gaps.third);
      RunGood(w, s, early);
      ExistingApproved(w, later, input, now, gaps.third);
    }
  }

  // ---------------------------------------------------------------------------------------------
  // What every answer means
  // ---------------------------------------------------------------------------------------------

  /** The current logs are consistent with what was submitted: the submit-time rules still ask for an audit, and
      for one with the submitted quota hash. */
  lemma ConsistentIff(w: World, snapshot: seq<Rule>, input: Input, storedHash: nat)
    requires w.cfg.maxEventBindings < U64_BOUND
    ensures var verdict := Evaluate(w.lib, snapshot, input, w.cfg.maxEventBindings);
            && (NeedsAudit(w, snapshot, input) <==> verdict.Audited?)
            && (Consistent(w, snapshot, input, storedHash) <==>
                  verdict.Audited? && w.keccak(Encode(w.parse, verdict.actions)) == storedHash)
  {
    OutcomeIs(w, snapshot, input);
  }

  /** The lifecycle read as `e` is still there in `s`, in state `status`. */
  ghost predicate StillIn(s: State, e: Entry, h: Hash, status: Status) {
    h in s.entries && s.entries[h].generation == e.generation && s.entries[h].status == status
  }

  /** The lifecycle read as `e` may be packaged in `s`: it is a fail-open release, or approved and consistent. */
  ghost predicate Passes(w: World, s: State, input: Input, e: Entry) {
    || (e.status == TimedOutAllow && StillIn(s, e, input.txHash, TimedOutAllow))
    || (&& e.status == Approved && StillIn(s, e, input.txHash, Approved)
        && Consistent(w, e.request.rules, input, e.request.quotaHash))
  }

  /** The lifecycle read as `e` is dropped in `s`, or approved and about to be dropped as inconsistent. */
  ghost predicate Sinks(w: World, s: State, input: Input, e: Entry) {
    || (e.status in {Dropped, Approved} && StillIn(s, e, input.txHash, Dropped))
    || (&& e.status == Approved && StillIn(s, e, input.txHash, Approved)
        && !Consistent(w, e.request.rules, input, e.request.quotaHash))
  }

  /** The answer given about the lifecycle read as `e`, when the deciding lock finds the pool in state `s`. */
  ghost predicate AnswersBuffered(w: World, s: State, input: Input, e: Entry, screen: Screen) {
    && (screen == AuditApproved <==> Passes(w, s, input, e))
    && (screen == Drop <==> Sinks(w, s, input, e))
    && (screen == AuditPending <==> !Passes(w, s, input, e) && !Sinks(w, s, input, e))
  }

  lemma ExistingAnswer(w: World, s: State, input: Input, now: nat, others: seq<Step>)
    requires Keyed(s.entries) && input.txHash in s.entries
    ensures var e := s.entries[input.txHash];
            AnswersBuffered(w, Run(w, s, others), input, e, ExistingScreen(w, s, TokenOf(e), input, now, others).0)
  {
    var h := input.txHash;
    var e, d := s.entries[h], Run(w, s, others);
    if e.status.Approved? {
      var consistent := Consistent(w, e.request.rules, input, e.request.quotaHash);
      var finish := FinishConsistency(h, e.generation, consistent, now);
      RunConcat(w, s, others, [finish]);
      SingleStep(w, d, finish);
      RunKeyed(w, s, others);
      FinishKeepsOthers(w, d, h, e.generation, consistent, now);
    }
  }

  /** All a call does itself about an existing entry: record the outcome of the consistency check of an approved one. */
  function Recorded(w: World, e: Entry, input: Input, now: nat): seq<Step> {
    var consistent := Consistent(w, e.request.rules, input, e.request.quotaHash);
    if e.status == Approved then [FinishConsistency(input.txHash, e.generation, consistent, now)] else []
  }

  /** A transaction found buffered at the first lock: passed iff its lifecycle may be packaged at the deciding lock,
      dropped iff it is dropped there or inconsistent, else pending; never allowed nor denied. */
  lemma BufferedAnswer(w: World, s: State, input: Input, now: nat, gaps: Gaps)
    requires Keyed(s.entries) && input.txHash in s.entries
    ensures var e, r := s.entries[input.txHash], ScreenOf(w, s, input, now, gaps);
            && AnswersBuffered(w, Run(w, s, gaps.first), input, e, r.0)
            && r.1 == gaps.first + Recorded(w, e, input, now)
  {
    ExistingAnswer(w, s, input, now, gaps.first);
  }

  /** A transaction not buffered at the first lock, by the rules read after it: denied iff they refuse it; put under
      audit, and buffered from then on, iff they ask for that; allowed iff neither and it is still unbuffered at the
      second lock; otherwise decided as the entry found there. */
  lemma FreshAnswer(w: World, s: State, input: Input, now: nat, gaps: Gaps)
    requires Keyed(s.entries) && input.txHash !in s.entries && w.cfg.maxEventBindings < U64_BOUND
    ensures var rules, later := Run(w, s, gaps.first).rules, Run(w, s, gaps.first + gaps.second);
            var r := ScreenOf(w, s, input, now, gaps);
            && (r.0 == Screen.Deny <==> Refused(w, rules, input))
            && (r.0 == Screen.Deny ==> r.1 == gaps.first)
            && (r.0 == Screen.Allow ==> r.1 == gaps.first + gaps.second)
            && (r.0 == Screen.Allow <==>
                  !Refused(w, rules, input) && !NeedsAudit(w, rules, input) && input.txHash !in later.entries)
            && (NeedsAudit(w, rules, input) ==>
                  r.0 == AuditPending && r.1 == gaps.first + gaps.second + [Admit(input, rules, now)]
                  && BufferedBy(w, later, Run(w, s, r.1), input, rules, now))
            && (!Refused(w, rules, input) && !NeedsAudit(w, rules, input) && input.txHash in later.entries ==>
                  AnswersBuffered(w, Run(w, s, gaps.first + gaps.second + gaps.third), input,
                                  later.entries[input.txHash], r.0))
  {
    var rules, early := Run(w, s, gaps.first).rules, gaps.first + gaps.second;
    var later := Run(w, s, early);
    OutcomeIs(w, rules, input);
    RunKeyed(w, s, early);
    if NeedsAudit(w, rules, input) {
      RunConcat(w, s, early, [Admit(input, rules, now)]);
      SingleStep(w, later, Admit(input, rules, now));
      Buffers(w, later, input, rules, now);
    } else if !Refused(w, rules, input) && input.txHash in later.entries {
      RunConcat(w, s, early, gaps.third);
      ExistingAnswer(w, later, input, now, gaps.third);
    }
  }

  /** The transaction is buffered: what was there stays, else there is a new entry that describes it. */
  ghost predicate BufferedBy(w: World, s: State, s': State, input: Input, rules: seq<Rule>, now: nat) {
    && input.txHash in s'.entries
    && if input.txHash in s.entries then s' == s
       else
         var e := s'.entries[input.txHash];
         && e.status == NotSubmitted && e.firstNotSubmittedAt == now && e.generation == s'.nextGeneration
         && Describes(w, input, rules, e.request)
  }

  lemma Buffers(w: World, s: State, input: Input, rules: seq<Rule>, now: nat)
    requires w.cfg.maxEventBindings < U64_BOUND && NeedsAudit(w, rules, input)
    ensures BufferedBy(w, s, Next(w, s, Admit(input, rules, now)), input, rules, now)
  {
    AdmittedIff(w, input, rules, now);
    assert Survivors(w.cfg, s.entries, Admit(input, rules, now)) == s.entries;
  }

  // ---------------------------------------------------------------------------------------------
  // Approval over whole runs
  // ---------------------------------------------------------------------------------------------

  /** Under the deciding lock of the call, packaging of the lifecycle the call had read is justified. */
  ghost predicate JustifiedDecision(w: World, history: seq<Step>, input: Input, gaps: Gaps) {
    var s := Run(w, INITIAL, history);
    var read := Run(w, s, BeforeReading(w, s, input, gaps));
    var decided := Run(w, INITIAL, history + BeforeDecision(w, s, input, gaps));
    && input.txHash in read.entries && Live(decided, input.txHash, read.entries[input.txHash].generation)
    && Justified(w, history + BeforeDecision(w, s, input, gaps), input, decided.entries[input.txHash])
  }

  lemma InsertionsBefore(w: World, history: seq<Step>, before: seq<Step>, trace: seq<Step>)
    requires before <= trace && Insertions(w, INITIAL, history + trace) < U64_BOUND
    ensures Good(Run(w, INITIAL, history))
    ensures Run(w, INITIAL, history).nextGeneration + Insertions(w, Run(w, INITIAL, history), before) < U64_BOUND
  {
    var steps, k := history + trace, |history| + |before|;
    assert steps[..k] == history + before;
    SplitAt(w, INITIAL, steps, k);
    InsertionsConcat(w, INITIAL, history, before);
    RunGood(w, INITIAL, history);
  }

  lemma DecisionIsJustified(w: World, history: seq<Step>, before: seq<Step>, input: Input, g: nat)
    requires MayPackage(w, Run(w, Run(w, INITIAL, history), before), input, g)
    ensures Live(Run(w, INITIAL, history + before), input.txHash, g)
    ensures Justified(w, history + before, input, Run(w, INITIAL, history + before).entries[input.txHash])
  {
    RunConcat(w, INITIAL, history, before);
    MayPackageIsJustified(w, history + before, input, g);
  }

  /** In every run and under every interleaving, `AuditApproved` is answered only if, under the deciding lock of
      that very call, packaging was justified for exactly the lifecycle the call had read. */
  lemma ApprovalIsJustified(w: World, history: seq<Step>, input: Input, now: nat, gaps: Gaps)
    requires var r := ScreenOf(w, Run(w, INITIAL, history), input, now, gaps);
             r.0 == AuditApproved && Insertions(w, INITIAL, history + r.1) < U64_BOUND
    ensures JustifiedDecision(w, history, input, gaps)
  {
    var s := Run(w, INITIAL, history);
    var before := BeforeDecision(w, s, input, gaps);
    DecidesLast(w, s, input, now, gaps);
    InsertionsBefore(w, history, before, ScreenOf(w, s, input, now, gaps).1);
    ScreenApproved(w, s, input, now, gaps);
    DecisionIsJustified(w, history, before, input,
                        Run(w, s, BeforeReading(w, s, input, gaps)).entries[input.txHash].generation);
  }

  // ---------------------------------------------------------------------------------------------
  // Screening again
  // ---------------------------------------------------------------------------------------------

  ghost predicate OnlyReloads(steps: seq<Step>) {
    forall k :: 0 <= k < |steps| ==> steps[k].InstallRules?
  }

  lemma {:induction false} ReloadsTouchNothing(w: World, s: State, steps: seq<Step>)
    requires OnlyReloads(steps)
    ensures Run(w, s, steps).entries == s.entries
  {
    if steps != [] {
      ReloadsTouchNothing(w, s, steps[..|steps| - 1]);
    }
  }

  /** Screening an approved lifecycle again passes exactly when it is still approved at the deciding lock,
      however the rules changed meanwhile and whatever the block height is by then, as long as execution gives
      the logs it gave at admission; the check itself changes nothing. */
  lemma RescreenPasses(w: World, steps: seq<Step>, h: Hash, e: Entry, i: nat, input: Input, snapshot: seq<Rule>,
                       again: Input, now: nat, others: seq<Step>)
    requires Same(Run(w, INITIAL, steps), h, e) && e.status.Approved? && AdmittedAt(w, steps, i, h, e, input, snapshot)
    requires again.txHash == h && SameToMatcher(input, again)
    ensures var s := Run(w, INITIAL, steps);
            var r := ExistingScreen(w, s, TokenOf(e), again, now, others);
            && (r.0 == AuditApproved <==> Holding(Run(w, s, others), h, e.generation, Approved))
            && Run(w, s, r.1).entries == Run(w, s, others).entries
            && (OnlyReloads(others) ==> r.0 == AuditApproved)
  {
    var s := Run(w, INITIAL, steps);
    TryEvaluateReads(w.lib, snapshot, input, again, w.cfg.maxEventBindings);
    assert Consistent(w, e.request.rules, again, e.request.quotaHash);
    var finish := FinishConsistency(h, e.generation, true, now);
    RunConcat(w, s, others, [finish]);
    SingleStep(w, Run(w, s, others), finish);
    RunKeyed(w, INITIAL, steps);
    RunKeyed(w, s, others);
    FinishKeepsOthers(w, Run(w, s, others), h, e.generation, true, now);
    if OnlyReloads(others) { ReloadsTouchNothing(w, s, others); }
  }

  /** The status-only decision against the full screen of the same state: deferred iff buffered and still pending;
      dropped iff buffered and dropped for its status, not for its logs; executed in every other case. */
  lemma PreScreenAgrees(w: World, s: State, input: Input, now: nat)
    requires Keyed(s.entries)
    ensures var screen, pre := ScreenOf(w, s, input, now, Gaps([], [], [])).0, PreScreenOf(s, input.txHash);
            var buffered := input.txHash in s.entries;
            && (pre == Defer <==> buffered && screen == AuditPending)
            && (pre == PreDrop <==> buffered && screen == Drop && s.entries[input.txHash].status != Approved)
  {
    if input.txHash in s.entries { PreScreenAgreesExisting(w, s, input, now); }
  }

  lemma PreScreenAgreesExisting(w: World, s: State, input: Input, now: nat)
    requires Keyed(s.entries) && input.txHash in s.entries
    ensures var e := s.entries[input.txHash];
            var screen := ExistingScreen(w, s, TokenOf(e), input, now, []).0;
            && (screen == AuditPending <==> Retryable(e.status))
            && (screen == Drop && e.status != Approved <==> e.status.Dropped?)
  {
    ExistingAnswer(w, s, input, now, []);
  }

  // ---------------------------------------------------------------------------------------------
  // What consistency means for the quota
  // ---------------------------------------------------------------------------------------------

  /** Two encodings that keccak256 confuses. */
  ghost predicate Collision(w: World, a: Actions, b: Actions) {
    Encode(w.parse, a) != Encode(w.parse, b) && QuotaHash(w, a) == QuotaHash(w, b)
  }

  /** The check compares quotas up to the canonical spelling, except for a keccak256 collision. */
  lemma ConsistentMeansSameQuota(w: World, submitted: Actions, snapshot: seq<Rule>, input: Input)
    requires TryEvaluate(w.lib, snapshot, input, w.cfg.maxEventBindings).Ok?
    requires TryEvaluate(w.lib, snapshot, input, w.cfg.maxEventBindings).value.Audited?
    requires Fits(w.parse, QuotaOf(submitted))
    requires Fits(w.parse, QuotaOf(TryEvaluate(w.lib, snapshot, input, w.cfg.maxEventBindings).value.actions))
    ensures var current := TryEvaluate(w.lib, snapshot, input, w.cfg.maxEventBindings).value.actions;
            Consistent(w, snapshot, input, QuotaHash(w, submitted)) <==>
            CanonQuota(w.parse, QuotaOf(submitted)) == CanonQuota(w.parse, QuotaOf(current))
              || Collision(w, submitted, current)
  {
    EncodingIdentifiesQuota(w.parse, submitted,
                            TryEvaluate(w.lib, snapshot, input, w.cfg.maxEventBindings).value.actions);
  }
}
