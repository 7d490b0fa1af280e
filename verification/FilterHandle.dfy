/** The shared filter object: the pool behind its lock, the hot-swappable rules, and one method per locked
    section. `Take` is any one of them, so a run of the object is a run of the state machine. */
module FilterHandle {
  import opened Prelude
  import opened Wire
  import opened Matcher
  import opened QuotaEncoding
  import opened Lifecycle
  import opened Pool
  import opened FilterSteps
  import opened FilterInvariants
  import opened FilterHistory
  import opened Screening

  /** The events a locked section hands to the broadcast channel: one per entry that owes one, no other. */
  ghost predicate Owes(cfg: Config, s: State, step: Step, events: seq<Event>) {
    && (forall i, j :: 0 <= i < j < |events| ==> events[i].txHash != events[j].txHash)
    && (forall e :: e in events <==> e.txHash in s.entries && EventOn(cfg, step, s.entries[e.txHash]) == Some(e))
  }

  /** Builder-side events for a timeout report: only discards are announced. */
  method TimeoutEvents(report: seq<Resolved>) returns (events: seq<Event>)
    requires forall i, j :: 0 <= i < j < |report| ==> report[i].0 != report[j].0
    ensures forall i, j :: 0 <= i < j < |events| ==> events[i].txHash != events[j].txHash
    ensures forall e :: e in events <==> e.reason == FailCloseTimeout && (e.txHash, e.generation, Discard) in report
  {
    events := [];
    for n := 0 to |report|
      invariant forall i, j :: 0 <= i < j < |events| ==> events[i].txHash != events[j].txHash
      invariant forall e :: e in events <==>
                e.reason == FailCloseTimeout && (e.txHash, e.generation, Discard) in report[..n]
    {
      assert report[..n + 1] == report[..n] + [report[n]];
      if report[n].2 == Discard {
        forall i | 0 <= i < |events| ensures events[i].txHash != report[n].0 {
          assert events[i] in events;
        }
        events := events + [Event(report[n].0, report[n].1, FailCloseTimeout)];
      }
    }
    assert report[..|report|] == report;
  }

  // ---------------------------------------------------------------------------------------------
  // The event log
  // ---------------------------------------------------------------------------------------------

  /** Events sent for one lifecycle. */
  function SentFor(sent: seq<Event>, h: Hash, g: nat): nat {
    if sent == [] then 0
    else
      var last := sent[|sent| - 1];
      SentFor(sent[..|sent| - 1], h, g) + if last.txHash == h && last.generation == g then 1 else 0
  }

  /** Everything the run owes has been sent, as often as it is owed. */
  ghost predicate Logged(w: World, history: seq<Step>, sent: seq<Event>) {
    forall h: Hash, g: nat :: SentFor(sent, h, g) == EventCount(w, INITIAL, history, h, g)
  }

  lemma {:induction false} SentForConcat(xs: seq<Event>, ys: seq<Event>, h: Hash, g: nat)
    ensures SentFor(xs + ys, h, g) == SentFor(xs, h, g) + SentFor(ys, h, g)
    decreases |ys|
  {
    if ys == [] {
      assert xs + ys == xs;
    } else {
      assert (xs + ys)[..|xs + ys| - 1] == xs + ys[..|ys| - 1];
      SentForConcat(xs, ys[..|ys| - 1], h, g);
    }
  }

  lemma {:induction false} SentForNone(events: seq<Event>, h: Hash, g: nat)
    requires forall i :: 0 <= i < |events| ==> events[i].txHash != h || events[i].generation != g
    ensures SentFor(events, h, g) == 0
  {
    if events != [] { SentForNone(events[..|events| - 1], h, g); }
  }

  /** Without repeated hashes a lifecycle is named at most once. */
  lemma SentForOne(events: seq<Event>, k: nat)
    requires k < |events| && forall i, j :: 0 <= i < j < |events| ==> events[i].txHash != events[j].txHash
    ensures SentFor(events, events[k].txHash, events[k].generation) == 1
  {
    var h, g := events[k].txHash, events[k].generation;
    var front, back := events[..k], events[k + 1..];
    assert events == front + [events[k]] + back;
    SentForConcat(front + [events[k]], back, h, g);
    SentForConcat(front, [events[k]], h, g);
    SentForNone(front, h, g);
    SentForNone(back, h, g);
    assert [events[k]][..0] == [];
  }

  lemma OwedIsSent(cfg: Config, s: State, step: Step, events: seq<Event>, h: Hash, g: nat)
    requires Keyed(s.entries) && Owes(cfg, s, step, events)
    ensures SentFor(events, h, g) == if EventFor(cfg, s, step, h, g) then 1 else 0
  {
    if EventFor(cfg, s, step, h, g) {
      var e := EventOn(cfg, step, s.entries[h]).value;
      assert e in events;
      var k: nat :| k < |events| && events[k] == e;
      SentForOne(events, k);
    } else {
      forall i | 0 <= i < |events| ensures events[i].txHash != h || events[i].generation != g {
        assert events[i] in events;
      }
      SentForNone(events, h, g);
    }
  }

  lemma LoggedStep(w: World, history: seq<Step>, sent: seq<Event>, step: Step, events: seq<Event>)
    requires Logged(w, history, sent) && Owes(w.cfg, Run(w, INITIAL, history), step, events)
    ensures Logged(w, history + [step], sent + events)
  {
    RunKeyed(w, INITIAL, history);
    assert (history + [step])[..|history|] == history;
    forall h: Hash, g: nat ensures SentFor(sent + events, h, g) == EventCount(w, INITIAL, history + [step], h, g) {
      SentForConcat(sent, events, h, g);
      OwedIsSent(w.cfg, Run(w, INITIAL, history), step, events, h, g);
    }
  }

  /** What was sent from one log to the next is what the step owed. */
  ghost predicate Announces(cfg: Config, s: State, step: Step, before: seq<Event>, after: seq<Event>) {
    before <= after && Owes(cfg, s, step, after[|before|..])
  }

  lemma StepSent(w: World, history: seq<Step>, sent: seq<Event>, step: Step, events: seq<Event>)
    requires Logged(w, history, sent) && Owes(w.cfg, Run(w, INITIAL, history), step, events)
    ensures Run(w, INITIAL, history + [step]) == Next(w, Run(w, INITIAL, history), step)
    ensures Logged(w, history + [step], sent + events)
    ensures Announces(w.cfg, Run(w, INITIAL, history), step, sent, sent + events)
  {
    LoggedStep(w, history, sent, step, events);
    assert (history + [step])[..|history|] == history;
    assert (sent + events)[|sent|..] == events;
  }

  class Shared {
    const world: World
    const pool: BufferPool
    var rules: seq<Rule>
    /** What has been handed to the broadcast channel. */
    var sent: seq<Event>
    /** Every locked section so far, of any thread. */
    ghost var history: seq<Step>

    /** The object is where its history leads, and has sent what that run owes. */
    ghost predicate Valid()
      reads this, pool
    {
      pool.Valid() && Now() == Run(world, INITIAL, history) && Logged(world, history, sent)
    }

    ghost function Now(): State
      reads this, pool
    {
      State(pool.entries, pool.nextGeneration, rules)
    }

    constructor (w: World)
      ensures Valid() && world == w && Now() == INITIAL && sent == [] && history == [] && fresh(pool)
    {
      world, rules, sent, history := w, [], [], [];
      pool := new BufferPool();
    }

    /** Closes a locked section: its events go out. */
    method Emit(ghost before: State, ghost step: Step, events: seq<Event>)
      requires pool.Valid() && before == Run(world, INITIAL, history) && Logged(world, history, sent)
      requires Now() == Next(world, before, step) && Owes(world.cfg, before, step, events)
      modifies this`sent, this`history
      ensures Valid() && history == old(history) + [step] && Announces(world.cfg, before, step, old(sent), sent)
    {
      StepSent(world, history, sent, step, events);
      sent, history := sent + events, history + [step];
    }

    method InstallRules(snapshot: seq<Rule>)
      requires Valid()
      modifies this
      ensures Valid() && Did(old(Now()), old(history), old(sent), Step.InstallRules(snapshot))
    {
      rules := snapshot;
      Emit(old(Now()), Step.InstallRules(snapshot), []);
    }

    /** One step was taken: the state, the history and the channel all say so. */
    ghost predicate Did(before: State, past: seq<Step>, log: seq<Event>, step: Step)
      reads this, pool
    {
      && Now() == Next(world, before, step) && history == past + [step]
      && Announces(world.cfg, before, step, log, sent)
    }

    /** Buffers a freshly matched audit transaction. */
    method Buffer(input: Input, snapshot: seq<Rule>, actions: Actions, timeoutAction: TimeoutAction, now: nat)
      requires Valid()
      requires TryEvaluate(world.lib, snapshot, input, world.cfg.maxEventBindings) ==
               Ok(Audited(actions, timeoutAction))
      modifies this, pool
      ensures Valid() && Did(old(Now()), old(history), old(sent), Admit(input, snapshot, now))
    {
      var buf := EncodeActions(world.parse, actions);
      var request := Request(input.origin, ContractOf(input), input.nonce, input.blockHeight, actions, snapshot,
                             world.keccak(buf), timeoutAction);
      var entry := Entry(0, input.txHash, request, NotSubmitted, now, now);
      assert Admitted(world, input, snapshot, now) == Some(entry);
      AdmissionIsStep(world, old(Now()), input, snapshot, now, entry);
      pool.Insert(entry);
      Emit(old(Now()), Admit(input, snapshot, now), []);
    }

    method FinishConsistencyCheck(h: Hash, generation: nat, consistent: bool, now: nat) returns (status: Option<Status>)
      requires Valid()
      modifies this, pool
      ensures Valid() && Did(old(Now()), old(history), old(sent), FinishConsistency(h, generation, consistent, now))
      ensures status == if Live(Now(), h, generation) then Some(pool.entries[h].status) else None
    {
      status := pool.FinishConsistencyCheck(h, generation, consistent, now);
      CheckIsStep(world, old(Now()), h, generation, consistent, now);
      Emit(old(Now()), FinishConsistency(h, generation, consistent, now), []);
    }

    method ResolveTotals(now: nat)
      requires Valid()
      modifies this, pool
      ensures Valid() && Did(old(Now()), old(history), old(sent), Step.ResolveTotals(now))
    {
      var report := pool.ResolveTotalTimeouts(world.cfg, now);
      var events := TimeoutEvents(report);
      TimeoutsOwed(world.cfg, old(Now()), Step.ResolveTotals(now), old(pool.entries).Keys, now, report, events);
      ResolvingIsStep(world, old(Now()), now);
      Emit(old(Now()), Step.ResolveTotals(now), events);
    }

    method ApplySubmitResponse(accepted: set<Hash>, expected: map<Hash, nat>, now: nat)
      requires Valid()
      modifies this, pool
      ensures Valid() && Did(old(Now()), old(history), old(sent), SubmitResponse(accepted, expected, now))
    {
      var report := pool.ApplySubmitResponse(accepted, expected, world.cfg, now);
      var events := TimeoutEvents(report);
      TimeoutsOwed(world.cfg, old(Now()), SubmitResponse(accepted, expected, now),
                   Current(old(pool.entries), expected), now, report, events);
      ResponseIsStep(world, old(Now()), accepted, expected, now);
      Emit(old(Now()), SubmitResponse(accepted, expected, now), events);
    }

    /** Applies the selected rows of one query response under a single lock, then announces the discards. */
    method ApplyAnswers(answers: map<Hash, (nat, Answer)>, now: nat)
      requires Valid()
      modifies this, pool
      ensures Valid() && Did(old(Now()), old(history), old(sent), QueryAnswers(answers, now))
    {
      var events := AnswerAll(answers, now);
      Emit(old(Now()), QueryAnswers(answers, now), events);
    }

    /** The locked part: one hash after another. */
    method AnswerAll(answers: map<Hash, (nat, Answer)>, now: nat) returns (events: seq<Event>)
      requires pool.Valid()
      modifies pool
      ensures pool.Valid() && Now() == Next(world, old(Now()), QueryAnswers(answers, now))
      ensures Owes(world.cfg, old(Now()), QueryAnswers(answers, now), events)
    {
      events := [];
      var todo, done: map<Hash, (nat, Answer)> := answers.Keys, map[];
      while todo != {}
        invariant pool.Valid() && todo !! done.Keys && todo + done.Keys == answers.Keys
        invariant forall h :: h in done ==> done[h] == answers[h]
        invariant Now() == Next(world, old(Now()), QueryAnswers(done, now))
        invariant Owes(world.cfg, old(Now()), QueryAnswers(done, now), events)
        decreases todo
      {
        var h :| h in todo;
        AnswerOneMore(world, old(Now()), done, h, answers[h], now);
        var resolution := pool.ApplyQueryStatus(h, answers[h].0, answers[h].1, world.cfg, now);
        OweOneMore(world.cfg, old(Now()), done, h, answers[h], now, events);
        if resolution.Some? && ReasonOf(resolution.value).Some? {
          events := events + [Event(h, answers[h].0, ReasonOf(resolution.value).value)];
        }
        todo, done := todo - {h}, done[h := answers[h]];
      }
      assert done == answers;
    }

    method TimeoutOnce(now: nat) returns (pruned: nat)
      requires Valid()
      modifies this, pool
      ensures Valid() && Did(old(Now()), old(history), old(sent), TimeoutTick(now))
      ensures pruned == |old(pool.entries).Keys| - |pool.entries.Keys|
    {
      var events;
      events, pruned := Tick(now);
      Emit(old(Now()), TimeoutTick(now), events);
    }

    /** The locked part: timeouts, then pruning. */
    method Tick(now: nat) returns (events: seq<Event>, pruned: nat)
      requires pool.Valid()
      modifies pool
      ensures pool.Valid() && Now() == Next(world, old(Now()), TimeoutTick(now))
      ensures Owes(world.cfg, old(Now()), TimeoutTick(now), events)
      ensures pruned == |old(pool.entries).Keys| - |pool.entries.Keys|
    {
      ghost var before := Now();
      var report := pool.CheckTimeouts(world.cfg, now);
      ghost var checked := pool.entries;
      assert checked.Keys == before.entries.Keys;
      pruned := pool.PruneTerminal(world.cfg.terminalEntryRetention, now);
      TickIsStep(world, before, now, checked, pool.entries);
      events := TimeoutEvents(report);
      TickOwes(world.cfg, before, now, report, events);
    }

    method RemoveCanonicalTransactions(hashes: seq<Hash>) returns (removed: nat)
      requires Valid()
      modifies this, pool
      ensures Valid() && Did(old(Now()), old(history), old(sent), RemoveCanonical(hashes))
      ensures removed == |old(pool.entries).Keys| - |pool.entries.Keys|
    {
      removed := pool.RemoveCanonical(hashes);
      Emit(old(Now()), RemoveCanonical(hashes), []);
    }

    method RecoverAfterCanonicalLag() returns (removed: nat)
      requires Valid()
      modifies this, pool
      ensures Valid() && Did(old(Now()), old(history), old(sent), RecoverLag)
      ensures removed == |old(pool.entries).Keys| - |pool.entries.Keys|
    {
      removed := pool.RecoverAfterCanonicalLag();
      Emit(old(Now()), RecoverLag, []);
    }

    method RemoveNonTerminalIfGeneration(h: Hash, generation: nat) returns (removed: bool)
      requires Valid()
      modifies this, pool
      ensures Valid() && Did(old(Now()), old(history), old(sent), RemoveNonTerminal(h, generation))
    {
      removed := pool.RemoveNonTerminalIfGeneration(h, generation);
      RemovalIsStep(world, old(Now()), h, generation);
      Emit(old(Now()), RemoveNonTerminal(h, generation), []);
    }

    /** Admission as one locked section; evaluation itself happens outside the lock on a fixed snapshot. */
    method AdmitOnce(input: Input, snapshot: seq<Rule>, now: nat)
      requires Valid()
      modifies this, pool
      ensures Valid() && Did(old(Now()), old(history), old(sent), Admit(input, snapshot, now))
    {
      var result, _ := EvaluateChecked(world.lib, snapshot, input, world.cfg.maxEventBindings);
      if result.Ok? && result.value.Audited? {
        Buffer(input, snapshot, result.value.actions, result.value.timeoutAction, now);
      } else {
        Emit(old(Now()), Admit(input, snapshot, now), []);
      }
    }

    /** Any locked section of any thread. */
    method Take(step: Step)
      requires Valid()
      modifies this, pool
      ensures Valid() && Did(old(Now()), old(history), old(sent), step)
    {
      match step {
        case InstallRules(snapshot) => InstallRules(snapshot);
        case Admit(input, snapshot, now) => AdmitOnce(input, snapshot, now);
        case FinishConsistency(h, g, consistent, now) => var _ := FinishConsistencyCheck(h, g, consistent, now);
        case ResolveTotals(now) => ResolveTotals(now);
        case SubmitResponse(accepted, expected, now) => ApplySubmitResponse(accepted, expected, now);
        case QueryAnswers(answers, now) => ApplyAnswers(answers, now);
        case TimeoutTick(now) => var _ := TimeoutOnce(now);
        case RemoveCanonical(hashes) => var _ := RemoveCanonicalTransactions(hashes);
        case RecoverLag => var _ := RecoverAfterCanonicalLag();
        case RemoveNonTerminal(h, g) => var _ := RemoveNonTerminalIfGeneration(h, g);
      }
    }

    /** What other threads do while this one holds no lock. */
    method Others(steps: seq<Step>)
      requires Valid()
      modifies this, pool
      ensures Valid() && history == old(history) + steps && Now() == Run(world, old(Now()), steps)
    {
      for n := 0 to |steps|
        invariant Valid() && history == old(history) + steps[..n]
      {
        assert old(history) + steps[..n + 1] == old(history) + steps[..n] + [steps[n]];
        Take(steps[n]);
      }
      assert steps[..|steps|] == steps;
      RunConcat(world, INITIAL, old(history), steps);
    }

    /** A buffered transaction is screened against the token read under the first lock. */
    method ScreenExisting(input: Input, status: Status, storedHash: nat, generation: nat, snapshot: seq<Rule>, now: nat,
                          others: seq<Step>)
      returns (screen: Screen)
      requires Valid()
      modifies this, pool
      ensures Valid()
      ensures var r := ExistingScreen(world, old(Now()), Token(status, storedHash, generation, snapshot), input, now,
                                      others);
              screen == r.0 && history == old(history) + r.1 && Now() == Run(world, old(Now()), r.1)
    {
      var h := input.txHash;
      match status {
        case TimedOutAllow =>
          Others(others);
          if !pool.Matches(h, generation, TimedOutAllow) { return AuditPending; }
          return AuditApproved;
        case Dropped =>
          Others(others);
          if !pool.Matches(h, generation, Dropped) { return AuditPending; }
          return Drop;
        case Approved =>
          screen := ScreenApproved(input, storedHash, generation, snapshot, now, others);
        case _ =>
          Others(others);
          return AuditPending;
      }
    }

    /** An approved entry: recompute the quota hash outside the lock, then settle under it. */
    method ScreenApproved(input: Input, storedHash: nat, generation: nat, snapshot: seq<Rule>, now: nat,
                          others: seq<Step>)
      returns (screen: Screen)
      requires Valid()
      modifies this, pool
      ensures Valid()
      ensures var r := ApprovedScreen(world, old(Now()), Token(Approved, storedHash, generation, snapshot), input,
                                      now, others);
              screen == r.0 && history == old(history) + r.1 && Now() == Run(world, old(Now()), r.1)
    {
      var consistent := IsConsistent(input, snapshot, storedHash);
      Others(others);
      ghost var finish := FinishConsistency(input.txHash, generation, consistent, now);
      OneMoreStep(world, old(Now()), old(history), others, finish);
      var after := FinishConsistencyCheck(input.txHash, generation, consistent, now);
      if after == Some(Approved) && consistent { return AuditApproved; }
      if after == Some(Dropped) { return Drop; }
      return AuditPending;
    }

    method IsConsistent(input: Input, snapshot: seq<Rule>, storedHash: nat) returns (consistent: bool)
      ensures consistent == Consistent(world, snapshot, input, storedHash)
    {
      var result, _ := EvaluateChecked(world.lib, snapshot, input, world.cfg.maxEventBindings);
      if result.Err? || !result.value.Audited? { return false; }
      var buf := EncodeActions(world.parse, result.value.actions);
      consistent := world.keccak(buf) == storedHash;
    }

    /** Screens one executed transaction; `gaps` is what the other threads do between the locked sections. */
    method ScreenTx(input: Input, now: nat, gaps: Gaps) returns (screen: Screen)
      requires Valid()
      modifies this, pool
      ensures Valid()
      ensures var r := ScreenOf(world, old(Now()), input, now, gaps);
              screen == r.0 && history == old(history) + r.1 && Now() == Run(world, old(Now()), r.1)
    {
      if input.txHash in pool.entries {
        var e := pool.entries[input.txHash];
        screen := ScreenExisting(input, e.status, e.request.quotaHash, e.generation, e.request.rules, now, gaps.first);
      } else {
        screen := ScreenFresh(input, now, gaps);
      }
    }

    /** Fresh evaluation on the rules current at that moment. */
    method ScreenFresh(input: Input, now: nat, gaps: Gaps) returns (screen: Screen)
      requires Valid()
      modifies this, pool
      ensures Valid()
      ensures var r := FreshScreen(world, old(Now()), input, now, gaps);
              screen == r.0 && history == old(history) + r.1 && Now() == Run(world, old(Now()), r.1)
    {
      Others(gaps.first);
      var snapshot := rules;
      var result, _ := EvaluateChecked(world.lib, snapshot, input, world.cfg.maxEventBindings);
      if result.Err? || result.value.Denied? { return Screen.Deny; }
      Others(gaps.second);
      ghost var more;
      screen, more := ScreenEvaluated(input, now, snapshot, result.value, gaps.third);
      TwoGaps(world, old(Now()), old(history), gaps.first, gaps.second, more);
    }

    /** Acts on a verdict other than deny. */
    method ScreenEvaluated(input: Input, now: nat, snapshot: seq<Rule>, outcome: MatchOutcome, others: seq<Step>)
      returns (screen: Screen, ghost trace: seq<Step>)
      requires Valid() && !outcome.Denied?
      requires TryEvaluate(world.lib, snapshot, input, world.cfg.maxEventBindings) == Ok(outcome)
      modifies this, pool
      ensures Valid() && history == old(history) + trace && Now() == Run(world, old(Now()), trace)
      ensures (screen, trace) == if outcome.Audited? then (AuditPending, [Admit(input, snapshot, now)])
                                 else AllowedScreen(world, old(Now()), input, now, others)
    {
      if outcome.Allowed? {
        screen, trace := ScreenAllowed(input, now, others);
      } else {
        screen, trace := AuditPending, [Admit(input, snapshot, now)];
        SingleStep(world, Now(), Admit(input, snapshot, now));
        Buffer(input, snapshot, outcome.actions, outcome.timeoutAction, now);
      }
    }

    /** Nothing to audit: allowed, unless another thread buffered the transaction meanwhile. */
    method ScreenAllowed(input: Input, now: nat, others: seq<Step>) returns (screen: Screen, ghost trace: seq<Step>)
      requires Valid()
      modifies this, pool
      ensures Valid() && history == old(history) + trace && Now() == Run(world, old(Now()), trace)
      ensures (screen, trace) == AllowedScreen(world, old(Now()), input, now, others)
    {
      trace := [];
      if input.txHash !in pool.entries { return Screen.Allow, []; }
      var e := pool.entries[input.txHash];
      screen := ScreenExisting(input, e.status, e.request.quotaHash, e.generation, e.request.rules, now, others);
      trace := ExistingScreen(world, old(Now()), TokenOf(e), input, now, others).1;
    }

    /** Status-only decision before execution. */
    method PreScreen(h: Hash) returns (decision: PreScreen)
      ensures decision == PreScreenOf(Now(), h)
    {
      if h !in pool.entries { return Execute; }
      match pool.entries[h].status {
        case Approved => decision := Execute;
        case TimedOutAllow => decision := Execute;
        case Dropped => decision := PreDrop;
        case _ => decision := Defer;
      }
    }
  }

  lemma OneMoreStep(w: World, s: State, history: seq<Step>, steps: seq<Step>, step: Step)
    ensures Run(w, s, steps + [step]) == Next(w, Run(w, s, steps), step)
    ensures history + steps + [step] == history + (steps + [step])
  {
    assert (steps + [step])[..|steps|] == steps;
  }

  lemma TwoGaps(w: World, s: State, history: seq<Step>, first: seq<Step>, second: seq<Step>, more: seq<Step>)
    ensures Run(w, Run(w, Run(w, s, first), second), more) == Run(w, s, first + second + more)
    ensures Run(w, Run(w, s, first), second) == Run(w, s, first + second)
    ensures history + first + second + more == history + (first + second + more)
  {
    RunConcat(w, s, first, second);
    RunConcat(w, s, first + second, more);
    Assoc(history, first, second);
    Assoc(history, first + second, more);
  }

  lemma TickIsStep(w: World, s: State, now: nat, checked: Entries, kept: Entries)
    requires checked == map h | h in s.entries :: OnTimeout(w.cfg, s.entries[h], now)
    requires kept == map h | h in checked && !Prunable(w.cfg.terminalEntryRetention, checked[h], now) :: checked[h]
    ensures Next(w, s, TimeoutTick(now)) == s.(entries := kept)
  {
  }

  /** A timeout report over `scope` announces exactly what a step looking at the deadlines of `scope` owes. */
  lemma TimeoutsOwed(cfg: Config, s: State, step: Step, scope: set<Hash>, now: nat, report: seq<Resolved>,
                     events: seq<Event>)
    requires Keyed(s.entries) && ReportsExpired(cfg, s.entries, scope, now, report)
    requires forall h :: h in s.entries ==>
             EventOn(cfg, step, s.entries[h]) == if h in scope then TimeoutEvent(cfg, s.entries[h], now) else None
    requires forall i, j :: 0 <= i < j < |events| ==> events[i].txHash != events[j].txHash
    requires forall e :: e in events <==> e.reason == FailCloseTimeout && (e.txHash, e.generation, Discard) in report
    ensures Owes(cfg, s, step, events)
  {
  }

  lemma TickOwes(cfg: Config, s: State, now: nat, report: seq<Resolved>, events: seq<Event>)
    requires Keyed(s.entries) && ReportsExpired(cfg, s.entries, s.entries.Keys, now, report)
    requires forall i, j :: 0 <= i < j < |events| ==> events[i].txHash != events[j].txHash
    requires forall e :: e in events <==> e.reason == FailCloseTimeout && (e.txHash, e.generation, Discard) in report
    ensures Owes(cfg, s, TimeoutTick(now), events)
  {
    TimeoutsOwed(cfg, s, TimeoutTick(now), s.entries.Keys, now, report, events);
  }

  lemma ResolvingIsStep(w: World, s: State, now: nat)
    ensures Next(w, s, ResolveTotals(now)) == s.(entries := map h | h in s.entries ::
                                                 ResolveTotal(w.cfg, s.entries[h], now))
  {
  }

  lemma ResponseIsStep(w: World, s: State, accepted: set<Hash>, expected: map<Hash, nat>, now: nat)
    requires Keyed(s.entries)
    ensures Next(w, s, SubmitResponse(accepted, expected, now)) == s.(entries := map h | h in s.entries ::
              if h in Current(s.entries, expected) then OnSubmitResponse(w.cfg, s.entries[h], h in accepted, now)
                else s.entries[h])
  {
  }

  lemma AdmissionIsStep(w: World, s: State, input: Input, snapshot: seq<Rule>, now: nat, entry: Entry)
    requires Admitted(w, input, snapshot, now) == Some(entry)
    ensures input.txHash in s.entries ==> Next(w, s, Admit(input, snapshot, now)) == s
    ensures input.txHash !in s.entries ==>
              var g := (s.nextGeneration + 1) % U64_BOUND;
              Next(w, s, Admit(input, snapshot, now)) ==
                s.(entries := s.entries[entry.txHash := entry.(generation := g)], nextGeneration := g)
    ensures entry.txHash == input.txHash
  {
    assert Survivors(w.cfg, s.entries, Admit(input, snapshot, now)) == s.entries;
  }

  lemma CheckIsStep(w: World, s: State, h: Hash, g: nat, consistent: bool, now: nat)
    requires Keyed(s.entries)
    ensures Next(w, s, FinishConsistency(h, g, consistent, now)) ==
            s.(entries := if Live(s, h, g) then s.entries[h := OnConsistency(s.entries[h], consistent, now)]
               else s.entries)
  {
  }

  lemma RemovalIsStep(w: World, s: State, h: Hash, g: nat)
    requires Keyed(s.entries)
    ensures Next(w, s, RemoveNonTerminal(h, g)) ==
            s.(entries := if Live(s, h, g) && !Terminal(s.entries[h].status) then s.entries - {h} else s.entries)
    ensures Owes(w.cfg, s, RemoveNonTerminal(h, g), [])
  {
  }

  /** One more answer under the same lock acts on its own hash only. */
  lemma AnswerOneMore(w: World, s: State, done: map<Hash, (nat, Answer)>, h: Hash, row: (nat, Answer), now: nat)
    requires Keyed(s.entries) && h !in done
    ensures var m, m' := Next(w, s, QueryAnswers(done, now)), Next(w, s, QueryAnswers(done[h := row], now));
            && m'.nextGeneration == m.nextGeneration && m'.rules == m.rules
            && (h in m.entries <==> h in s.entries) && (h in s.entries ==> m.entries[h] == s.entries[h])
            && m'.entries == if h in s.entries && s.entries[h].generation == row.0
                             then m.entries[h := OnAnswer(w.cfg, s.entries[h], row.1, now)] else m.entries
  {
  }

  lemma OweOneMore(cfg: Config, s: State, done: map<Hash, (nat, Answer)>, h: Hash, row: (nat, Answer), now: nat,
                   events: seq<Event>)
    requires Keyed(s.entries) && h !in done && Owes(cfg, s, QueryAnswers(done, now), events)
    ensures if h in s.entries && s.entries[h].generation == row.0 && AnswerEvent(cfg, s.entries[h], row.1, now).Some?
            then Owes(cfg, s, QueryAnswers(done[h := row], now), events
                      + [AnswerEvent(cfg, s.entries[h], row.1, now).value])
            else Owes(cfg, s, QueryAnswers(done[h := row], now), events)
  {
    var before, after := QueryAnswers(done, now), QueryAnswers(done[h := row], now);
    forall k | k in s.entries && k != h
      ensures EventOn(cfg, after, s.entries[k]) == EventOn(cfg, before, s.entries[k])
    {
    }
    forall e | e in events ensures e.txHash != h {
    }
    forall i | 0 <= i < |events| ensures events[i].txHash != h {
      assert events[i] in events;
    }
  }

  /** What the object has sent: for every lifecycle exactly one event if a query or a fail-close timeout dropped
      it, and none otherwise, whatever the threads did. */
  lemma SentOncePerDiscard(shared: Shared, h: Hash, g: nat)
    requires shared.Valid() && Insertions(shared.world, INITIAL, shared.history) < U64_BOUND
    ensures SentFor(shared.sent, h, g) == if Discarded(shared.world, shared.history, h, g) then 1 else 0
    ensures WasReleased(shared.world, shared.history, h, g) ==> SentFor(shared.sent, h, g) == 0
    ensures WasMismatch(shared.world, shared.history, h, g) ==> SentFor(shared.sent, h, g) == 0
  {
    OneEventPerDiscard(shared.world, shared.history, h, g);
  }
}
