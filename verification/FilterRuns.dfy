/** The filter as a state machine: every locked section of the builder and of the four workers is one step.
    A run is any sequence of steps, so RCS answers, clock readings, canonical removals, rule swaps and the
    interleaving of the workers are all left open. */
module FilterSteps {
  import opened Prelude
  import opened Wire
  import opened Matcher
  import opened QuotaEncoding
  import opened Lifecycle
  import opened Pool

  /** Library code and configuration a run is played against. */
  datatype World = World(lib: Library, parse: AddressParser, keccak: seq<Byte> -> nat, cfg: Config)

  datatype Step =
    | InstallRules(rules: seq<Rule>)
    | Admit(input: Input, snapshot: seq<Rule>, now: nat)
    | FinishConsistency(hash: Hash, generation: nat, consistent: bool, now: nat)
    | ResolveTotals(now: nat)
    | SubmitResponse(accepted: set<Hash>, expected: map<Hash, nat>, now: nat)
    | QueryAnswers(answers: map<Hash, (nat, Answer)>, now: nat)
    | TimeoutTick(now: nat)
    | RemoveCanonical(hashes: seq<Hash>)
    | RecoverLag
    | RemoveNonTerminal(hash: Hash, generation: nat)

  datatype State = State(entries: Entries, nextGeneration: nat, rules: seq<Rule>)

  const INITIAL: State := State(map[], 0, [])

  /** The zero address stands in for the recipient of a contract creation. */
  function ContractOf(input: Input): Address {
    match input.txTo
    case Some(to) => to
    case None => seq(20, _ => 0)
  }

  function QuotaHash(w: World, actions: Actions): nat {
    w.keccak(Encode(w.parse, actions))
  }

  function RequestFor(w: World, input: Input, snapshot: seq<Rule>, actions: Actions,
                      timeoutAction: TimeoutAction): Request {
    Request(input.origin, ContractOf(input), input.nonce, input.blockHeight, actions, snapshot, QuotaHash(w, actions),
            timeoutAction)
  }

  /** The entry a fresh screening buffers, when the rules ask for an audit. */
  function Admitted(w: World, input: Input, snapshot: seq<Rule>, now: nat): Option<Entry> {
    var outcome := TryEvaluate(w.lib, snapshot, input, w.cfg.maxEventBindings);
    if outcome.Ok? && outcome.value.Audited? then
      Some(Entry(0, input.txHash, RequestFor(w, input, snapshot, outcome.value.actions, outcome.value.timeoutAction),
                 NotSubmitted, now, now))
    else None
  }

  predicate Holds(e: Entry, hash: Hash, generation: nat) {
    e.txHash == hash && e.generation == generation
  }

  /** What one step makes of one existing entry; `None` removes it. */
  function Evolve(cfg: Config, step: Step, e: Entry): Option<Entry> {
    match step
    case InstallRules(_) => Some(e)
    case Admit(_, _, _) => Some(e)
    case FinishConsistency(h, g, consistent, now) => Some(if Holds(e, h, g) then OnConsistency(e, consistent, now)
                                                          else e)
    case ResolveTotals(now) => Some(ResolveTotal(cfg, e, now))
    case SubmitResponse(accepted, expected, now) =>
      Some(if e.txHash in expected && expected[e.txHash] == e.generation
           then OnSubmitResponse(cfg, e, e.txHash in accepted, now) else e)
    case QueryAnswers(answers, now) =>
      Some(if e.txHash in answers && answers[e.txHash].0 == e.generation
           then OnAnswer(cfg, e, answers[e.txHash].1, now) else e)
    case TimeoutTick(now) =>
      var e' := OnTimeout(cfg, e, now);
      if Prunable(cfg.terminalEntryRetention, e', now) then None else Some(e')
    case RemoveCanonical(hashes) => if e.txHash in hashes then None else Some(e)
    case RecoverLag => if e.status.Dropped? then Some(e) else None
    case RemoveNonTerminal(h, g) => if Holds(e, h, g) && !Terminal(e.status) then None else Some(e)
  }

  function TimeoutEvent(cfg: Config, e: Entry, now: nat): Option<Event> {
    if Expired(cfg, e, now) && FallbackResolution(e).Discard?
      then Some(Event(e.txHash, e.generation, FailCloseTimeout)) else None
  }

  function AnswerEvent(cfg: Config, e: Entry, answer: Answer, now: nat): Option<Event> {
    match AnswerResolution(cfg, e, answer, now)
    case None => None
    case Some(r) =>
      match ReasonOf(r)
      case None => None
      case Some(reason) => Some(Event(e.txHash, e.generation, reason))
  }

  /** The terminal event one step owes to the builder on account of one entry. */
  function EventOn(cfg: Config, step: Step, e: Entry): Option<Event> {
    match step
    case ResolveTotals(now) => TimeoutEvent(cfg, e, now)
    case TimeoutTick(now) => TimeoutEvent(cfg, e, now)
    case SubmitResponse(_, expected, now) =>
      if e.txHash in expected && expected[e.txHash] == e.generation then TimeoutEvent(cfg, e, now) else None
    case QueryAnswers(answers, now) =>
      if e.txHash in answers && answers[e.txHash].0 == e.generation then AnswerEvent(cfg, e, answers[e.txHash].1, now)
        else None
    case _ => None
  }

  function Survivors(cfg: Config, entries: Entries, step: Step): Entries {
    map h | h in entries && Evolve(cfg, step, entries[h]).Some? :: Evolve(cfg, step, entries[h]).value
  }

  predicate Inserts(w: World, s: State, step: Step) {
    step.Admit? && step.input.txHash !in s.entries && Admitted(w, step.input, step.snapshot, step.now).Some?
  }

  function Next(w: World, s: State, step: Step): State {
    var rules := if step.InstallRules? then step.rules else s.rules;
    var survivors := Survivors(w.cfg, s.entries, step);
    if Inserts(w, s, step) then
      var generation := (s.nextGeneration + 1) % U64_BOUND;
      var entry := Admitted(w, step.input, step.snapshot, step.now).value;
      State(survivors[entry.txHash := entry.(generation := generation)], generation, rules)
    else State(survivors, s.nextGeneration, rules)
  }

  function Run(w: World, s: State, steps: seq<Step>): State {
    if steps == [] then s else Next(w, Run(w, s, steps[..|steps| - 1]), steps[|steps| - 1])
  }

  /** Successful insertions of a run. */
  function Insertions(w: World, s: State, steps: seq<Step>): nat {
    if steps == [] then 0
    else
      var front, last := steps[..|steps| - 1], steps[|steps| - 1];
      Insertions(w, s, front) + if Inserts(w, Run(w, s, front), last) then 1 else 0
  }

  predicate EventFor(cfg: Config, s: State, step: Step, h: Hash, g: nat) {
    h in s.entries && EventOn(cfg, step, s.entries[h]).Some? &&
    EventOn(cfg, step, s.entries[h]).value.txHash == h && EventOn(cfg, step, s.entries[h]).value.generation == g
  }

  /** Terminal events a run owes for lifecycle `(h, g)`. */
  function EventCount(w: World, s: State, steps: seq<Step>, h: Hash, g: nat): nat {
    if steps == [] then 0
    else
      var front, last := steps[..|steps| - 1], steps[|steps| - 1];
      EventCount(w, s, front, h, g) + if EventFor(w.cfg, Run(w, s, front), last, h, g) then 1 else 0
  }

  /** State after the first `k` steps. */
  function At(w: World, s: State, steps: seq<Step>, k: nat): State
    requires k <= |steps|
  {
    Run(w, s, steps[..k])
  }

  predicate Live(s: State, h: Hash, g: nat) {
    h in s.entries && s.entries[h].generation == g
  }

  lemma {:induction false} RunConcat(w: World, s: State, xs: seq<Step>, ys: seq<Step>)
    ensures Run(w, s, xs + ys) == Run(w, Run(w, s, xs), ys)
    decreases |ys|
  {
    if ys == [] {
      assert xs + ys == xs;
    } else {
      assert (xs + ys)[..|xs + ys| - 1] == xs + ys[..|ys| - 1];
      RunConcat(w, s, xs, ys[..|ys| - 1]);
    }
  }

  lemma {:induction false} InsertionsConcat(w: World, s: State, xs: seq<Step>, ys: seq<Step>)
    ensures Insertions(w, s, xs + ys) == Insertions(w, s, xs) + Insertions(w, Run(w, s, xs), ys)
    decreases |ys|
  {
    if ys == [] {
      assert xs + ys == xs;
    } else {
      assert (xs + ys)[..|xs + ys| - 1] == xs + ys[..|ys| - 1];
      InsertionsConcat(w, s, xs, ys[..|ys| - 1]);
      RunConcat(w, s, xs, ys[..|ys| - 1]);
    }
  }

  lemma AtStep(w: World, s: State, steps: seq<Step>, k: nat)
    requires k < |steps|
    ensures At(w, s, steps, k + 1) == Next(w, At(w, s, steps, k), steps[k])
  {
    assert steps[..k + 1][..k] == steps[..k];
  }

  lemma AtFront(w: World, s: State, steps: seq<Step>, k: nat)
    requires steps != [] && k < |steps|
    ensures At(w, s, steps, k) == At(w, s, steps[..|steps| - 1], k)
  {
    assert steps[..|steps| - 1][..k] == steps[..k];
  }

  lemma AtEnd(w: World, s: State, steps: seq<Step>)
    ensures At(w, s, steps, |steps|) == Run(w, s, steps)
  {
    assert steps[..|steps|] == steps;
  }
}

/** Invariants of every run: generations, fencing, and what a lifecycle can become. */
module FilterInvariants {
  import opened Prelude
  import opened Lifecycle
  import opened Pool
  import opened FilterSteps

  // ---------------------------------------------------------------------------------------------
  // Live generations
  // ---------------------------------------------------------------------------------------------

  /** Keys agree with entries; live generations are pairwise distinct and never above the counter. */
  ghost predicate Good(s: State) {
    && Keyed(s.entries)
    && s.nextGeneration < U64_BOUND
    && (forall h :: h in s.entries ==> 1 <= s.entries[h].generation <= s.nextGeneration)
    && (forall h, k :: h in s.entries && k in s.entries && h != k ==>
        s.entries[h].generation != s.entries[k].generation)
  }

  lemma EvolveKeepsIdentity(cfg: Config, step: Step, e: Entry)
    requires Evolve(cfg, step, e).Some?
    ensures var e' := Evolve(cfg, step, e).value;
            && e'.txHash == e.txHash && e'.generation == e.generation && e'.request == e.request
            && e'.firstNotSubmittedAt == e.firstNotSubmittedAt
  {
  }

  lemma NextEntry(w: World, s: State, step: Step, h: Hash)
    ensures h in s.entries && Evolve(w.cfg, step, s.entries[h]).Some? ==>
              h in Next(w, s, step).entries && Next(w, s, step).entries[h] == Evolve(w.cfg, step, s.entries[h]).value
    ensures h in s.entries && Evolve(w.cfg, step, s.entries[h]).None? ==> h !in Next(w, s, step).entries
    ensures h !in s.entries && !(Inserts(w, s, step) && step.input.txHash == h) ==> h !in Next(w, s, step).entries
    ensures h !in s.entries && Inserts(w, s, step) && step.input.txHash == h ==>
              && h in Next(w, s, step).entries
              && Next(w, s, step).entries[h] ==
                 Admitted(w, step.input, step.snapshot, step.now).value.(
                   generation := (s.nextGeneration + 1) % U64_BOUND)
  {
  }

  lemma {:induction false} RunKeyed(w: World, s: State, steps: seq<Step>)
    requires Keyed(s.entries)
    ensures Keyed(Run(w, s, steps).entries)
  {
    if steps != [] {
      var front, last := steps[..|steps| - 1], steps[|steps| - 1];
      RunKeyed(w, s, front);
      var m := Run(w, s, front);
      forall h | h in Next(w, m, last).entries ensures Next(w, m, last).entries[h].txHash == h {
        NextEntry(w, m, last, h);
        if h in m.entries { EvolveKeepsIdentity(w.cfg, last, m.entries[h]); }
      }
    }
  }

  lemma NextCounter(w: World, s: State, step: Step)
    ensures !Inserts(w, s, step) ==> Next(w, s, step).nextGeneration == s.nextGeneration
    ensures Inserts(w, s, step) && s.nextGeneration < U64_BOUND ==>
              Next(w, s, step).nextGeneration == if s.nextGeneration == U64_BOUND - 1 then 0 else s.nextGeneration + 1
  {
  }

  /** The counter after a run, and how often it wrapped. */
  lemma {:induction false} CounterWraps(w: World, s: State, steps: seq<Step>) returns (wraps: nat)
    requires s.nextGeneration < U64_BOUND
    ensures Run(w, s, steps).nextGeneration < U64_BOUND
    ensures s.nextGeneration + Insertions(w, s, steps) == Run(w, s, steps).nextGeneration + wraps * U64_BOUND
    decreases |steps|
  {
    wraps := 0;
    if steps != [] {
      var front, last := steps[..|steps| - 1], steps[|steps| - 1];
      wraps := CounterWraps(w, s, front);
      NextCounter(w, Run(w, s, front), last);
      if Inserts(w, Run(w, s, front), last) && Run(w, s, front).nextGeneration == U64_BOUND - 1 { wraps := wraps + 1; }
    }
  }

  /** The counter counts insertions modulo 2^64: the n-th insertion gets generation n modulo 2^64. */
  lemma CounterCounts(w: World, s: State, steps: seq<Step>)
    requires s.nextGeneration < U64_BOUND
    ensures Run(w, s, steps).nextGeneration == (s.nextGeneration + Insertions(w, s, steps)) % U64_BOUND
  {
    var wraps := CounterWraps(w, s, steps);
    Remainder(s.nextGeneration + Insertions(w, s, steps), Run(w, s, steps).nextGeneration, wraps);
  }

  lemma Remainder(count: nat, counter: nat, wraps: nat)
    requires counter < U64_BOUND && count == counter + wraps * U64_BOUND
    ensures counter == count % U64_BOUND
  {
  }

  /** Where an entry of the next state comes from. */
  lemma NextIdentity(w: World, s: State, step: Step, h: Hash)
    requires Keyed(s.entries) && h in Next(w, s, step).entries
    ensures var e := Next(w, s, step).entries[h];
            && e.txHash == h
            && (h in s.entries ==> e.generation == s.entries[h].generation)
            && (h !in s.entries ==>
                e.generation == (s.nextGeneration + 1) % U64_BOUND && Inserts(w, s, step) && step.input.txHash == h)
  {
    NextEntry(w, s, step, h);
    if h in s.entries { EvolveKeepsIdentity(w.cfg, step, s.entries[h]); }
  }

  lemma StepDistinct(w: World, s: State, step: Step, h: Hash, k: Hash)
    requires Good(s) && (Inserts(w, s, step) ==> s.nextGeneration + 1 < U64_BOUND)
    requires h in Next(w, s, step).entries && k in Next(w, s, step).entries && h != k
    ensures Next(w, s, step).entries[h].generation != Next(w, s, step).entries[k].generation
  {
    NextIdentity(w, s, step, h);
    NextIdentity(w, s, step, k);
  }

  lemma StepIdentity(w: World, s: State, step: Step, h: Hash)
    requires Good(s) && (Inserts(w, s, step) ==> s.nextGeneration + 1 < U64_BOUND) && h in Next(w, s, step).entries
    ensures Next(w, s, step).entries[h].txHash == h
    ensures 1 <= Next(w, s, step).entries[h].generation <= Next(w, s, step).nextGeneration
  {
    NextIdentity(w, s, step, h);
    NextCounter(w, s, step);
  }

  lemma StepGood(w: World, s: State, step: Step)
    requires Good(s) && (Inserts(w, s, step) ==> s.nextGeneration + 1 < U64_BOUND)
    ensures Good(Next(w, s, step))
  {
    var t := Next(w, s, step).entries;
    NextCounter(w, s, step);
    forall h | h in t ensures t[h].txHash == h && 1 <= t[h].generation <= Next(w, s, step).nextGeneration {
      StepIdentity(w, s, step, h);
    }
    forall h, k | h in t && k in t && h != k ensures t[h].generation != t[k].generation {
      StepDistinct(w, s, step, h, k);
    }
  }

  /** Fewer than 2^64 insertions: live generations stay distinct and at most the counter, on every run. */
  lemma {:induction false} RunGood(w: World, s: State, steps: seq<Step>)
    requires Good(s) && s.nextGeneration + Insertions(w, s, steps) < U64_BOUND
    ensures Good(Run(w, s, steps))
    ensures Run(w, s, steps).nextGeneration == s.nextGeneration + Insertions(w, s, steps)
  {
    if steps != [] {
      var front := steps[..|steps| - 1];
      RunGood(w, s, front);
      StepGood(w, Run(w, s, front), steps[|steps| - 1]);
      NextCounter(w, Run(w, s, front), steps[|steps| - 1]);
    }
  }

  lemma GenerationStep(w: World, s: State, step: Step, h: Hash, g: nat)
    requires Good(s) && (Inserts(w, s, step) ==> s.nextGeneration + 1 < U64_BOUND) && g <= s.nextGeneration + 1
    requires h in s.entries ==> s.entries[h].generation >= g
    ensures h in Next(w, s, step).entries ==> Next(w, s, step).entries[h].generation >= g
  {
    if h in Next(w, s, step).entries { NextIdentity(w, s, step, h); }
  }

  /** Generations of a hash only grow. */
  lemma {:induction false} GenerationAtLeast(w: World, s: State, steps: seq<Step>, h: Hash, g: nat)
    requires Good(s) && s.nextGeneration + Insertions(w, s, steps) < U64_BOUND && g <= s.nextGeneration + 1
    requires h in s.entries ==> s.entries[h].generation >= g
    ensures h in Run(w, s, steps).entries ==> Run(w, s, steps).entries[h].generation >= g
  {
    if steps != [] {
      var front, last := steps[..|steps| - 1], steps[|steps| - 1];
      GenerationAtLeast(w, s, front, h, g);
      RunGood(w, s, front);
      GenerationStep(w, Run(w, s, front), last, h, g);
    }
  }

  /** Once a lifecycle is gone, its token never becomes current again. */
  lemma GoneForever(w: World, s: State, steps: seq<Step>, h: Hash, g: nat)
    requires Good(s) && s.nextGeneration + Insertions(w, s, steps) < U64_BOUND
    requires g <= s.nextGeneration && (h in s.entries ==> s.entries[h].generation > g)
    ensures !Live(Run(w, s, steps), h, g)
  {
    GenerationAtLeast(w, s, steps, h, g + 1);
  }

  /** A step that names lifecycle `(h, g)` of hash `h`. */
  ghost predicate CarriesToken(step: Step, h: Hash, g: nat) {
    match step
    case FinishConsistency(hash, generation, _, _) => hash == h && generation == g
    case RemoveNonTerminal(hash, generation) => hash == h && generation == g
    case SubmitResponse(_, expected, _) => h in expected && expected[h] == g
    case QueryAnswers(answers, _) => h in answers && answers[h].0 == g
    case _ => false
  }

  /** A token only ever acts on the lifecycle it was taken from. */
  lemma StaleTokenInert(w: World, s: State, step: Step, h: Hash, g: nat)
    requires Keyed(s.entries) && CarriesToken(step, h, g) && h in s.entries && s.entries[h].generation != g
    ensures h in Next(w, s, step).entries && Next(w, s, step).entries[h] == s.entries[h]
    ensures EventOn(w.cfg, step, s.entries[h]).None?
  {
  }

  /** Fencing over runs: a token is taken, the hash disappears at some later point and is inserted again;
      from then on no step carrying the old token changes the new entry or owes an event for it. */
  lemma ReinsertionFences(w: World, steps: seq<Step>, taken: nat, gone: nat, h: Hash, g: nat, step: Step)
    requires Insertions(w, INITIAL, steps) < U64_BOUND
    requires taken <= gone <= |steps| && Live(At(w, INITIAL, steps, taken), h, g)
             && h !in At(w, INITIAL, steps, gone).entries
    requires h in Run(w, INITIAL, steps).entries && CarriesToken(step, h, g)
    ensures var s := Run(w, INITIAL, steps);
            && s.entries[h].generation > g
            && h in Next(w, s, step).entries && Next(w, s, step).entries[h] == s.entries[h]
            && EventOn(w.cfg, step, s.entries[h]).None?
  {
    GoodAt(w, INITIAL, steps, taken);
    GoodAt(w, INITIAL, steps, gone);
    CounterGrows(w, INITIAL, steps, taken, gone);
    SplitAt(w, INITIAL, steps, gone);
    GenerationAtLeast(w, At(w, INITIAL, steps, gone), steps[gone..], h, g + 1);
    RunKeyed(w, INITIAL, steps);
    StaleTokenInert(w, Run(w, INITIAL, steps), step, h, g);
  }

  lemma SplitAt(w: World, s: State, steps: seq<Step>, k: nat)
    requires k <= |steps|
    ensures Run(w, s, steps) == Run(w, At(w, s, steps, k), steps[k..])
    ensures Insertions(w, s, steps) == Insertions(w, s, steps[..k]) + Insertions(w, At(w, s, steps, k), steps[k..])
  {
    assert steps[..k] + steps[k..] == steps;
    RunConcat(w, s, steps[..k], steps[k..]);
    InsertionsConcat(w, s, steps[..k], steps[k..]);
  }

  lemma GoodAt(w: World, s: State, steps: seq<Step>, k: nat)
    requires k <= |steps| && Good(s) && s.nextGeneration + Insertions(w, s, steps) < U64_BOUND
    ensures Good(At(w, s, steps, k))
    ensures At(w, s, steps, k).nextGeneration == s.nextGeneration + Insertions(w, s, steps[..k])
    ensures At(w, s, steps, k).nextGeneration + Insertions(w, At(w, s, steps, k), steps[k..]) < U64_BOUND
  {
    SplitAt(w, s, steps, k);
    RunGood(w, s, steps[..k]);
  }

  lemma CounterGrows(w: World, s: State, steps: seq<Step>, i: nat, j: nat)
    requires i <= j <= |steps| && Good(s) && s.nextGeneration + Insertions(w, s, steps) < U64_BOUND
    ensures At(w, s, steps, i).nextGeneration <= At(w, s, steps, j).nextGeneration
  {
    GoodAt(w, s, steps, i);
    GoodAt(w, s, steps, j);
    assert steps[..j][..i] == steps[..i];
    SplitAt(w, s, steps[..j], i);
  }

  // ---------------------------------------------------------------------------------------------
  // What a lifecycle can become
  // ---------------------------------------------------------------------------------------------

  /** A later picture of the same lifecycle: identity, request and deadline base never change; a terminal
      state is frozen with its transition time; an approval stays or is dropped. */
  ghost predicate Progress(e: Entry, e': Entry) {
    && e'.txHash == e.txHash && e'.generation == e.generation
    && e'.request == e.request && e'.firstNotSubmittedAt == e.firstNotSubmittedAt
    && (Terminal(e.status) ==> e' == e)
    && (e.status.Approved? ==> e' == e || e'.status.Dropped?)
  }

  lemma StepProgress(cfg: Config, step: Step, e: Entry)
    requires Evolve(cfg, step, e).Some?
    ensures Progress(e, Evolve(cfg, step, e).value)
  {
  }

  /** A lifecycle live at both ends of a run is live throughout. */
  lemma LiveThroughout(w: World, s: State, steps: seq<Step>, h: Hash, k: nat)
    requires Good(s) && s.nextGeneration + Insertions(w, s, steps) < U64_BOUND && k <= |steps|
    requires h in s.entries && Live(Run(w, s, steps), h, s.entries[h].generation)
    ensures Live(At(w, s, steps, k), h, s.entries[h].generation)
  {
    var g := s.entries[h].generation;
    GoodAt(w, s, steps, k);
    SplitAt(w, s, steps, k);
    GenerationAtLeast(w, s, steps[..k], h, g);
    if !Live(At(w, s, steps, k), h, g) {
      GoneForever(w, At(w, s, steps, k), steps[k..], h, g);
    }
  }

  /** Every two pictures of a lifecycle along a run are related by `Progress`. */
  lemma {:induction false} RunProgress(w: World, s: State, steps: seq<Step>, h: Hash)
    requires Good(s) && s.nextGeneration + Insertions(w, s, steps) < U64_BOUND
    requires h in s.entries && Live(Run(w, s, steps), h, s.entries[h].generation)
    ensures Progress(s.entries[h], Run(w, s, steps).entries[h])
    decreases |steps|
  {
    if steps != [] {
      var front, last := steps[..|steps| - 1], steps[|steps| - 1];
      LiveThroughout(w, s, steps, h, |steps| - 1);
      RunProgress(w, s, front, h);
      var m := Run(w, s, front);
      NextEntry(w, m, last, h);
      StepProgress(w.cfg, last, m.entries[h]);
    }
  }

  /** The same between any two points of a run from the empty pool. */
  lemma LifecycleProgress(w: World, steps: seq<Step>, i: nat, j: nat, h: Hash)
    requires Insertions(w, INITIAL, steps) < U64_BOUND && i <= j <= |steps|
    requires h in At(w, INITIAL, steps, i).entries
    requires Live(At(w, INITIAL, steps, j), h, At(w, INITIAL, steps, i).entries[h].generation)
    ensures Progress(At(w, INITIAL, steps, i).entries[h], At(w, INITIAL, steps, j).entries[h])
  {
    var prefix := steps[..j];
    SplitAt(w, INITIAL, steps, j);
    assert prefix[..i] == steps[..i];
    GoodAt(w, INITIAL, prefix, i);
    SplitAt(w, INITIAL, prefix, i);
    RunProgress(w, At(w, INITIAL, prefix, i), prefix[i..], h);
  }
}
