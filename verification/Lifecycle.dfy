/** One buffered audit transaction: its six states, its clocks, and what each kind of decision does to it.
    Every operation of the buffer pool acts on each entry independently, so this is the whole state machine. */
module Lifecycle {
  import opened Prelude
  import opened Wire
  import opened Matcher

  type Hash = nat

  datatype Status = NotSubmitted | Submitted | Pending | Approved | TimedOutAllow | Dropped

  /** What was fixed when the transaction was admitted. */
  datatype Request = Request(origin: Address, contractAddress: Address, nonce: nat, blockHeight: nat,
                             actions: Actions, rules: seq<Rule>, quotaHash: nat, timeoutAction: TimeoutAction)

  datatype Entry = Entry(generation: nat, txHash: Hash, request: Request, status: Status,
                         firstNotSubmittedAt: nat, lastTransitionAt: nat)

  datatype Config = Config(totalRetryTimeout: nat, submittedConfirmationTimeout: nat,
                           riskModuleUnresponsiveTimeout: nat, terminalEntryRetention: nat, maxEventBindings: nat)

  /** A status row returned by RCS. */
  datatype Answer = SaysPending | SaysApproved | SaysDenied | SaysOutdated | SaysOther

  datatype Resolution = ReleaseForPackaging | Discard

  datatype QueryResolution = RetryTimeout(resolution: Resolution) | QueryDenied | QueryOutdated

  datatype Reason = FailCloseTimeout | DeniedByRcs | OutdatedAtRcs

  datatype Event = Event(txHash: Hash, generation: nat, reason: Reason)

  predicate Terminal(s: Status) {
    s.TimedOutAllow? || s.Dropped?
  }

  predicate Retryable(s: Status) {
    s.NotSubmitted? || s.Submitted? || s.Pending?
  }

  predicate InFlight(s: Status) {
    s.Submitted? || s.Pending? || s.Approved?
  }

  /** Saturating difference of two clock readings. */
  function Elapsed(now: nat, since: nat): nat {
    SaturatingSub(now, since)
  }

  predicate Expired(cfg: Config, e: Entry, now: nat) {
    Retryable(e.status) && Elapsed(now, e.firstNotSubmittedAt) > cfg.totalRetryTimeout
  }

  function Move(e: Entry, status: Status, now: nat): Entry {
    e.(status := status, lastTransitionAt := now)
  }

  function FallbackStatus(e: Entry): Status {
    match e.request.timeoutAction
    case AllowOnTimeout => TimedOutAllow
    case DenyOnTimeout => Dropped
  }

  function FallbackResolution(e: Entry): Resolution {
    match e.request.timeoutAction
    case AllowOnTimeout => ReleaseForPackaging
    case DenyOnTimeout => Discard
  }

  /** The cumulative deadline, applied to one entry. */
  function ResolveTotal(cfg: Config, e: Entry, now: nat): Entry {
    if Expired(cfg, e, now) then Move(e, FallbackStatus(e), now) else e
  }

  function OnConsistency(e: Entry, consistent: bool, now: nat): Entry {
    if e.status.Approved? && !consistent then Move(e, Dropped, now) else e
  }

  function OnSubmitResponse(cfg: Config, e: Entry, accepted: bool, now: nat): Entry {
    if Expired(cfg, e, now) then ResolveTotal(cfg, e, now)
    else if accepted && e.status.NotSubmitted? then Move(e, Submitted, now)
    else e
  }

  function OnAnswer(cfg: Config, e: Entry, answer: Answer, now: nat): Entry {
    if Terminal(e.status) then e
    else if Expired(cfg, e, now) then ResolveTotal(cfg, e, now)
    else
      match answer
      case SaysPending => if e.status.Submitted? then Move(e, Pending, now) else e
      case SaysApproved => if e.status.Submitted? || e.status.Pending? then Move(e, Approved, now) else e
      case SaysDenied => Move(e, Dropped, now)
      case SaysOutdated => Move(e, Dropped, now)
      case SaysOther => e
  }

  function AnswerResolution(cfg: Config, e: Entry, answer: Answer, now: nat): Option<QueryResolution> {
    if Terminal(e.status) then None
    else if Expired(cfg, e, now) then Some(RetryTimeout(FallbackResolution(e)))
    else
      match answer
      case SaysDenied => Some(QueryDenied)
      case SaysOutdated => Some(QueryOutdated)
      case _ => None
  }

  function ReasonOf(r: QueryResolution): Option<Reason> {
    match r
    case RetryTimeout(Discard) => Some(FailCloseTimeout)
    case RetryTimeout(ReleaseForPackaging) => None
    case QueryDenied => Some(DeniedByRcs)
    case QueryOutdated => Some(OutdatedAtRcs)
  }

  function OnTimeout(cfg: Config, e: Entry, now: nat): Entry {
    if Expired(cfg, e, now) then ResolveTotal(cfg, e, now)
    else if e.status.Submitted? && Elapsed(now, e.lastTransitionAt) > cfg.submittedConfirmationTimeout then
      Move(e, NotSubmitted, now)
    else if e.status.Pending? && Elapsed(now, e.lastTransitionAt) > cfg.riskModuleUnresponsiveTimeout then
      Move(e, NotSubmitted, now)
    else e
  }

  predicate Prunable(retention: nat, e: Entry, now: nat) {
    Terminal(e.status) && Elapsed(now, e.lastTransitionAt) > retention
  }
}

/** The shared side table from transaction hash to lifecycle. Each method is one locked section, or a part
    of one; hash-table iteration order is left open. */
module Pool {
  import opened Prelude
  import opened Lifecycle

  type Entries = map<Hash, Entry>

  type Resolved = (Hash, nat, Resolution)

  ghost predicate Keyed(entries: Entries) {
    forall h :: h in entries ==> entries[h].txHash == h
  }

  /** The report of a timeout pass over `scope`: each expired entry once, with its own fallback. */
  ghost predicate ReportsExpired(cfg: Config, entries: Entries, scope: set<Hash>, now: nat, report: seq<Resolved>) {
    && (forall i, j :: 0 <= i < j < |report| ==> report[i].0 != report[j].0)
    && (forall r :: r in report <==>
                      && r.0 in scope && r.0 in entries && Expired(cfg, entries[r.0], now)
                      && r == (r.0, entries[r.0].generation, FallbackResolution(entries[r.0])))
  }

  /** Entries whose current lifecycle is the one a token was taken from. */
  function Current(entries: Entries, tokens: map<Hash, nat>): set<Hash> {
    set h | h in tokens && h in entries && entries[h].generation == tokens[h]
  }

  lemma ReportGrows(cfg: Config, entries: Entries, scope: set<Hash>, now: nat, report: seq<Resolved>, h: Hash)
    requires ReportsExpired(cfg, entries, scope, now, report) && h !in scope && h in entries
    ensures Expired(cfg, entries[h], now) ==>
              ReportsExpired(cfg, entries, scope + {h}, now, report
                             + [(h, entries[h].generation, FallbackResolution(entries[h]))])
    ensures !Expired(cfg, entries[h], now) ==> ReportsExpired(cfg, entries, scope + {h}, now, report)
  {
    forall i | 0 <= i < |report| ensures report[i].0 != h {
      assert report[i] in report;
    }
  }

  class BufferPool {
    var entries: Entries
    var nextGeneration: nat

    ghost predicate Valid()
      reads this
    {
      Keyed(entries) && nextGeneration < U64_BOUND
    }

    constructor ()
      ensures Valid() && entries == map[] && nextGeneration == 0
    {
      entries, nextGeneration := map[], 0;
    }

    /** No-op when the hash is present; otherwise the entry gets the next wrapping generation. */
    method Insert(entry: Entry)
      requires Valid()
      modifies this
      ensures Valid()
      ensures entry.txHash in old(entries) ==> entries == old(entries) && nextGeneration == old(nextGeneration)
      ensures entry.txHash !in old(entries) ==>
                && nextGeneration == (old(nextGeneration) + 1) % U64_BOUND
                && entries == old(entries)[entry.txHash := entry.(generation := nextGeneration)]
    {
      if entry.txHash in entries { return; }
      nextGeneration := (nextGeneration + 1) % U64_BOUND;
      entries := entries[entry.txHash := entry.(generation := nextGeneration)];
    }

    method FinishConsistencyCheck(h: Hash, generation: nat, consistent: bool, now: nat) returns (status: Option<Status>)
      requires Valid()
      modifies this
      ensures Valid() && nextGeneration == old(nextGeneration)
      ensures h in old(entries) && old(entries)[h].generation == generation ==>
                && entries == old(entries)[h := OnConsistency(old(entries)[h], consistent, now)]
                && status == Some(entries[h].status)
      ensures !(h in old(entries) && old(entries)[h].generation == generation) ==>
              entries == old(entries) && status == None
    {
      if h !in entries { return None; }
      var entry := entries[h];
      if entry.generation != generation { return None; }
      if entry.status == Approved && !consistent {
        entry := entry.(status := Dropped, lastTransitionAt := now);
        entries := entries[h := entry];
      }
      status := Some(entry.status);
    }

    function Matches(h: Hash, generation: nat, status: Status): bool
      reads this
    {
      h in entries && entries[h].generation == generation && entries[h].status == status
    }

    /** Hashes of the entries in a given state, in no particular order. */
    method HashesIn(keep: Status -> bool) returns (hashes: seq<Hash>)
      ensures forall h :: h in hashes <==> h in entries && keep(entries[h].status)
      ensures forall i, j :: 0 <= i < j < |hashes| ==> hashes[i] != hashes[j]
    {
      hashes := [];
      var todo := entries.Keys;
      while todo != {}
        invariant todo <= entries.Keys
        invariant forall h :: h in hashes <==> h in entries && h !in todo && keep(entries[h].status)
        invariant forall i, j :: 0 <= i < j < |hashes| ==> hashes[i] != hashes[j]
        decreases todo
      {
        var h :| h in todo;
        if keep(entries[h].status) { hashes := hashes + [h]; }
        todo := todo - {h};
      }
    }

    /** The token map that fences a status query across network awaits. */
    method InFlightGenerations() returns (tokens: map<Hash, nat>)
      ensures forall h :: h in tokens <==> h in entries && entries[h].status in {Submitted, Pending, Approved}
      ensures forall h :: h in tokens ==> tokens[h] == entries[h].generation
    {
      var hashes := HashesIn(s => InFlight(s));
      tokens := map[];
      for n := 0 to |hashes|
        invariant forall h :: h in tokens <==> h in hashes[..n]
        invariant forall h :: h in tokens ==> h in entries && tokens[h] == entries[h].generation
      {
        assert hashes[..n + 1] == hashes[..n] + [hashes[n]];
        tokens := tokens[hashes[n] := entries[hashes[n]].generation];
      }
      assert hashes[..|hashes|] == hashes;
    }

    method RemoveCanonical(hashes: seq<Hash>) returns (removed: nat)
      requires Valid()
      modifies this
      ensures Valid() && nextGeneration == old(nextGeneration)
      ensures entries == map h | h in old(entries) && h !in hashes :: old(entries)[h]
      ensures removed == |old(entries).Keys| - |entries.Keys|
    {
      removed := 0;
      for n := 0 to |hashes|
        invariant entries == map h | h in old(entries) && h !in hashes[..n] :: old(entries)[h]
        invariant removed == |old(entries).Keys| - |entries.Keys|
        invariant nextGeneration == old(nextGeneration)
      {
        assert hashes[..n + 1] == hashes[..n] + [hashes[n]];
        if hashes[n] in entries {
          assert (entries - {hashes[n]}).Keys == entries.Keys - {hashes[n]};
          removed := removed + 1;
        }
        entries := entries - {hashes[n]};
      }
      assert hashes[..|hashes|] == hashes;
    }

    /** Fail-closed tombstones survive lost canonical notifications; nothing else does. */
    method RecoverAfterCanonicalLag() returns (removed: nat)
      requires Valid()
      modifies this
      ensures Valid() && nextGeneration == old(nextGeneration)
      ensures removed == |old(entries).Keys| - |entries.Keys|
      ensures entries == map h | h in old(entries) && old(entries)[h].status.Dropped? :: old(entries)[h]
    {
      var before := entries;
      entries := map h | h in before && before[h].status.Dropped? :: before[h];
      SubsetSize(entries.Keys, before.Keys);
      removed := |before.Keys| - |entries.Keys|;
    }

    method RemoveNonTerminalIfGeneration(h: Hash, generation: nat) returns (removed: bool)
      requires Valid()
      modifies this
      ensures Valid() && nextGeneration == old(nextGeneration)
      ensures removed <==>
              h in old(entries) && old(entries)[h].generation == generation && !Terminal(old(entries)[h].status)
      ensures entries == if removed then old(entries) - {h} else old(entries)
    {
      removed := h in entries && entries[h].generation == generation && !Terminal(entries[h].status);
      if removed { entries := entries - {h}; }
    }

    /** The deadline check on one entry; tells the fallback taken. */
    method ResolveTotalTimeout(h: Hash, cfg: Config, now: nat) returns (resolution: Option<Resolution>)
      requires Valid() && h in entries
      modifies this
      ensures Valid() && nextGeneration == old(nextGeneration)
      ensures entries == old(entries)[h := ResolveTotal(cfg, old(entries)[h], now)]
      ensures resolution == if Expired(cfg, old(entries)[h], now) then Some(FallbackResolution(old(entries)[h]))
              else None
    {
      var entry := entries[h];
      if !(entry.status == NotSubmitted || entry.status == Submitted || entry.status == Pending)
         || Elapsed(now, entry.firstNotSubmittedAt) <= cfg.totalRetryTimeout
      {
        return None;
      }
      match entry.request.timeoutAction {
        case AllowOnTimeout =>
          entries := entries[h := Move(entry, TimedOutAllow, now)];
          resolution := Some(ReleaseForPackaging);
        case DenyOnTimeout =>
          entries := entries[h := Move(entry, Dropped, now)];
          resolution := Some(Discard);
      }
    }

    method ResolveTotalTimeouts(cfg: Config, now: nat) returns (report: seq<Resolved>)
      requires Valid()
      modifies this
      ensures Valid() && nextGeneration == old(nextGeneration)
      ensures entries == map h | h in old(entries) :: ResolveTotal(cfg, old(entries)[h], now)
      ensures ReportsExpired(cfg, old(entries), old(entries).Keys, now, report)
    {
      report := [];
      var todo := entries.Keys;
      while todo != {}
        invariant todo <= old(entries).Keys && Valid() && nextGeneration == old(nextGeneration)
        invariant entries == map h | h in old(entries) ::
                  if h in todo then old(entries)[h] else ResolveTotal(cfg, old(entries)[h], now)
        invariant ReportsExpired(cfg, old(entries), old(entries).Keys - todo, now, report)
        decreases todo
      {
        var h :| h in todo;
        ReportGrows(cfg, old(entries), old(entries).Keys - todo, now, report, h);
        assert old(entries).Keys - (todo - {h}) == (old(entries).Keys - todo) + {h};
        var resolution := ResolveTotalTimeout(h, cfg, now);
        if resolution.Some? { report := report + [(entries[h].txHash, entries[h].generation, resolution.value)]; }
        todo := todo - {h};
      }
      assert old(entries).Keys - todo == old(entries).Keys;
    }

    /** Only the lifecycles the request was built from are touched; the deadline comes before the answer. */
    method ApplySubmitResponse(accepted: set<Hash>, expected: map<Hash, nat>, cfg: Config, now: nat)
      returns (report: seq<Resolved>)
      requires Valid()
      modifies this
      ensures Valid() && nextGeneration == old(nextGeneration)
      ensures entries == map h | h in old(entries) ::
                if h in Current(old(entries), expected) then OnSubmitResponse(cfg, old(entries)[h], h in accepted, now)
                else old(entries)[h]
      ensures ReportsExpired(cfg, old(entries), Current(old(entries), expected), now, report)
    {
      report := [];
      ghost var current := Current(entries, expected);
      var todo := expected.Keys;
      while todo != {}
        invariant todo <= expected.Keys && Valid() && nextGeneration == old(nextGeneration)
        invariant entries == map h | h in old(entries) ::
                    if h in current - todo then OnSubmitResponse(cfg, old(entries)[h], h in accepted, now)
                      else old(entries)[h]
        invariant ReportsExpired(cfg, old(entries), current - todo, now, report)
        decreases todo
      {
        var h :| h in todo;
        if h in current {
          ReportGrows(cfg, old(entries), current - todo, now, report, h);
          assert current - (todo - {h}) == (current - todo) + {h};
        } else {
          assert current - (todo - {h}) == current - todo;
        }
        todo := todo - {h};
        if h !in entries || entries[h].generation != expected[h] { continue; }
        var resolution := ResolveTotalTimeout(h, cfg, now);
        if resolution.Some? {
          report := report + [(h, expected[h], resolution.value)];
        } else if h in accepted && entries[h].status == NotSubmitted {
          entries := entries[h := Move(entries[h], Submitted, now)];
        }
      }
      assert current - todo == current;
    }

    method ApplyQueryStatus(h: Hash, generation: nat, answer: Answer, cfg: Config, now: nat)
      returns (resolution: Option<QueryResolution>)
      requires Valid()
      modifies this
      ensures Valid() && nextGeneration == old(nextGeneration)
      ensures h in old(entries) && old(entries)[h].generation == generation ==>
                && entries == old(entries)[h := OnAnswer(cfg, old(entries)[h], answer, now)]
                && resolution == AnswerResolution(cfg, old(entries)[h], answer, now)
      ensures !(h in old(entries) && old(entries)[h].generation == generation) ==>
              entries == old(entries) && resolution == None
    {
      if h !in entries { return None; }
      var entry := entries[h];
      if entry.generation != generation || Terminal(entry.status) { return None; }
      var timeout := ResolveTotalTimeout(h, cfg, now);
      if timeout.Some? { return Some(RetryTimeout(timeout.value)); }
      resolution := None;
      match answer {
        case SaysPending =>
          if entry.status == Submitted { entries := entries[h := Move(entry, Pending, now)]; }
        case SaysApproved =>
          if entry.status == Submitted || entry.status == Pending {
            entries := entries[h := Move(entry, Approved, now)];
          }
        case SaysDenied =>
          entries := entries[h := Move(entry, Dropped, now)];
          resolution := Some(QueryDenied);
        case SaysOutdated =>
          entries := entries[h := Move(entry, Dropped, now)];
          resolution := Some(QueryOutdated);
        case SaysOther =>
      }
    }

    method CheckTimeouts(cfg: Config, now: nat) returns (report: seq<Resolved>)
      requires Valid()
      modifies this
      ensures Valid() && nextGeneration == old(nextGeneration)
      ensures entries == map h | h in old(entries) :: OnTimeout(cfg, old(entries)[h], now)
      ensures ReportsExpired(cfg, old(entries), old(entries).Keys, now, report)
    {
      report := [];
      var todo := entries.Keys;
      while todo != {}
        invariant todo <= old(entries).Keys && Valid() && nextGeneration == old(nextGeneration)
        invariant entries == map h | h in old(entries) ::
                  if h in todo then old(entries)[h] else OnTimeout(cfg, old(entries)[h], now)
        invariant ReportsExpired(cfg, old(entries), old(entries).Keys - todo, now, report)
        decreases todo
      {
        var h :| h in todo;
        ReportGrows(cfg, old(entries), old(entries).Keys - todo, now, report, h);
        assert old(entries).Keys - (todo - {h}) == (old(entries).Keys - todo) + {h};
        todo := todo - {h};
        var resolution := CheckTimeout(h, cfg, now);
        if resolution.Some? { report := report + [(entries[h].txHash, entries[h].generation, resolution.value)]; }
      }
      assert old(entries).Keys - todo == old(entries).Keys;
    }

    /** The deadline on one entry, else its stall. */
    method CheckTimeout(h: Hash, cfg: Config, now: nat) returns (resolution: Option<Resolution>)
      requires Valid() && h in entries
      modifies this
      ensures Valid() && nextGeneration == old(nextGeneration)
      ensures entries == old(entries)[h := OnTimeout(cfg, old(entries)[h], now)]
      ensures resolution == if Expired(cfg, old(entries)[h], now) then Some(FallbackResolution(old(entries)[h]))
              else None
    {
      resolution := ResolveTotalTimeout(h, cfg, now);
      var entry := entries[h];
      if resolution.Some? || Terminal(entry.status) { return; }
      var since := Elapsed(now, entry.lastTransitionAt);
      if (entry.status == Submitted && since > cfg.submittedConfirmationTimeout)
         || (entry.status == Pending && since > cfg.riskModuleUnresponsiveTimeout)
      {
        entries := entries[h := Move(entry, NotSubmitted, now)];
      }
    }

    method PruneTerminal(retention: nat, now: nat) returns (pruned: nat)
      requires Valid()
      modifies this
      ensures Valid() && nextGeneration == old(nextGeneration)
      ensures pruned == |old(entries).Keys| - |entries.Keys|
      ensures entries == map h | h in old(entries) && !Prunable(retention, old(entries)[h], now) :: old(entries)[h]
    {
      var before := entries;
      entries := map h | h in before && !Prunable(retention, before[h], now) :: before[h];
      SubsetSize(entries.Keys, before.Keys);
      pruned := |before.Keys| - |entries.Keys|;
    }
  }
}
