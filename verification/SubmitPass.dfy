/** A whole submit pass against the pool: what is collected is scheduled, and each group's locked sections fall
    between its start and its completion, among the steps of all other threads. */
module SubmitPass {
  import opened Prelude
  import opened Lifecycle
  import opened FilterSteps
  import opened FilterHandle
  import opened SubmitProfile
  import opened SubmitWorker
  import S = SubmitScheduler
  import opened SubmitBatch
  import opened SubmitRuns

  type Pending = seq<(nat, seq<SubmitEntry>)>

  /** A group gets to run its first locked section, after `gap` of other threads. */
  datatype Poll = Poll(group: nat, gap: seq<Step>, now: nat)

  /** What happens around one scheduler event: the groups polled after it, and for a completion its first poll, if
      there was none yet, and its reply. */
  datatype Turn = Turn(polls: seq<Poll>, first: Poll, reply: Reply)

  /** What became of a group: its request, the point of the history just after the request was built, and once
      it completed the point reached by then and its error. */
  datatype GroupLog = GroupLog(requested: seq<SubmitEntry>, built: nat, done: Option<nat>, error: Option<Failure>)

  type Logs = map<nat, GroupLog>

  /** The request was built by the locked section that ends at `built`. */
  ghost predicate BuiltOk(w: World, history: seq<Step>, group: seq<SubmitEntry>, log: GroupLog) {
    && 0 < log.built <= |history| && history[log.built - 1].ResolveTotals?
    && IsRequest(w.cfg, Run(w, INITIAL, history[..log.built]), group, history[log.built - 1].now, log.requested)
  }

  /** The completion: nothing if nothing was requested, otherwise the reply fenced by the request's generations,
      or only a deadline check and an error. */
  ghost predicate DoneOk(history: seq<Step>, log: GroupLog) {
    log.done.Some? ==>
      && log.built <= log.done.value <= |history|
      && if log.requested == [] then log.error.None?
         else log.built < log.done.value && IsReply(history[log.done.value - 1], log.requested, log.error)
  }

  ghost predicate IsReply(step: Step, requested: seq<SubmitEntry>, error: Option<Failure>) {
    match error
    case None => step.SubmitResponse? && step.expected == TokensOf(requested)
    case Some(_) => step.ResolveTotals?
  }

  ghost predicate LogOk(w: World, history: seq<Step>, group: seq<SubmitEntry>, log: GroupLog) {
    BuiltOk(w, history, group, log) && DoneOk(history, log)
  }

  lemma LogStays(w: World, history: seq<Step>, more: seq<Step>, group: seq<SubmitEntry>, log: GroupLog)
    requires LogOk(w, history, group, log)
    ensures LogOk(w, history + more, group, log)
  {
    assert (history + more)[..log.built] == history[..log.built];
  }

  ghost predicate FinishesAt(trace: seq<S.Event>, u: nat, g: nat) {
    u < |trace| && trace[u].Finish? && trace[u].group == g
  }

  /** After `t` scheduler events: `mark[u]` is how long the history was when event `u` came. */
  ghost predicate Marked(history: seq<Step>, t: nat, mark: seq<int>) {
    && |mark| == t + 1 && mark[t] <= |history|
    && forall u, v :: 0 <= u <= v <= t ==> mark[u] <= mark[v]
  }

  /** Requests are built after their group starts, and settled by the time it finishes. */
  ghost predicate InPlace(trace: seq<S.Event>, t: nat, mark: seq<int>, g: nat, log: GroupLog)
    requires t <= |trace| && |mark| == t + 1
  {
    && (forall u: nat :: u < t && StartsAt(trace, u, g) ==> mark[u] < log.built)
    && (forall u: nat :: u < t && FinishesAt(trace, u, g) && log.done.Some? ==> log.done.value <= mark[u + 1])
  }

  ghost predicate GroupAt(w: World, pending: Pending, trace: seq<S.Event>, t: nat, history: seq<Step>, mark: seq<int>,
                          g: nat, log: GroupLog)
    requires t <= |trace| && |mark| == t + 1
  {
    && g < |pending| && g in S.Started(trace[..t])
    && LogOk(w, history, pending[g].1, log) && InPlace(trace, t, mark, g, log)
  }

  ghost predicate PassAt(w: World, pending: Pending, trace: seq<S.Event>, t: nat, history: seq<Step>, mark: seq<int>,
                         logs: Logs) {
    && t <= |trace| && Marked(history, t, mark)
    && (forall g :: g in logs ==> GroupAt(w, pending, trace, t, history, mark, g, logs[g]))
    && (forall g :: g in S.Finished(trace[..t]) <==> g in logs && logs[g].done.Some?)
  }

  /** Other threads' steps change nothing here. */
  lemma PassWaits(w: World, pending: Pending, trace: seq<S.Event>, t: nat, history: seq<Step>, mark: seq<int>,
                  logs: Logs, more: seq<Step>)
    requires PassAt(w, pending, trace, t, history, mark, logs)
    ensures PassAt(w, pending, trace, t, history + more, mark, logs)
  {
    forall g | g in logs ensures GroupAt(w, pending, trace, t, history + more, mark, g, logs[g]) {
      LogStays(w, history, more, pending[g].1, logs[g]);
    }
  }

  /** A group that has started and not been polled builds its request. */
  lemma PassBuilds(w: World, pending: Pending, trace: seq<S.Event>, t: nat, history: seq<Step>, mark: seq<int>,
                   logs: Logs, g: nat, log: GroupLog)
    requires PassAt(w, pending, trace, t, history, mark, logs) && g < |pending|
    requires g in S.Started(trace[..t]) && g !in logs && g !in S.Finished(trace[..t])
    requires BuiltOk(w, history, pending[g].1, log) && log.done.None? && mark[t] < log.built
    ensures PassAt(w, pending, trace, t, history, mark, logs[g := log])
  {
  }

  lemma TraceNext(trace: seq<S.Event>, t: nat)
    requires t < |trace|
    ensures var before, after := trace[..t], trace[..t + 1];
            && S.Started(after) == (if trace[t].Start? then S.Started(before) + {trace[t].group} else S.Started(before))
            && S.Finished(after) == (if trace[t].Finish? then S.Finished(before) + {trace[t].group}
                                     else S.Finished(before))
  {
    assert trace[..t + 1][..t] == trace[..t];
  }

  lemma PassStarts(w: World, pending: Pending, trace: seq<S.Event>, t: nat, history: seq<Step>, mark: seq<int>,
                   logs: Logs)
    requires PassAt(w, pending, trace, t, history, mark, logs) && t < |trace| && trace[t].Start?
    requires trace[t].group !in S.Started(trace[..t])
    ensures PassAt(w, pending, trace, t + 1, history, mark + [|history|], logs)
  {
    TraceNext(trace, t);
    forall x | x in logs ensures GroupAt(w, pending, trace, t + 1, history, mark + [|history|], x, logs[x]) {
      InPlaceStarts(trace, t, mark, |history|, x, logs[x]);
    }
  }

  lemma InPlaceStarts(trace: seq<S.Event>, t: nat, mark: seq<int>, m: nat, g: nat, log: GroupLog)
    requires t < |trace| && |mark| == t + 1 && trace[t].Start? && trace[t].group != g
    requires InPlace(trace, t, mark, g, log)
    ensures InPlace(trace, t + 1, mark + [m], g, log)
  {
  }

  lemma InPlaceNext(trace: seq<S.Event>, t: nat, mark: seq<int>, m: nat, g: nat, log: GroupLog)
    requires t < |trace| && |mark| == t + 1 && trace[t].Finish?
    requires InPlace(trace, t, mark, g, log) && (trace[t].group != g || log.done == Some(m))
    ensures InPlace(trace, t + 1, mark + [m], g, log)
  {
  }

  /** No earlier event finishes a group that has not finished yet. */
  lemma InPlaceDone(trace: seq<S.Event>, t: nat, mark: seq<int>, g: nat, log: GroupLog, log': GroupLog)
    requires t <= |trace| && |mark| == t + 1 && g !in S.Finished(trace[..t]) && log'.built == log.built
    requires InPlace(trace, t, mark, g, log)
    ensures InPlace(trace, t, mark, g, log')
  {
    WhenFinished(trace[..t], g);
    forall u: nat | u < t ensures !FinishesAt(trace, u, g) {
      assert trace[..t][u] == trace[u];
    }
  }

  lemma PassFinishes(w: World, pending: Pending, trace: seq<S.Event>, t: nat, history: seq<Step>, mark: seq<int>,
                     logs: Logs, log: GroupLog)
    requires PassAt(w, pending, trace, t, history, mark, logs) && t < |trace| && trace[t].Finish?
    requires trace[t].group in logs && trace[t].group !in S.Finished(trace[..t])
    requires log == logs[trace[t].group].(done := log.done, error := log.error) && log.done == Some(|history|)
    requires DoneOk(history, log)
    ensures PassAt(w, pending, trace, t + 1, history, mark + [|history|], logs[trace[t].group := log])
  {
    TraceNext(trace, t);
    forall x | x in logs
      ensures GroupAt(w, pending, trace, t + 1, history, mark + [|history|], x, logs[trace[t].group := log][x])
    {
      LogFinishes(w, pending[x].1, trace, t, history, mark, x, logs[x], log);
    }
  }

  /** What the completion means for group `x`: its own log if it is the one that finishes, else as before. */
  lemma LogFinishes(w: World, group: seq<SubmitEntry>, trace: seq<S.Event>, t: nat, history: seq<Step>,
                    mark: seq<int>, x: nat, was: GroupLog, log: GroupLog)
    requires t < |trace| && trace[t].Finish? && |mark| == t + 1 && trace[t].group !in S.Finished(trace[..t])
    requires LogOk(w, history, group, was) && InPlace(trace, t, mark, x, was)
    requires x == trace[t].group ==> log == was.(done := Some(|history|), error := log.error) && DoneOk(history, log)
    ensures var log' := if x == trace[t].group then log else was;
            LogOk(w, history, group, log') && InPlace(trace, t + 1, mark + [|history|], x, log')
  {
    if x == trace[t].group { InPlaceDone(trace, t, mark, x, was, log); }
    InPlaceNext(trace, t, mark, |history|, x, if x == trace[t].group then log else was);
  }

  // ---------------------------------------------------------------------------------------------
  // What became of the replies
  // ---------------------------------------------------------------------------------------------

  /** Completed groups keep their logs. */
  ghost predicate KeepsDone(logs: Logs, logs': Logs) {
    forall g :: g in logs && logs[g].done.Some? ==> g in logs' && logs'[g] == logs[g]
  }

  /** An acceptance is applied to the pool under the generations requested, and the group succeeds; after an error
      only the deadlines are checked, and the group fails with that very error. Both at the reply's own time. */
  ghost predicate Applied(step: Step, log: GroupLog, reply: Reply) {
    match reply.accepted
    case Ok(hashes) => step == SubmitResponse(hashes, TokensOf(log.requested), reply.now) && log.error == None
    case Err(failure) => step == ResolveTotals(reply.now) && log.error == Some(failure)
  }

  ghost predicate ReplyTaken(history: seq<Step>, logs: Logs, g: nat, reply: Reply) {
    && g in logs && logs[g].done.Some? && logs[g].done.value <= |history|
    && if logs[g].requested == [] then logs[g].error == None
       else 0 < logs[g].done.value && Applied(history[logs[g].done.value - 1], logs[g], reply)
  }

  /** Of the first `t` scheduler events, every completion took in the reply that came with it. */
  ghost predicate RepliesTaken(trace: seq<S.Event>, t: nat, turns: nat -> Turn, history: seq<Step>, logs: Logs)
    requires t <= |trace|
  {
    forall u: nat :: u < t && trace[u].Finish? ==> ReplyTaken(history, logs, trace[u].group, turns(u).reply)
  }

  lemma RepliesStay(trace: seq<S.Event>, t: nat, turns: nat -> Turn, history: seq<Step>, history': seq<Step>,
                    logs: Logs, logs': Logs)
    requires t <= |trace| && RepliesTaken(trace, t, turns, history, logs)
    requires history <= history' && KeepsDone(logs, logs')
    ensures RepliesTaken(trace, t, turns, history', logs')
  {
    forall u: nat | u < t && trace[u].Finish?
      ensures ReplyTaken(history', logs', trace[u].group, turns(u).reply)
    {
      assert ReplyTaken(history, logs, trace[u].group, turns(u).reply);
    }
  }

  lemma RepliesNext(trace: seq<S.Event>, t: nat, turns: nat -> Turn, history: seq<Step>, history': seq<Step>,
                    logs: Logs, logs': Logs)
    requires t < |trace| && RepliesTaken(trace, t, turns, history, logs)
    requires history <= history' && KeepsDone(logs, logs')
    requires trace[t].Finish? ==> ReplyTaken(history', logs', trace[t].group, turns(t).reply)
    ensures RepliesTaken(trace, t + 1, turns, history', logs')
  {
    RepliesStay(trace, t, turns, history, history', logs, logs');
  }

  // ---------------------------------------------------------------------------------------------
  // The pass
  // ---------------------------------------------------------------------------------------------

  type Requests = map<nat, seq<SubmitEntry>>

  /** The worker's own view of the groups: their requests, and the errors of those that completed. */
  ghost predicate Views(logs: Logs, requests: Requests, errors: seq<(nat, Failure)>) {
    && requests.Keys == logs.Keys
    && (forall g :: g in logs ==> requests[g] == logs[g].requested)
    && (forall g, f :: (g, f) in errors <==> g in logs && logs[g].done.Some? && logs[g].error == Some(f))
  }

  /** Runs the first locked section of a group, if it is in flight and has not run it yet. */
  method PollGroup(shared: Shared, pending: Pending, ghost trace: seq<S.Event>, ghost t: nat, ghost mark: seq<int>,
                   ghost logs: Logs, requests: Requests, errors: seq<(nat, Failure)>, inFlight: set<nat>, poll: Poll)
    returns (requests': Requests, ghost logs': Logs)
    requires shared.Valid() && PassAt(shared.world, pending, trace, t, shared.history, mark, logs)
    requires Views(logs, requests, errors) && inFlight == S.InFlight(trace[..t])
    requires forall g :: g in inFlight ==> g < |pending|
    modifies shared, shared.pool
    ensures shared.Valid() && PassAt(shared.world, pending, trace, t, shared.history, mark, logs')
    ensures Views(logs', requests', errors) && old(shared.history) <= shared.history
    ensures poll.group in inFlight ==> poll.group in logs'
    ensures forall g :: g in logs ==> g in logs' && logs'[g] == logs[g]
  {
    requests', logs' := requests, logs;
    var g := poll.group;
    if g in requests || g !in inFlight { return; }
    shared.Others(poll.gap);
    var requested := BuildRequest(shared, pending[g].1, poll.now);
    requests', logs' := requests[g := requested], logs[g := GroupLog(requested, |shared.history|, None, None)];
    Polled(shared.world, pending, trace, t, old(shared.history), mark, logs, requests, errors, poll, requested);
  }

  lemma Polled(w: World, pending: Pending, trace: seq<S.Event>, t: nat, past: seq<Step>, mark: seq<int>,
               logs: Logs, requests: Requests, errors: seq<(nat, Failure)>, poll: Poll, requested: seq<SubmitEntry>)
    requires PassAt(w, pending, trace, t, past, mark, logs) && Views(logs, requests, errors)
    requires poll.group < |pending| && poll.group in S.InFlight(trace[..t]) && poll.group !in logs
    requires var history := past + poll.gap + [ResolveTotals(poll.now)];
             IsRequest(w.cfg, Run(w, INITIAL, history), pending[poll.group].1, poll.now, requested)
    ensures var history := past + poll.gap + [ResolveTotals(poll.now)];
            var logs' := logs[poll.group := GroupLog(requested, |history|, None, None)];
            && PassAt(w, pending, trace, t, history, mark, logs')
            && Views(logs', requests[poll.group := requested], errors)
  {
    PassPolls(w, pending, trace, t, past, mark, logs, poll, requested);
    var n := |past + poll.gap + [ResolveTotals(poll.now)]|;
    ViewsBuild(logs, requests, errors, poll.group, GroupLog(requested, n, None, None));
  }

  lemma PassPolls(w: World, pending: Pending, trace: seq<S.Event>, t: nat, past: seq<Step>, mark: seq<int>,
                  logs: Logs, poll: Poll, requested: seq<SubmitEntry>)
    requires PassAt(w, pending, trace, t, past, mark, logs) && poll.group < |pending|
    requires poll.group in S.InFlight(trace[..t]) && poll.group !in logs
    requires var history := past + poll.gap + [ResolveTotals(poll.now)];
             IsRequest(w.cfg, Run(w, INITIAL, history), pending[poll.group].1, poll.now, requested)
    ensures var history := past + poll.gap + [ResolveTotals(poll.now)];
            PassAt(w, pending, trace, t, history, mark, logs[poll.group := GroupLog(requested, |history|, None, None)])
  {
    var history := past + poll.gap + [ResolveTotals(poll.now)];
    var log := GroupLog(requested, |history|, None, None);
    PassWaits(w, pending, trace, t, past, mark, logs, poll.gap);
    PassWaits(w, pending, trace, t, past + poll.gap, mark, logs, [ResolveTotals(poll.now)]);
    assert history[..|history|] == history;
    PassBuilds(w, pending, trace, t, history, mark, logs, poll.group, log);
  }

  lemma ViewsBuild(logs: Logs, requests: Requests, errors: seq<(nat, Failure)>, g: nat, log: GroupLog)
    requires Views(logs, requests, errors) && g !in logs && log.done.None?
    ensures Views(logs[g := log], requests[g := log.requested], errors)
  {
  }

  /** A completion: the request is built now if it was not before, then its outcome is taken in. */
  method FinishGroup(shared: Shared, pending: Pending, trace: seq<S.Event>, t: nat, ghost mark: seq<int>,
                     ghost logs: Logs, requests: Requests, errors: seq<(nat, Failure)>, inFlight: set<nat>, turn: Turn)
    returns (requests': Requests, errors': seq<(nat, Failure)>, ghost logs': Logs)
    requires shared.Valid() && PassAt(shared.world, pending, trace, t, shared.history, mark, logs)
    requires Views(logs, requests, errors) && inFlight == S.InFlight(trace[..t])
    requires forall g :: g in inFlight ==> g < |pending|
    requires t < |trace| && trace[t].Finish? && trace[t].group in inFlight
    modifies shared, shared.pool
    ensures shared.Valid() && Views(logs', requests', errors') && old(shared.history) <= shared.history
    ensures PassAt(shared.world, pending, trace, t + 1, shared.history, mark + [|shared.history|], logs')
    ensures KeepsDone(logs, logs') && ReplyTaken(shared.history, logs', trace[t].group, turn.reply)
  {
    var g := trace[t].group;
    ghost var polled;
    requests', polled := PollGroup(shared, pending, trace, t, mark, logs, requests, errors, inFlight,
                                   turn.first.(group := g));
    assert g in polled && polled[g].done.None?;
    errors', logs' := TakeReply(shared, pending, trace, t, mark, polled, requests', errors, turn.reply);
  }

  /** Takes in the outcome of the finishing group, whose request is built. */
  method TakeReply(shared: Shared, ghost pending: Pending, trace: seq<S.Event>, t: nat, ghost mark: seq<int>,
                   ghost logs: Logs, requests: Requests, errors: seq<(nat, Failure)>, reply: Reply)
    returns (errors': seq<(nat, Failure)>, ghost logs': Logs)
    requires shared.Valid() && PassAt(shared.world, pending, trace, t, shared.history, mark, logs)
    requires Views(logs, requests, errors) && t < |trace| && trace[t].Finish? && trace[t].group in logs
    requires trace[t].group !in S.Finished(trace[..t]) && logs[trace[t].group].done.None?
    modifies shared, shared.pool
    ensures shared.Valid() && Views(logs', requests, errors') && old(shared.history) <= shared.history
    ensures PassAt(shared.world, pending, trace, t + 1, shared.history, mark + [|shared.history|], logs')
    ensures KeepsDone(logs, logs') && ReplyTaken(shared.history, logs', trace[t].group, reply)
  {
    var g := trace[t].group;
    ghost var before := shared.history;
    var error := SettleGroup(shared, requests[g], reply);
    logs' := logs[g := logs[g].(done := Some(|shared.history|), error := error)];
    errors' := if error.Some? then errors + [(g, error.value)] else errors;
    Settled(shared.world, pending, trace, t, before, shared.history, mark, logs, requests, errors, error, reply);
  }

  /** The finishing group's log and errors once its reply is in the history. */
  lemma Settled(w: World, pending: Pending, trace: seq<S.Event>, t: nat, past: seq<Step>, history: seq<Step>,
                mark: seq<int>, logs: Logs, requests: Requests, errors: seq<(nat, Failure)>, error: Option<Failure>,
                reply: Reply)
    requires PassAt(w, pending, trace, t, past, mark, logs) && Views(logs, requests, errors) && past <= history
    requires t < |trace| && trace[t].Finish? && trace[t].group in logs
    requires trace[t].group !in S.Finished(trace[..t]) && logs[trace[t].group].done.None?
    requires var requested := requests[trace[t].group];
             && error == GroupError(requested, reply)
             && (requested != [] ==> |past| < |history| && history[|history| - 1] == ReplyStep(requested, reply))
    ensures var g := trace[t].group;
            var logs' := logs[g := logs[g].(done := Some(|history|), error := error)];
            && Views(logs', requests, if error.Some? then errors + [(g, error.value)] else errors)
            && PassAt(w, pending, trace, t + 1, history, mark + [|history|], logs')
            && KeepsDone(logs, logs') && ReplyTaken(history, logs', g, reply)
  {
    var g := trace[t].group;
    var log := logs[g].(done := Some(|history|), error := error);
    PassSettles(w, pending, trace, t, past, history, mark, logs, log);
    ViewsFinish(logs, requests, errors, g, log);
    TakenNow(logs, g, history, log, reply);
  }

  lemma TakenNow(logs: Logs, g: nat, history: seq<Step>, log: GroupLog, reply: Reply)
    requires g in logs && logs[g].done.None? && log.done == Some(|history|)
    requires log.error == GroupError(log.requested, reply)
    requires log.requested != [] ==> 0 < |history| && history[|history| - 1] == ReplyStep(log.requested, reply)
    ensures KeepsDone(logs, logs[g := log]) && ReplyTaken(history, logs[g := log], g, reply)
  {
  }

  lemma PassSettles(w: World, pending: Pending, trace: seq<S.Event>, t: nat, past: seq<Step>, history: seq<Step>,
                    mark: seq<int>, logs: Logs, log: GroupLog)
    requires PassAt(w, pending, trace, t, past, mark, logs) && past <= history && t < |trace| && trace[t].Finish?
    requires trace[t].group in logs && trace[t].group !in S.Finished(trace[..t])
    requires log == logs[trace[t].group].(done := Some(|history|), error := log.error)
    requires if log.requested == [] then log.error.None?
             else |past| < |history| && IsReply(history[|history| - 1], log.requested, log.error)
    ensures PassAt(w, pending, trace, t + 1, history, mark + [|history|], logs[trace[t].group := log])
  {
    var more := history[|past|..];
    assert history == past + more;
    PassWaits(w, pending, trace, t, past, mark, logs, more);
    assert GroupAt(w, pending, trace, t, past, mark, trace[t].group, logs[trace[t].group]);
    PassFinishes(w, pending, trace, t, history, mark, logs, log);
  }

  /** The reply of a group, if it sent anything. */
  method SettleGroup(shared: Shared, requested: seq<SubmitEntry>, reply: Reply) returns (error: Option<Failure>)
    requires shared.Valid()
    modifies shared, shared.pool
    ensures shared.Valid() && error == GroupError(requested, reply)
    ensures old(shared.history) <= shared.history
    ensures requested == [] ==> shared.history == old(shared.history)
    ensures requested != [] ==> |old(shared.history)| < |shared.history|
    ensures requested != [] ==> shared.history[|shared.history| - 1] == ReplyStep(requested, reply)
    ensures requested != [] ==> IsReply(shared.history[|shared.history| - 1], requested, error)
  {
    error := None;
    if requested != [] { error := AwaitReply(shared, requested, reply); }
  }

  lemma ViewsFinish(logs: Logs, requests: Requests, errors: seq<(nat, Failure)>, g: nat, log: GroupLog)
    requires Views(logs, requests, errors) && g in logs && logs[g].done.None? && log.done.Some?
    requires log.requested == logs[g].requested
    ensures Views(logs[g := log], requests, if log.error.Some? then errors + [(g, log.error.value)] else errors)
  {
  }

  lemma EventFacts(trace: seq<S.Event>, n: nat, t: nat)
    requires OnceEach(trace) && S.Started(trace) == Below(n) && t < |trace|
    ensures trace[t].group < n
    ensures trace[t].Start? ==> trace[t].group !in S.Started(trace[..t])
    ensures trace[t].Finish? ==> trace[t].group in S.InFlight(trace[..t])
  {
    var g := trace[t].group;
    WhenStarted(trace[..t], g);
    WhenFinished(trace[..t], g);
    WhenStarted(trace, g);
    assert forall s :: 0 <= s < t ==> trace[..t][s] == trace[s];
    StartedPrefix(trace, t, |trace|);
    assert trace[..|trace|] == trace;
  }

  lemma InFlightNext(trace: seq<S.Event>, n: nat, t: nat)
    requires OnceEach(trace) && S.Started(trace) == Below(n) && t < |trace|
    ensures S.InFlight(trace[..t + 1]) ==
            if trace[t].Start? then S.InFlight(trace[..t]) + {trace[t].group}
              else S.InFlight(trace[..t]) - {trace[t].group}
  {
    EventFacts(trace, n, t);
    TraceNext(trace, t);
    if trace[t].Start? { FinishedAreStarted(trace, t); }
  }

  lemma FinishedAreStarted(trace: seq<S.Event>, t: nat)
    requires OnceEach(trace) && t <= |trace|
    ensures S.Finished(trace[..t]) <= S.Started(trace[..t])
  {
    forall g | g in S.Finished(trace[..t]) ensures g in S.Started(trace[..t]) {
      WhenFinished(trace[..t], g);
      var s :| 0 <= s < t && trace[..t][s].Finish? && trace[..t][s].group == g;
      assert trace[s] == trace[..t][s];
      StartedPrefix(trace, s, t);
    }
  }

  /** The groups polled between two scheduler events, one after another. */
  method PollGroups(shared: Shared, pending: Pending, ghost trace: seq<S.Event>, ghost t: nat, ghost mark: seq<int>,
                    ghost logs: Logs, requests: Requests, errors: seq<(nat, Failure)>, inFlight: set<nat>,
                    polls: seq<Poll>)
    returns (requests': Requests, ghost logs': Logs)
    requires shared.Valid() && PassAt(shared.world, pending, trace, t, shared.history, mark, logs)
    requires Views(logs, requests, errors) && inFlight == S.InFlight(trace[..t])
    requires forall g :: g in inFlight ==> g < |pending|
    modifies shared, shared.pool
    ensures shared.Valid() && PassAt(shared.world, pending, trace, t, shared.history, mark, logs')
    ensures Views(logs', requests', errors) && old(shared.history) <= shared.history && KeepsDone(logs, logs')
  {
    requests', logs' := requests, logs;
    for k := 0 to |polls|
      invariant shared.Valid() && PassAt(shared.world, pending, trace, t, shared.history, mark, logs')
      invariant Views(logs', requests', errors) && old(shared.history) <= shared.history && KeepsDone(logs, logs')
    {
      requests', logs' := PollGroup(shared, pending, trace, t, mark, logs', requests', errors, inFlight, polls[k]);
    }
  }

  /** The pass before event `t`, as the worker and the history see it. */
  ghost predicate Playing(w: World, pending: Pending, trace: seq<S.Event>, t: nat, history: seq<Step>, mark: seq<int>,
                          logs: Logs, requests: Requests, errors: seq<(nat, Failure)>, inFlight: set<nat>) {
    && PassAt(w, pending, trace, t, history, mark, logs) && Views(logs, requests, errors)
    && inFlight == S.InFlight(trace[..t]) && inFlight <= Below(|pending|)
  }

  /** One scheduler event. */
  method PlayEvent(shared: Shared, pending: Pending, trace: seq<S.Event>, t: nat, ghost mark: seq<int>,
                   ghost logs: Logs, requests: Requests, errors: seq<(nat, Failure)>, inFlight: set<nat>, turn: Turn)
    returns (requests': Requests, errors': seq<(nat, Failure)>, inFlight': set<nat>, ghost mark': seq<int>,
             ghost logs': Logs)
    requires shared.Valid() && OnceEach(trace) && S.Started(trace) == Below(|pending|) && t < |trace|
    requires Playing(shared.world, pending, trace, t, shared.history, mark, logs, requests, errors, inFlight)
    modifies shared, shared.pool
    ensures shared.Valid() && old(shared.history) <= shared.history
    ensures Playing(shared.world, pending, trace, t + 1, shared.history, mark', logs', requests', errors', inFlight')
    ensures KeepsDone(logs, logs')
    ensures trace[t].Finish? ==> ReplyTaken(shared.history, logs', trace[t].group, turn.reply)
  {
    EventFacts(trace, |pending|, t);
    InFlightNext(trace, |pending|, t);
    requests', errors', logs' := requests, errors, logs;
    if trace[t].Start? {
      PassStarts(shared.world, pending, trace, t, shared.history, mark, logs);
      inFlight' := inFlight + {trace[t].group};
    } else {
      requests', errors', logs' := FinishGroup(shared, pending, trace, t, mark, logs, requests, errors, inFlight, turn);
      inFlight' := inFlight - {trace[t].group};
    }
    mark' := mark + [|shared.history|];
  }

  /** One scheduler event and the polls after it. */
  method PlayTurn(shared: Shared, pending: Pending, trace: seq<S.Event>, t: nat, turns: nat -> Turn,
                  ghost mark: seq<int>, ghost logs: Logs, requests: Requests, errors: seq<(nat, Failure)>,
                  inFlight: set<nat>)
    returns (requests': Requests, errors': seq<(nat, Failure)>, inFlight': set<nat>, ghost mark': seq<int>,
             ghost logs': Logs)
    requires shared.Valid() && OnceEach(trace) && S.Started(trace) == Below(|pending|) && t < |trace|
    requires Playing(shared.world, pending, trace, t, shared.history, mark, logs, requests, errors, inFlight)
    requires RepliesTaken(trace, t, turns, shared.history, logs)
    modifies shared, shared.pool
    ensures shared.Valid() && old(shared.history) <= shared.history
    ensures Playing(shared.world, pending, trace, t + 1, shared.history, mark', logs', requests', errors', inFlight')
    ensures RepliesTaken(trace, t + 1, turns, shared.history, logs')
  {
    requests', errors', inFlight', mark', logs' :=
      PlayEvent(shared, pending, trace, t, mark, logs, requests, errors, inFlight, turns(t));
    RepliesNext(trace, t, turns, old(shared.history), shared.history, logs, logs');
    ghost var past, before := shared.history, logs';
    requests', logs' :=
      PollGroups(shared, pending, trace, t + 1, mark', logs', requests', errors', inFlight', turns(t).polls);
    RepliesStay(trace, t + 1, turns, past, shared.history, before, logs');
  }

  /** Plays the scheduler's events against the pool. */
  method PlayPass(shared: Shared, pending: Pending, trace: seq<S.Event>, turns: nat -> Turn)
    returns (errors: seq<(nat, Failure)>, ghost mark: seq<int>, ghost logs: Logs)
    requires shared.Valid() && OnceEach(trace) && S.Started(trace) == Below(|pending|)
    modifies shared, shared.pool
    ensures shared.Valid() && old(shared.history) <= shared.history
    ensures PassAt(shared.world, pending, trace, |trace|, shared.history, mark, logs)
    ensures RepliesTaken(trace, |trace|, turns, shared.history, logs)
    ensures forall g, f :: (g, f) in errors <==> g in logs && logs[g].done.Some? && logs[g].error == Some(f)
  {
    var requests: Requests, inFlight: set<nat> := map[], {};
    errors, mark, logs := [], [|shared.history|], map[];
    assert trace[..0] == [];
    for t := 0 to |trace|
      invariant shared.Valid() && old(shared.history) <= shared.history
      invariant Playing(shared.world, pending, trace, t, shared.history, mark, logs, requests, errors, inFlight)
      invariant RepliesTaken(trace, t, turns, shared.history, logs)
    {
      requests, errors, inFlight, mark, logs :=
        PlayTurn(shared, pending, trace, t, turns, mark, logs, requests, errors, inFlight);
    }
  }

  /** Every group built its request once and completed. */
  ghost predicate AllDone(w: World, pending: Pending, history: seq<Step>, logs: Logs) {
    && logs.Keys == Below(|pending|)
    && forall g :: g in logs ==> logs[g].done.Some? && LogOk(w, history, pending[g].1, logs[g])
  }

  /** Of two heights that must be serialized, the lower one's outcome is in the pool before the higher one's
      request is built. */
  ghost predicate EffectsInOrder(p: Parsers, pending: Pending, logs: Logs)
    requires logs.Keys == Below(|pending|)
  {
    forall a: nat, b: nat :: a < b < |pending| && MustSerialize(p, pending[a].1, pending[b].1) ==>
      logs[a].done.Some? && logs[a].done.value < logs[b].built
  }

  lemma PassIsDone(w: World, pending: Pending, trace: seq<S.Event>, history: seq<Step>, mark: seq<int>, logs: Logs)
    requires PassAt(w, pending, trace, |trace|, history, mark, logs) && S.Finished(trace) == Below(|pending|)
    ensures AllDone(w, pending, history, logs)
  {
    assert trace[..|trace|] == trace;
  }

  /** Completed before the other one started means settled before the other one was built. */
  lemma EffectsFollowOrder(trace: seq<S.Event>, history: seq<Step>, mark: seq<int>, a: nat, b: nat, la: GroupLog,
                           lb: GroupLog, u: nat)
    requires Marked(history, |trace|, mark) && StartsAt(trace, u, b) && a in S.Finished(trace[..u]) && la.done.Some?
    requires InPlace(trace, |trace|, mark, a, la) && InPlace(trace, |trace|, mark, b, lb)
    ensures la.done.value < lb.built
  {
    WhenFinished(trace[..u], a);
    var v: nat :| v < u && trace[..u][v].Finish? && trace[..u][v].group == a;
    assert FinishesAt(trace, v, a);
  }

  /** The errors by height, in the order the groups completed. */
  method ByHeight(pending: Pending, errors: seq<(nat, Failure)>) returns (keyed: seq<(nat, Failure)>)
    requires forall e :: e in errors ==> e.0 < |pending|
    ensures |keyed| == |errors|
    ensures forall k :: 0 <= k < |errors| ==> errors[k] in errors && keyed[k] == (pending[errors[k].0].0, errors[k].1)
  {
    keyed := [];
    for n := 0 to |errors|
      invariant |keyed| == n
      invariant forall k :: 0 <= k < n ==> errors[k] in errors && keyed[k] == (pending[errors[k].0].0, errors[k].1)
    {
      assert errors[n] in errors;
      keyed := keyed + [(pending[errors[n].0].0, errors[n].1)];
    }
  }

  /** `error` is what the pass reports: the error of the lowest height whose request failed, if any did. */
  ghost predicate Reports(logs: Logs, error: Option<Failure>) {
    match error
    case None => forall g :: g in logs ==> logs[g].error.None?
    case Some(f) => exists g :: g in logs && logs[g].error == Some(f)
                             && forall k :: k in logs && logs[k].error.Some? ==> g <= k
  }

  lemma LowestReports(pending: Pending, logs: Logs, errors: seq<(nat, Failure)>, keyed: seq<(nat, Failure)>,
                      result: Option<Failure>)
    requires forall i, j :: 0 <= i < j < |pending| ==> pending[i].0 < pending[j].0
    requires forall g :: g in logs ==> g < |pending| && logs[g].done.Some?
    requires forall g, f :: (g, f) in errors <==> g in logs && logs[g].done.Some? && logs[g].error == Some(f)
    requires |keyed| == |errors|
    requires forall k :: 0 <= k < |errors| ==> errors[k] in errors && keyed[k] == (pending[errors[k].0].0, errors[k].1)
    requires result.None? <==> keyed == []
    requires result.Some? ==> IsLowest(keyed, result.value)
    ensures Reports(logs, result)
  {
    if result.None? {
      forall g | g in logs ensures logs[g].error.None? {
        var f := if logs[g].error.Some? then logs[g].error.value else 0;
        assert (g, f) !in errors;
      }
    } else {
      var k :| 0 <= k < |keyed| && keyed[k].1 == result.value && forall m :: 0 <= m < |keyed| ==>
        keyed[k].0 <= keyed[m].0;
      var g := errors[k].0;
      assert (g, result.value) in errors;
      forall x | x in logs && logs[x].error.Some? ensures g <= x {
        assert (x, logs[x].error.value) in errors;
        var m :| 0 <= m < |errors| && errors[m] == (x, logs[x].error.value);
        assert keyed[k].0 <= keyed[m].0;
      }
    }
  }

  /** One pass of the worker. What is collected is scheduled: each height once, never more than `limit` at a time,
      conflicting heights in order, all of them with one slot. Each height's request is built once, while it is
      in flight, from exactly its members then current, unsubmitted and in time; its reply is fenced by their
      generations; of two conflicting heights the lower one's outcome is in the pool before the higher one's
      request is built. Every completion takes in the reply that came with it: what RCS accepted is applied, an
      error is the height's own, and the lowest height with one reports. */
  method SubmitOnce(shared: Shared, p: Parsers, now: nat, limit: nat, turns: nat -> Turn)
    returns (pending: Pending, result: Option<Failure>, trace: seq<S.Event>, ghost mark: seq<int>, ghost logs: Logs)
    requires shared.Valid() && limit >= 1
    modifies shared, shared.pool
    ensures shared.Valid() && old(shared.history) + [ResolveTotals(now)] <= shared.history
    ensures Collected(Next(shared.world, old(shared.Now()), ResolveTotals(now)), pending)
    ensures RanThrough(limit, |pending|, trace) && ConflictsInOrder(p, pending, trace)
    ensures limit == 1 ==> Serial(|pending|, trace)
    ensures PassAt(shared.world, pending, trace, |trace|, shared.history, mark, logs)
    ensures AllDone(shared.world, pending, shared.history, logs) && EffectsInOrder(p, pending, logs)
    ensures RepliesTaken(trace, |trace|, turns, shared.history, logs) && Reports(logs, result)
  {
    pending := CollectPending(shared, now);
    var _, order := SubmitPending(p, pending, limit);
    trace := order;
    result, mark, logs := RunPass(shared, p, pending, trace, turns);
  }

  lemma AllEffectsInOrder(w: World, p: Parsers, pending: Pending, trace: seq<S.Event>, history: seq<Step>,
                          mark: seq<int>, logs: Logs)
    requires PassAt(w, pending, trace, |trace|, history, mark, logs) && ConflictsInOrder(p, pending, trace)
    requires AllDone(w, pending, history, logs) && S.Started(trace) == Below(|pending|)
    ensures EffectsInOrder(p, pending, logs)
  {
    forall a: nat, b: nat | a < b < |pending| && MustSerialize(p, pending[a].1, pending[b].1)
      ensures logs[a].done.Some? && logs[a].done.value < logs[b].built
    {
      var u := StartOf(trace, |pending|, b);
      assert GroupAt(w, pending, trace, |trace|, history, mark, a, logs[a]);
      assert GroupAt(w, pending, trace, |trace|, history, mark, b, logs[b]);
      EffectsFollowOrder(trace, history, mark, a, b, logs[a], logs[b], u);
    }
  }

  lemma StartOf(trace: seq<S.Event>, n: nat, b: nat) returns (u: nat)
    requires S.Started(trace) == Below(n) && b < n
    ensures StartsAt(trace, u, b)
  {
    WhenStarted(trace, b);
    u :| u < |trace| && trace[u] == S.Start(b);
  }

  /** The scheduled part: the order is the scheduler's, the outcomes are those of the replies. */
  method RunPass(shared: Shared, ghost p: Parsers, pending: Pending, trace: seq<S.Event>, turns: nat -> Turn)
    returns (result: Option<Failure>, ghost mark: seq<int>, ghost logs: Logs)
    requires shared.Valid() && OnceEach(trace) && S.Started(trace) == Below(|pending|) == S.Finished(trace)
    requires ConflictsInOrder(p, pending, trace)
    requires forall i, j :: 0 <= i < j < |pending| ==> pending[i].0 < pending[j].0
    modifies shared, shared.pool
    ensures shared.Valid() && old(shared.history) <= shared.history
    ensures PassAt(shared.world, pending, trace, |trace|, shared.history, mark, logs)
    ensures AllDone(shared.world, pending, shared.history, logs) && EffectsInOrder(p, pending, logs)
    ensures RepliesTaken(trace, |trace|, turns, shared.history, logs) && Reports(logs, result)
  {
    var errors;
    errors, mark, logs := PlayPass(shared, pending, trace, turns);
    PassIsDone(shared.world, pending, trace, shared.history, mark, logs);
    AllEffectsInOrder(shared.world, p, pending, trace, shared.history, mark, logs);
    result := ReportLowest(pending, logs, errors);
  }

  method ReportLowest(pending: Pending, ghost logs: Logs, errors: seq<(nat, Failure)>) returns (result: Option<Failure>)
    requires forall i, j :: 0 <= i < j < |pending| ==> pending[i].0 < pending[j].0
    requires forall g :: g in logs ==> g < |pending| && logs[g].done.Some?
    requires forall g, f :: (g, f) in errors <==> g in logs && logs[g].done.Some? && logs[g].error == Some(f)
    ensures Reports(logs, result)
  {
    forall e | e in errors ensures e.0 < |pending| {
      assert (e.0, e.1) in errors;
    }
    var keyed := ByHeight(pending, errors);
    result := LowestError(keyed);
    LowestReports(pending, logs, errors, keyed, result);
  }
}
