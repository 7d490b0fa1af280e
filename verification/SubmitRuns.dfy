/** What every greedy run of a dependency graph guarantees. */
module SubmitRuns {
  import opened Prelude
  import opened SubmitGraph
  import opened SubmitScheduler

  /** The waiting relation of a normal segment. */
  ghost function GraphDependencies(gs: seq<Group>): (deps: Dependencies)
    ensures |deps| == |gs|
  {
    seq(|gs|, j requires 0 <= j < |gs| => Predecessors(gs, j))
  }

  /** A group has started exactly when some earlier event started it; likewise for completion. */
  lemma {:induction false} WhenStarted(tr: seq<Event>, j: nat)
    ensures j in Started(tr) <==> exists s :: 0 <= s < |tr| && tr[s] == Start(j)
  {
    if tr != [] {
      var front := tr[..|tr| - 1];
      WhenStarted(front, j);
      if s :| 0 <= s < |front| && front[s] == Start(j) { assert tr[s] == Start(j); }
      if s :| 0 <= s < |tr| && tr[s] == Start(j) { assert s < |front| ==> front[s] == Start(j); }
    }
  }

  lemma {:induction false} WhenFinished(tr: seq<Event>, j: nat)
    ensures j in Finished(tr) <==> exists s :: 0 <= s < |tr| && tr[s].Finish? && tr[s].group == j
  {
    if tr != [] {
      var front := tr[..|tr| - 1];
      WhenFinished(front, j);
      if s :| 0 <= s < |front| && front[s].Finish? && front[s].group == j { assert tr[s] == front[s]; }
      if s :| 0 <= s < |tr| && tr[s].Finish? && tr[s].group == j { assert s < |front| ==> front[s] == tr[s]; }
    }
  }

  lemma {:induction false} StartedPrefix(tr: seq<Event>, s: nat, t: nat)
    requires s <= t <= |tr|
    ensures Started(tr[..s]) <= Started(tr[..t]) && Finished(tr[..s]) <= Finished(tr[..t])
    decreases t
  {
    if s < t {
      assert tr[..t][..t - 1] == tr[..t - 1];
      StartedPrefix(tr, s, t - 1);
    }
  }

  /** A finished group started earlier. */
  lemma FinishedWasStarted(deps: Dependencies, limit: nat, tr: seq<Event>, t: nat, j: nat) returns (s: nat)
    requires GreedyRun(deps, limit, tr) && t <= |tr| && j in Finished(tr[..t])
    ensures s < t && tr[s] == Start(j)
  {
    WhenFinished(tr[..t], j);
    var f :| 0 <= f < t && tr[f].Finish? && tr[f].group == j;
    RunAt(deps, limit, tr, f);
    WhenStarted(tr[..f], j);
    s :| 0 <= s < f && tr[s] == Start(j);
  }

  /** A group started only after everything it conflicts with from below had finished. */
  lemma {:induction false} ConflictsFinishFirst(gs: seq<Group>, limit: nat, tr: seq<Event>, i: nat, j: nat, t: nat)
    requires GreedyRun(GraphDependencies(gs), limit, tr)
    requires Conflict(gs, i, j) && t < |tr| && tr[t] == Start(j)
    ensures i in Finished(tr[..t])
  {
    var path := ConflictHasEdgePath(gs, i, j);
    EdgePathFinishesFirst(gs, limit, tr, path, t);
  }

  lemma {:induction false} EdgePathFinishesFirst(gs: seq<Group>, limit: nat, tr: seq<Event>, path: seq<nat>, t: nat)
    requires GreedyRun(GraphDependencies(gs), limit, tr) && EdgePath(gs, path)
    requires t < |tr| && tr[t] == Start(path[|path| - 1])
    ensures path[0] in Finished(tr[..t])
    decreases |path|
  {
    var n := |path| - 2;
    EdgeFinishesFirst(gs, limit, tr, path[n], path[n + 1], t);
    if n > 0 {
      var s := FinishedWasStarted(GraphDependencies(gs), limit, tr, t, path[n]);
      EdgePathFront(gs, path);
      EdgePathFinishesFirst(gs, limit, tr, path[..|path| - 1], s);
      StartedPrefix(tr, s, t);
    }
  }

  lemma EdgeFinishesFirst(gs: seq<Group>, limit: nat, tr: seq<Event>, m: nat, j: nat, t: nat)
    requires GreedyRun(GraphDependencies(gs), limit, tr) && Edge(gs, m, j)
    requires t < |tr| && tr[t] == Start(j)
    ensures m in Finished(tr[..t])
  {
    RunAt(GraphDependencies(gs), limit, tr, t);
    assert m in GraphDependencies(gs)[j];
  }

  lemma EdgePathFront(gs: seq<Group>, path: seq<nat>)
    requires EdgePath(gs, path) && |path| > 2
    ensures EdgePath(gs, path[..|path| - 1])
  {
    var front := path[..|path| - 1];
    forall k | 0 <= k < |front| - 1 ensures Edge(gs, front[k], front[k + 1]) {
      assert Edge(gs, path[k], path[k + 1]);
    }
  }

  /** Conflicting groups of a segment are never in flight together. */
  lemma ConflictsNeverOverlap(gs: seq<Group>, limit: nat, tr: seq<Event>, i: nat, j: nat, t: nat)
    requires GreedyRun(GraphDependencies(gs), limit, tr) && Conflict(gs, i, j) && t <= |tr|
    ensures !(i in InFlight(tr[..t]) && j in InFlight(tr[..t]))
  {
    if j in Started(tr[..t]) {
      WhenStarted(tr[..t], j);
      var s :| 0 <= s < t && tr[s] == Start(j);
      ConflictsFinishFirst(gs, limit, tr, i, j, s);
      StartedPrefix(tr, s, t);
    }
  }

  /** No group starts twice or finishes twice. */
  ghost predicate NoRepeat(tr: seq<Event>) {
    forall s, t :: 0 <= s < t < |tr| ==> tr[s].Start? != tr[t].Start? || tr[s].group != tr[t].group
  }

  /** No group starts or finishes twice, and each starts before it finishes. */
  ghost predicate OnceEach(tr: seq<Event>) {
    && NoRepeat(tr)
    && (forall t :: 0 <= t < |tr| && tr[t].Finish? ==> tr[t].group in Started(tr[..t]))
  }

  lemma GreedyOnceEach(deps: Dependencies, limit: nat, tr: seq<Event>)
    requires GreedyRun(deps, limit, tr)
    ensures OnceEach(tr)
  {
    forall s, t | 0 <= s < t < |tr| ensures tr[s].Start? != tr[t].Start? || tr[s].group != tr[t].group {
      RunAt(deps, limit, tr, t);
      WhenStarted(tr[..t], tr[t].group);
      WhenFinished(tr[..t], tr[t].group);
      assert tr[..t][s] == tr[s];
    }
    forall t | 0 <= t < |tr| && tr[t].Finish? ensures tr[t].group in Started(tr[..t]) {
      RunAt(deps, limit, tr, t);
    }
  }

  /** The concurrency limit holds at every moment. */
  lemma WithinLimit(deps: Dependencies, limit: nat, tr: seq<Event>, t: nat)
    requires GreedyRun(deps, limit, tr) && t <= |tr|
    ensures |InFlight(tr[..t])| <= limit
  {
    RunAt(deps, limit, tr, t);
    WithinLimitNow(deps, limit, tr[..t]);
  }

  lemma {:induction false} WithinLimitNow(deps: Dependencies, limit: nat, tr: seq<Event>)
    requires GreedyRun(deps, limit, tr)
    ensures |InFlight(tr)| <= limit
  {
    if tr == [] {
      assert InFlight(tr) == {};
    } else {
      var front, last := tr[..|tr| - 1], tr[|tr| - 1];
      WithinLimitNow(deps, limit, front);
      WithinLimitStep(deps, limit, front, last);
      assert tr == front + [last];
    }
  }

  lemma WithinLimitStep(deps: Dependencies, limit: nat, tr: seq<Event>, e: Event)
    requires GreedyStep(deps, limit, tr, e) && |InFlight(tr)| <= limit
    ensures |InFlight(tr + [e])| <= limit
  {
    TraceSnoc(tr, e);
    if e.Start? {
      SubsetSize(InFlight(tr + [e]), InFlight(tr) + {e.group});
    } else {
      SubsetSize(InFlight(tr + [e]), InFlight(tr));
    }
  }

  /** Work conservation at every await point: either all slots are taken or nothing could start. */
  lemma WorkConserving(deps: Dependencies, limit: nat, tr: seq<Event>, t: nat, j: nat)
    requires GreedyRun(deps, limit, tr) && t < |tr| && tr[t].Finish?
    requires |InFlight(tr[..t])| < limit && j < |deps| && j !in Started(tr[..t])
    ensures exists i :: i in deps[j] && i !in Finished(tr[..t])
  {
    RunAt(deps, limit, tr, t);
    assert !Startable(deps, tr[..t], j);
  }

  /** With one slot the run is the legacy serial order: group 0 starts and finishes, then group 1, ... */
  lemma SerialOrder(deps: Dependencies, tr: seq<Event>, t: nat)
    requires Backward(deps) && GreedyRun(deps, 1, tr) && t < |tr|
    ensures tr[t].group == t / 2 && (tr[t].Start? <==> t % 2 == 0)
  {
    RunAt(deps, 1, tr, t);
    SerialNow(deps, tr[..t]);
    SerialStep(deps, tr[..t], tr[t], t / 2, t % 2 == 0);
  }

  lemma {:induction false} SerialNow(deps: Dependencies, tr: seq<Event>)
    requires Backward(deps) && GreedyRun(deps, 1, tr)
    ensures SerialUpTo(tr, (|tr| + 1) / 2, |tr| / 2)
  {
    if tr != [] {
      var front, last := tr[..|tr| - 1], tr[|tr| - 1];
      SerialNow(deps, front);
      SerialStep(deps, front, last, |front| / 2, |front| % 2 == 0);
      assert tr == front + [last];
    }
  }

  /** The first `s` groups have started and the first `f` have finished. */
  ghost predicate SerialUpTo(tr: seq<Event>, s: nat, f: nat) {
    && (forall j: nat :: j in Started(tr) <==> j < s)
    && (forall j: nat :: j in Finished(tr) <==> j < f)
  }

  lemma SerialStep(deps: Dependencies, tr: seq<Event>, e: Event, k: nat, idle: bool)
    requires Backward(deps) && GreedyStep(deps, 1, tr, e)
    requires SerialUpTo(tr, if idle then k else k + 1, k)
    ensures e.group == k && (e.Start? <==> idle)
    ensures SerialUpTo(tr + [e], k + 1, if idle then k else k + 1)
  {
    SerialChoice(deps, tr, e, k, idle);
    SerialExtend(tr, e, k, idle);
  }

  lemma SerialExtend(tr: seq<Event>, e: Event, k: nat, idle: bool)
    requires SerialUpTo(tr, if idle then k else k + 1, k) && e.group == k && (e.Start? <==> idle)
    ensures SerialUpTo(tr + [e], k + 1, if idle then k else k + 1)
  {
    TraceSnoc(tr, e);
  }

  lemma SerialChoice(deps: Dependencies, tr: seq<Event>, e: Event, k: nat, idle: bool)
    requires Backward(deps) && GreedyStep(deps, 1, tr, e)
    requires SerialUpTo(tr, if idle then k else k + 1, k)
    ensures e.group == k && (e.Start? <==> idle)
  {
    if idle {
      assert InFlight(tr) == {};
      assert k <= e.group < |deps|;
      assert deps[k] <= Finished(tr);
      assert Startable(deps, tr, k);
    } else {
      assert InFlight(tr) == {k};
    }
  }

  /** A complete run has exactly one start and one completion per group. */
  lemma {:induction false} EventCount(tr: seq<Event>)
    requires OnceEach(tr)
    ensures |tr| == |Started(tr)| + |Finished(tr)|
  {
    if tr == [] {
      assert Started(tr) == {} && Finished(tr) == {};
    } else {
      var front, e := tr[..|tr| - 1], tr[|tr| - 1];
      assert tr == front + [e];
      forall t | 0 <= t < |front| ensures front[..t] == tr[..t] {}
      EventCount(front);
      TraceSnoc(front, e);
      WhenStarted(front, e.group);
      WhenFinished(front, e.group);
      forall s | 0 <= s < |front| ensures front[s] == tr[s] {}
    }
  }
}
