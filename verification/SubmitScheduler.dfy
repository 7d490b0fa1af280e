/** Runs the dependency graph of one normal segment with bounded concurrency. The environment completes
    any in-flight group next, with any outcome; the specification is over the recorded trace.
    `deps[j]` is the set of groups that group `j` waits for. */
module SubmitScheduler {
  import opened Prelude
  import opened SubmitGraph

  type Failure = nat

  type Dependencies = seq<set<nat>>

  datatype Event = Start(group: nat) | Finish(group: nat, failure: Option<Failure>)

  // ---------------------------------------------------------------------------------------------
  // What a trace says
  // ---------------------------------------------------------------------------------------------

  ghost function Started(tr: seq<Event>): set<nat> {
    if tr == [] then {}
    else
      var front, last := tr[..|tr| - 1], tr[|tr| - 1];
      if last.Start? then Started(front) + {last.group} else Started(front)
  }

  ghost function Finished(tr: seq<Event>): set<nat> {
    if tr == [] then {}
    else
      var front, last := tr[..|tr| - 1], tr[|tr| - 1];
      if last.Finish? then Finished(front) + {last.group} else Finished(front)
  }

  ghost function InFlight(tr: seq<Event>): set<nat> {
    Started(tr) - Finished(tr)
  }

  /** Dependencies point backwards, so the graph has no cycle. */
  ghost predicate Backward(deps: Dependencies) {
    forall j, i :: 0 <= j < |deps| && i in deps[j] ==> i < j
  }

  /** Group `j` has not started and everything it waits for has finished. */
  ghost predicate Startable(deps: Dependencies, tr: seq<Event>, j: nat) {
    j < |deps| && j !in Started(tr) && deps[j] <= Finished(tr)
  }

  /** One scheduler event after the history `tr`: a start takes a free slot for the lowest startable
      group; a completion is awaited only when the slots are full or nothing can be started. */
  ghost predicate GreedyStep(deps: Dependencies, limit: nat, tr: seq<Event>, e: Event) {
    match e
    case Start(j) =>
      && |InFlight(tr)| < limit
      && Startable(deps, tr, j)
      && (forall k: nat :: Startable(deps, tr, k) ==> j <= k)
    case Finish(j, _) =>
      && j in InFlight(tr)
      && |InFlight(tr)| <= limit
      && (|InFlight(tr)| < limit ==> forall k: nat :: !Startable(deps, tr, k))
  }

  ghost predicate GreedyRun(deps: Dependencies, limit: nat, tr: seq<Event>) {
    tr == [] ||
    var front, last := tr[..|tr| - 1], tr[|tr| - 1];
    GreedyRun(deps, limit, front) && GreedyStep(deps, limit, front, last)
  }

  /** Every event of a run is a greedy step after the events before it. */
  lemma {:induction false} RunAt(deps: Dependencies, limit: nat, tr: seq<Event>, t: nat)
    requires GreedyRun(deps, limit, tr) && t <= |tr|
    ensures GreedyRun(deps, limit, tr[..t])
    ensures t < |tr| ==> GreedyStep(deps, limit, tr[..t], tr[t])
  {
    if t == |tr| {
      assert tr[..t] == tr;
    } else if t < |tr| - 1 {
      var front := tr[..|tr| - 1];
      RunAt(deps, limit, front, t);
      assert front[..t] == tr[..t] && front[t] == tr[t];
    }
  }

  /** Everything started and finished. */
  ghost predicate Complete(deps: Dependencies, tr: seq<Event>) {
    && (forall j: nat :: j in Started(tr) <==> j < |deps|)
    && (forall j: nat :: j in Finished(tr) <==> j < |deps|)
  }

  /** The failures of a trace, in completion order. */
  function Failures(tr: seq<Event>): seq<(nat, Failure)> {
    if tr == [] then []
    else
      var front, last := tr[..|tr| - 1], tr[|tr| - 1];
      Failures(front) + if last.Finish? && last.failure.Some? then [(last.group, last.failure.value)] else []
  }

  lemma TraceSnoc(tr: seq<Event>, e: Event)
    ensures Started(tr + [e]) == if e.Start? then Started(tr) + {e.group} else Started(tr)
    ensures Finished(tr + [e]) == if e.Finish? then Finished(tr) + {e.group} else Finished(tr)
    ensures Failures(tr + [e]) ==
              if e.Finish? && e.failure.Some? then Failures(tr) + [(e.group, e.failure.value)] else Failures(tr)
  {
    var all := tr + [e];
    assert all[..|all| - 1] == tr;
    assert Failures(tr) + [] == Failures(tr);
  }

  lemma RunSnoc(deps: Dependencies, limit: nat, tr: seq<Event>, e: Event)
    requires GreedyRun(deps, limit, tr) && GreedyStep(deps, limit, tr, e)
    ensures GreedyRun(deps, limit, tr + [e])
  {
    var all := tr + [e];
    assert all[..|all| - 1] == tr;
  }

  // ---------------------------------------------------------------------------------------------
  // The scheduler state against its trace
  // ---------------------------------------------------------------------------------------------

  /** `active` is in flight, `done` has finished, nothing else has started. */
  ghost predicate Tracks(deps: Dependencies, tr: seq<Event>, active: set<nat>, done: set<nat>) {
    && active !! done
    && (forall j: nat :: j in active + done ==> j < |deps| && deps[j] <= done)
    && Started(tr) == active + done
    && Finished(tr) == done
  }

  /** The heap holds exactly the startable groups, keyed by height. */
  ghost predicate HeapHolds(deps: Dependencies, heights: seq<nat>, active: set<nat>, done: set<nat>,
                            ready: set<(nat, nat)>)
    requires |heights| == |deps|
  {
    forall h: nat, j: nat :: (h, j) in ready <==>
      j < |deps| && j !in active && j !in done && deps[j] <= done && h == heights[j]
  }

  /** Unstarted nodes own their group, counters count unfinished predecessors, unfinished nodes know
      all their successors. */
  ghost predicate NodesMatch(deps: Dependencies, heights: seq<nat>, nodes: seq<Node>, active: set<nat>, done: set<nat>)
    requires |heights| == |deps|
  {
    && |nodes| == |deps|
    && (forall j: nat :: j < |deps| && j !in active && j !in done ==>
        nodes[j].group.Some? && nodes[j].group.value.height == heights[j])
    && (forall j: nat :: j < |deps| ==> nodes[j].remaining == |deps[j] - done|)
    && (forall i: nat :: i < |deps| && i !in done ==> Lists(deps, i, nodes[i].successors))
  }

  ghost predicate Lists(deps: Dependencies, i: nat, successors: seq<nat>) {
    && (forall a, b :: 0 <= a < b < |successors| ==> successors[a] != successors[b])
    && (forall j: nat :: j in successors <==> j < |deps| && i in deps[j])
  }

  ghost predicate StrictlyAscending(heights: seq<nat>) {
    forall i, j :: 0 <= i < j < |heights| ==> heights[i] < heights[j]
  }

  // ---------------------------------------------------------------------------------------------
  // Heap and slots
  // ---------------------------------------------------------------------------------------------

  predicate HeapLess(a: (nat, nat), b: (nat, nat)) {
    a.0 < b.0 || (a.0 == b.0 && a.1 <= b.1)
  }

  lemma {:induction false} HeapMinExists(heap: set<(nat, nat)>)
    requires heap != {}
    ensures exists m :: m in heap && forall x :: x in heap ==> HeapLess(m, x)
  {
    var a :| a in heap;
    if heap == {a} {
      assert forall x :: x in heap ==> HeapLess(a, x);
    } else {
      var rest := heap - {a};
      HeapMinExists(rest);
      var m :| m in rest && forall x :: x in rest ==> HeapLess(m, x);
      var least := if HeapLess(a, m) then a else m;
      forall x | x in heap ensures HeapLess(least, x) {
        if x != a { assert x in rest; }
      }
    }
  }

  method PopMin(heap: set<(nat, nat)>) returns (top: (nat, nat), rest: set<(nat, nat)>)
    requires heap != {}
    ensures top in heap && rest == heap - {top}
    ensures forall x :: x in heap ==> HeapLess(top, x)
  {
    HeapMinExists(heap);
    top :| top in heap && forall x :: x in heap ==> HeapLess(top, x);
    rest := heap - {top};
  }

  /** The scheduler between two events. */
  ghost predicate Consistent(deps: Dependencies, heights: seq<nat>, limit: nat, nodes: seq<Node>, active: set<nat>,
                             done: set<nat>, ready: set<(nat, nat)>, tr: seq<Event>) {
    && |heights| == |deps|
    && StrictlyAscending(heights)
    && Tracks(deps, tr, active, done)
    && NodesMatch(deps, heights, nodes, active, done)
    && HeapHolds(deps, heights, active, done, ready)
    && |active| <= limit
    && GreedyRun(deps, limit, tr)
  }

  /** Starts groups until the slots are full or the heap is empty. */
  method FillSlots(ghost deps: Dependencies, ghost heights: seq<nat>, nodes: seq<Node>, limit: nat, active: set<nat>,
                   ghost done: set<nat>, ready: set<(nat, nat)>, trace: seq<Event>)
    returns (nodes': seq<Node>, active': set<nat>, ready': set<(nat, nat)>, trace': seq<Event>)
    requires Consistent(deps, heights, limit, nodes, active, done, ready, trace)
    ensures Consistent(deps, heights, limit, nodes', active', done, ready', trace')
    ensures |active'| == limit || ready' == {}
    ensures Failures(trace') == Failures(trace)
  {
    nodes', active', ready', trace' := nodes, active, ready, trace;
    while |active'| < limit && ready' != {}
      invariant Consistent(deps, heights, limit, nodes', active', done, ready', trace')
      invariant Failures(trace') == Failures(trace)
      decreases limit - |active'|
    {
      nodes', active', ready', trace' := StartNext(deps, heights, nodes', limit, active', done, ready', trace');
    }
  }

  /** Takes the lowest ready group and starts it. */
  method StartNext(ghost deps: Dependencies, ghost heights: seq<nat>, nodes: seq<Node>, ghost limit: nat,
                   active: set<nat>,
                   ghost done: set<nat>, ready: set<(nat, nat)>, trace: seq<Event>)
    returns (nodes': seq<Node>, active': set<nat>, ready': set<(nat, nat)>, trace': seq<Event>)
    requires Consistent(deps, heights, limit, nodes, active, done, ready, trace) && |active| < limit && ready != {}
    ensures Consistent(deps, heights, limit, nodes', active', done, ready', trace')
    ensures |active'| == |active| + 1 && Failures(trace') == Failures(trace)
  {
    var top, rest := PopMin(ready);
    StartLowest(deps, heights, limit, nodes, active, done, ready, trace, top);
    assert nodes[top.1].group.Some?;
    nodes' := nodes[top.1 := nodes[top.1].(group := None)];
    active', ready', trace' := active + {top.1}, rest, trace + [Start(top.1)];
  }

  lemma StartLowest(deps: Dependencies, heights: seq<nat>, limit: nat, nodes: seq<Node>, active: set<nat>,
                    done: set<nat>, ready: set<(nat, nat)>, tr: seq<Event>, top: (nat, nat))
    requires Consistent(deps, heights, limit, nodes, active, done, ready, tr) && |active| < limit
    requires top in ready && forall x :: x in ready ==> HeapLess(top, x)
    ensures top.1 < |nodes| && nodes[top.1].group.Some? && top.1 !in active
    ensures Consistent(deps, heights, limit, nodes[top.1 := nodes[top.1].(group := None)],
                       active + {top.1}, done, ready - {top}, tr + [Start(top.1)])
    ensures Failures(tr + [Start(top.1)]) == Failures(tr)
  {
    var j := top.1;
    assert (top.0, j) in ready;
    StartIsGreedy(deps, heights, limit, tr, active, done, ready, top);
    RunSnoc(deps, limit, tr, Start(j));
    StartTracks(deps, tr, active, done, j);
    StartShrinksHeap(deps, heights, active, done, ready, top);
    StartTakesGroup(deps, heights, nodes, active, done, j);
  }

  lemma StartTakesGroup(deps: Dependencies, heights: seq<nat>, nodes: seq<Node>, active: set<nat>, done: set<nat>,
                        j: nat)
    requires |heights| == |deps| && NodesMatch(deps, heights, nodes, active, done) && j < |deps|
    ensures NodesMatch(deps, heights, nodes[j := nodes[j].(group := None)], active + {j}, done)
  {
  }

  lemma StartIsGreedy(deps: Dependencies, heights: seq<nat>, limit: nat, tr: seq<Event>, active: set<nat>,
                      done: set<nat>, ready: set<(nat, nat)>, top: (nat, nat))
    requires |heights| == |deps| && StrictlyAscending(heights)
    requires Tracks(deps, tr, active, done) && HeapHolds(deps, heights, active, done, ready) && |active| < limit
    requires top in ready && forall x :: x in ready ==> HeapLess(top, x)
    ensures GreedyStep(deps, limit, tr, Start(top.1))
  {
    var j := top.1;
    assert (top.0, j) in ready;
    assert InFlight(tr) == active;
    forall k: nat | Startable(deps, tr, k) ensures j <= k {
      assert (heights[k], k) in ready;
      assert HeapLess(top, (heights[k], k));
    }
  }

  lemma StartTracks(deps: Dependencies, tr: seq<Event>, active: set<nat>, done: set<nat>, j: nat)
    requires Tracks(deps, tr, active, done)
    requires j < |deps| && j !in active && j !in done && deps[j] <= done
    ensures Tracks(deps, tr + [Start(j)], active + {j}, done)
    ensures Failures(tr + [Start(j)]) == Failures(tr)
  {
    TraceSnoc(tr, Start(j));
  }

  lemma StartShrinksHeap(deps: Dependencies, heights: seq<nat>, active: set<nat>, done: set<nat>,
                         ready: set<(nat, nat)>, top: (nat, nat))
    requires |heights| == |deps| && HeapHolds(deps, heights, active, done, ready) && top in ready
    ensures HeapHolds(deps, heights, active + {top.1}, done, ready - {top})
  {
    assert (top.0, top.1) in ready;
  }

  // ---------------------------------------------------------------------------------------------
  // Completion
  // ---------------------------------------------------------------------------------------------

  /** Node counters while `index` is being counted off: `pending` still hold the old count. */
  ghost predicate PartlyReleased(deps: Dependencies, nodes: seq<Node>, nodes': seq<Node>, index: nat, done: set<nat>,
                                 pending: set<nat>) {
    && |nodes| == |nodes'| == |deps|
    && forall j: nat :: j < |deps| ==>
         && nodes'[j].group == nodes[j].group
         && (j != index ==> nodes'[j].successors == nodes[j].successors)
         && nodes'[j].remaining == if j in pending then |deps[j] - done| else |deps[j] - (done + {index})|
  }

  ghost function Elements(s: seq<nat>): set<nat> {
    set x | x in s
  }

  lemma NextSuccessor(deps: Dependencies, index: nat, successors: seq<nat>, n: nat)
    requires Lists(deps, index, successors) && n < |successors|
    ensures successors[n] in Elements(successors[n..])
    ensures Elements(successors[n + 1..]) == Elements(successors[n..]) - {successors[n]}
    ensures Elements(successors[..n + 1]) == Elements(successors[..n]) + {successors[n]}
    ensures successors[n] < |deps| && index in deps[successors[n]]
  {
    assert successors[n] in successors;
    assert successors[..n + 1] == successors[..n] + [successors[n]];
    assert successors[n..] == [successors[n]] + successors[n + 1..];
    var later := successors[n + 1..];
    forall k | 0 <= k < |later| ensures later[k] != successors[n] {
      assert later[k] == successors[n + 1 + k];
    }
  }

  lemma ReleaseCounter(deps: Dependencies, nodes: seq<Node>, current: seq<Node>, index: nat, done: set<nat>,
                       pending: set<nat>, s: nat)
    requires PartlyReleased(deps, nodes, current, index, done, pending) && s in pending && s < |deps|
    requires |deps[s] - (done + {index})| == |deps[s] - done| - 1
    ensures PartlyReleased(deps, nodes, current[s := current[s].(remaining := current[s].remaining - 1)], index, done,
                           pending - {s})
  {
    var nodes' := current[s := current[s].(remaining := current[s].remaining - 1)];
    forall j: nat | j < |deps|
      ensures nodes'[j].remaining == if j in pending - {s} then |deps[j] - done| else |deps[j] - (done + {index})|
    {
      assert j != s ==> nodes'[j] == current[j];
    }
  }

  lemma QueueReleased(deps: Dependencies, heights: seq<nat>, now: set<nat>, ready: set<(nat, nat)>,
                      queued: set<(nat, nat)>,
                      released: set<nat>, s: nat)
    requires |heights| == |deps| && s < |deps| && PartlyQueued(deps, heights, now, ready, queued, released)
    ensures deps[s] <= now ==> PartlyQueued(deps, heights, now, ready, queued + {(heights[s], s)}, released + {s})
    ensures !(deps[s] <= now) ==> PartlyQueued(deps, heights, now, ready, queued, released + {s})
  {
  }

  ghost predicate PartlyQueued(deps: Dependencies, heights: seq<nat>, now: set<nat>, ready: set<(nat, nat)>,
                               ready': set<(nat, nat)>, released: set<nat>)
    requires |heights| == |deps|
  {
    forall h: nat, j: nat :: (h, j) in ready' <==>
      (h, j) in ready || (j in released && j < |deps| && deps[j] <= now && h == heights[j])
  }

  /** Counts one finished predecessor off every successor and queues the ones that become startable. */
  method ReleaseSuccessors(ghost deps: Dependencies, ghost heights: seq<nat>, nodes: seq<Node>, index: nat,
                           ghost active: set<nat>, ghost done: set<nat>, ready: set<(nat, nat)>)
    returns (nodes': seq<Node>, ready': set<(nat, nat)>)
    requires |heights| == |deps| && index < |deps| && index in active && active !! done
    requires forall j: nat :: j in active + done ==> j < |deps| && deps[j] <= done
    requires NodesMatch(deps, heights, nodes, active, done) && HeapHolds(deps, heights, active, done, ready)
    ensures NodesMatch(deps, heights, nodes', active - {index}, done + {index})
    ensures HeapHolds(deps, heights, active - {index}, done + {index}, ready')
  {
    var successors := nodes[index].successors;
    ReleaseNone(deps, heights, nodes, active, done, index);
    nodes', ready' := ReleaseAll(deps, heights, nodes, nodes[index := nodes[index].(successors := [])], index, active,
                                 done, ready, successors);
    ReleasedHeap(deps, heights, active, done, index, successors, ready, ready');
    ReleasedNodes(deps, heights, nodes, nodes', active, done, index);
  }

  /** The loop over successors. */
  method ReleaseAll(ghost deps: Dependencies, ghost heights: seq<nat>, ghost nodes: seq<Node>, first: seq<Node>,
                    ghost index: nat,
                    ghost active: set<nat>, ghost done: set<nat>, ready: set<(nat, nat)>, successors: seq<nat>)
    returns (nodes': seq<Node>, ready': set<(nat, nat)>)
    requires |heights| == |deps| && index in active && active !! done
    requires forall j: nat :: j in active + done ==> j < |deps| && deps[j] <= done
    requires NodesMatch(deps, heights, nodes, active, done) && Lists(deps, index, successors)
    requires PartlyReleased(deps, nodes, first, index, done, Elements(successors))
    ensures PartlyReleased(deps, nodes, nodes', index, done, {})
    ensures PartlyQueued(deps, heights, done + {index}, ready, ready', Elements(successors))
  {
    nodes', ready' := first, ready;
    assert successors[0..] == successors && successors[..0] == [];
    for n := 0 to |successors|
      invariant PartlyReleased(deps, nodes, nodes', index, done, Elements(successors[n..]))
      invariant PartlyQueued(deps, heights, done + {index}, ready, ready', Elements(successors[..n]))
    {
      NextSuccessor(deps, index, successors, n);
      nodes', ready' := ReleaseOne(deps, heights, nodes, nodes', index, active, done, ready, ready',
                                   Elements(successors[n..]), Elements(successors[..n]), successors[n]);
    }
    assert successors[..|successors|] == successors && Elements(successors[|successors|..]) == {};
  }

  lemma ReleaseNone(deps: Dependencies, heights: seq<nat>, nodes: seq<Node>, active: set<nat>, done: set<nat>,
                    index: nat)
    requires |heights| == |deps| && NodesMatch(deps, heights, nodes, active, done) && index < |deps| && index !in done
    ensures PartlyReleased(deps, nodes, nodes[index := nodes[index].(successors := [])], index, done,
                           Elements(nodes[index].successors))
  {
    forall j: nat | j < |deps| && j !in nodes[index].successors ensures deps[j] - (done + {index}) == deps[j] - done {}
  }

  /** The body of the loop over successors. */
  method ReleaseOne(ghost deps: Dependencies, ghost heights: seq<nat>, ghost nodes: seq<Node>, current: seq<Node>,
                    ghost index: nat,
                    ghost active: set<nat>, ghost done: set<nat>, ghost ready: set<(nat, nat)>, queued: set<(nat, nat)>,
                    ghost pending: set<nat>, ghost released: set<nat>, s: nat)
    returns (nodes': seq<Node>, ready': set<(nat, nat)>)
    requires |heights| == |deps| && index in active && active !! done && s < |deps| && index in deps[s]
    requires forall j: nat :: j in active + done ==> j < |deps| && deps[j] <= done
    requires s in pending && NodesMatch(deps, heights, nodes, active, done)
    requires PartlyReleased(deps, nodes, current, index, done, pending)
    requires PartlyQueued(deps, heights, done + {index}, ready, queued, released)
    ensures PartlyReleased(deps, nodes, nodes', index, done, pending - {s})
    ensures PartlyQueued(deps, heights, done + {index}, ready, ready', released + {s})
  {
    SuccessorWaits(deps, active, done, index, s);
    SuccessorNode(deps, heights, nodes, current, index, active, done, pending, s);
    nodes' := LowerCounter(deps, nodes, current, index, done, pending, s);
    ready' := QueueIfReady(deps, heights, done + {index}, ready, queued, released, nodes'[s], s);
  }

  lemma SuccessorNode(deps: Dependencies, heights: seq<nat>, nodes: seq<Node>, current: seq<Node>, index: nat,
                      active: set<nat>, done: set<nat>, pending: set<nat>, s: nat)
    requires |heights| == |deps| && NodesMatch(deps, heights, nodes, active, done)
    requires PartlyReleased(deps, nodes, current, index, done, pending) && s < |deps| && s !in active && s !in done
    ensures current[s].group.Some? && current[s].group.value.height == heights[s]
  {
  }

  method LowerCounter(ghost deps: Dependencies, ghost nodes: seq<Node>, current: seq<Node>, ghost index: nat,
                      ghost done: set<nat>,
                      ghost pending: set<nat>, s: nat)
    returns (nodes': seq<Node>)
    requires PartlyReleased(deps, nodes, current, index, done, pending) && s in pending && s < |deps|
    requires |deps[s] - (done + {index})| == |deps[s] - done| - 1
    ensures PartlyReleased(deps, nodes, nodes', index, done, pending - {s})
    ensures |nodes'| == |current| && s < |nodes'| && nodes'[s].group == current[s].group
    ensures nodes'[s].remaining == |deps[s] - (done + {index})|
  {
    ReleaseCounter(deps, nodes, current, index, done, pending, s);
    nodes' := current[s := current[s].(remaining := current[s].remaining - 1)];
  }

  method QueueIfReady(ghost deps: Dependencies, ghost heights: seq<nat>, ghost now: set<nat>,
                      ghost ready: set<(nat, nat)>,
                      queued: set<(nat, nat)>, ghost released: set<nat>, node: Node, s: nat)
    returns (ready': set<(nat, nat)>)
    requires |heights| == |deps| && s < |deps| && PartlyQueued(deps, heights, now, ready, queued, released)
    requires node.group.Some? && node.group.value.height == heights[s] && (node.remaining == 0 <==> deps[s] <= now)
    ensures PartlyQueued(deps, heights, now, ready, ready', released + {s})
  {
    QueueReleased(deps, heights, now, ready, queued, released, s);
    ready' := queued;
    if node.remaining == 0 {
      ready' := queued + {(node.group.value.height, s)};
    }
  }

  lemma ReleasedNodes(deps: Dependencies, heights: seq<nat>, nodes: seq<Node>, nodes': seq<Node>,
                      active: set<nat>, done: set<nat>, index: nat)
    requires |heights| == |deps| && index in active && NodesMatch(deps, heights, nodes, active, done)
    requires PartlyReleased(deps, nodes, nodes', index, done, {})
    ensures NodesMatch(deps, heights, nodes', active - {index}, done + {index})
  {
  }

  /** A successor of a finishing group has not started: the count it holds is positive, so the
      decrement cannot underflow, and its group is still in place. */
  lemma SuccessorWaits(deps: Dependencies, active: set<nat>, done: set<nat>, index: nat, s: nat)
    requires index in active && active !! done && s < |deps| && index in deps[s]
    requires forall j: nat :: j in active + done ==> j < |deps| && deps[j] <= done
    ensures s !in active && s !in done
    ensures |deps[s] - done| > 0
    ensures |deps[s] - (done + {index})| == |deps[s] - done| - 1
    ensures |deps[s] - (done + {index})| == 0 <==> deps[s] <= done + {index}
  {
    var open := deps[s] - done;
    assert index in open;
    assert deps[s] - (done + {index}) == open - {index};
    assert s !in active + done;
    if |open - {index}| == 0 { assert open - {index} == {}; }
  }

  lemma ReleasedHeap(deps: Dependencies, heights: seq<nat>, active: set<nat>, done: set<nat>, index: nat,
                     successors: seq<nat>,
                     ready: set<(nat, nat)>, ready': set<(nat, nat)>)
    requires |heights| == |deps| && index < |deps| && index in active && active !! done
    requires forall j: nat :: j in active + done ==> j < |deps| && deps[j] <= done
    requires HeapHolds(deps, heights, active, done, ready) && Lists(deps, index, successors)
    requires PartlyQueued(deps, heights, done + {index}, ready, ready', Elements(successors))
    ensures HeapHolds(deps, heights, active - {index}, done + {index}, ready')
  {
    forall h: nat, j: nat
      ensures (h, j) in ready' <==>
        j < |deps| && j !in active - {index} && j !in done + {index} && deps[j] <= done + {index} && h == heights[j]
    {
      if j in successors { SuccessorWaits(deps, active, done, index, j); }
    }
  }

  lemma FinishAny(deps: Dependencies, limit: nat, tr: seq<Event>, heights: seq<nat>, active: set<nat>, done: set<nat>,
                  ready: set<(nat, nat)>, index: nat, failure: Option<Failure>)
    requires |heights| == |deps| && Tracks(deps, tr, active, done) && HeapHolds(deps, heights, active, done, ready)
    requires GreedyRun(deps, limit, tr) && |active| <= limit
    requires |active| == limit || ready == {}
    requires index in active
    ensures GreedyRun(deps, limit, tr + [Finish(index, failure)])
    ensures Tracks(deps, tr + [Finish(index, failure)], active - {index}, done + {index})
  {
    FinishIsGreedy(deps, limit, tr, heights, active, done, ready, index, failure);
    RunSnoc(deps, limit, tr, Finish(index, failure));
    FinishTracks(deps, tr, active, done, index, failure);
  }

  lemma FinishIsGreedy(deps: Dependencies, limit: nat, tr: seq<Event>, heights: seq<nat>, active: set<nat>,
                       done: set<nat>,
                       ready: set<(nat, nat)>, index: nat, failure: Option<Failure>)
    requires |heights| == |deps| && Tracks(deps, tr, active, done) && HeapHolds(deps, heights, active, done, ready)
    requires |active| <= limit && (|active| == limit || ready == {}) && index in active
    ensures GreedyStep(deps, limit, tr, Finish(index, failure))
  {
    assert InFlight(tr) == active;
    if |active| < limit {
      forall k: nat ensures !Startable(deps, tr, k) {
        assert k < |heights| ==> (heights[k], k) !in ready;
      }
    }
  }

  lemma FinishTracks(deps: Dependencies, tr: seq<Event>, active: set<nat>, done: set<nat>, index: nat,
                     failure: Option<Failure>)
    requires Tracks(deps, tr, active, done) && index in active
    ensures Tracks(deps, tr + [Finish(index, failure)], active - {index}, done + {index})
  {
    TraceSnoc(tr, Finish(index, failure));
    assert active - {index} + (done + {index}) == active + done;
  }

  lemma {:induction false} AllDone(deps: Dependencies, done: set<nat>, j: nat)
    requires Backward(deps) && j < |deps|
    requires forall k: nat :: k < |deps| && deps[k] <= done ==> k in done
    ensures j in done
  {
    forall i | i in deps[j] ensures i in done { AllDone(deps, done, i); }
  }

  lemma {:induction false} IndexCount(n: nat, done: set<nat>)
    requires forall j: nat :: j in done <==> j < n
    ensures |done| == n
  {
    if n > 0 { IndexCount(n - 1, done - {n - 1}); } else { assert done == {}; }
  }

  lemma {:induction false} BoundedCount(n: nat, done: set<nat>)
    requires forall j: nat :: j in done ==> j < n
    ensures |done| <= n
  {
    if n > 0 {
      BoundedCount(n - 1, done - {n - 1});
    } else {
      assert done == {};
    }
  }

  lemma EmptyHeapIsDone(deps: Dependencies, heights: seq<nat>, tr: seq<Event>, done: set<nat>)
    requires |heights| == |deps| && Backward(deps)
    requires Tracks(deps, tr, {}, done) && HeapHolds(deps, heights, {}, done, {})
    ensures |done| == |deps| && Complete(deps, tr)
  {
    forall k: nat | k < |deps| && deps[k] <= done ensures k in done {
      var none: set<(nat, nat)> := {};
      assert (heights[k], k) !in none;
    }
    forall j: nat ensures j in done <==> j < |deps| {
      if j < |deps| { AllDone(deps, done, j); } else { assert j !in {} + done; }
    }
    IndexCount(|deps|, done);
    assert {} + done == done;
  }

  method InitialHeap(ghost deps: Dependencies, ghost heights: seq<nat>, nodes: seq<Node>)
    returns (ready: set<(nat, nat)>)
    requires |heights| == |deps| && NodesMatch(deps, heights, nodes, {}, {})
    ensures HeapHolds(deps, heights, {}, {}, ready)
  {
    ready := {};
    for n := 0 to |nodes|
      invariant forall h: nat, j: nat :: (h, j) in ready <==> j < n && deps[j] <= {} && h == heights[j]
    {
      assert deps[n] - {} == deps[n];
      if nodes[n].remaining == 0 {
        ready := ready + {(nodes[n].group.value.height, n)};
      } else {
        assert deps[n] != {};
      }
    }
  }

  /** What the errors of a segment say about its trace: failed groups by height, in completion order. */
  ghost predicate ErrorsMatch(heights: seq<nat>, errors: seq<(nat, Failure)>, failures: seq<(nat, Failure)>) {
    && |errors| == |failures|
    && forall k :: 0 <= k < |errors| ==>
         failures[k].0 < |heights| && errors[k] == (heights[failures[k].0], failures[k].1)
  }

  /** The heights of a freshly built graph. */
  function NodeHeights(nodes: seq<Node>): (heights: seq<nat>)
    requires forall j :: 0 <= j < |nodes| ==> nodes[j].group.Some?
    ensures |heights| == |nodes|
    ensures forall j :: 0 <= j < |nodes| ==> heights[j] == nodes[j].group.value.height
  {
    seq(|nodes|, j requires 0 <= j < |nodes| => nodes[j].group.value.height)
  }

  /** Runs one segment. Every choice of the next completion and of its outcome is covered. */
  method RunNormalSegment(ghost deps: Dependencies, nodes: seq<Node>, limit: nat)
    returns (errors: seq<(nat, Failure)>, trace: seq<Event>)
    requires |nodes| == |deps| && Backward(deps) && limit >= 1
    requires forall j :: 0 <= j < |nodes| ==> nodes[j].group.Some?
    requires StrictlyAscending(NodeHeights(nodes)) && NodesMatch(deps, NodeHeights(nodes), nodes, {}, {})
    ensures GreedyRun(deps, limit, trace) && Complete(deps, trace)
    ensures ErrorsMatch(NodeHeights(nodes), errors, Failures(trace))
  {
    var heights := NodeHeights(nodes);
    var ready := InitialHeap(deps, heights, nodes);
    var ns, active;
    ns, active, ready, trace := FillSlots(deps, heights, nodes, limit, {}, {}, ready, []);
    errors, trace := AwaitAll(deps, heights, limit, ns, active, ready, trace);
  }

  /** Awaits completions until nothing is in flight. */
  method AwaitAll(ghost deps: Dependencies, heights: seq<nat>, limit: nat, nodes: seq<Node>, inFlight: set<nat>,
                  queued: set<(nat, nat)>, started: seq<Event>)
    returns (errors: seq<(nat, Failure)>, trace: seq<Event>)
    requires Consistent(deps, heights, limit, nodes, inFlight, {}, queued, started)
    requires Backward(deps) && limit >= 1 && Failures(started) == []
    requires |inFlight| == limit || queued == {}
    ensures GreedyRun(deps, limit, trace) && Complete(deps, trace)
    ensures ErrorsMatch(heights, errors, Failures(trace))
  {
    var ns, active, ready, completed := nodes, inFlight, queued, 0;
    ghost var done: set<nat> := {};
    errors, trace := [], started;
    while active != {}
      invariant Consistent(deps, heights, limit, ns, active, done, ready, trace)
      invariant |active| == limit || ready == {}
      invariant ErrorsMatch(heights, errors, Failures(trace))
      invariant completed == |done| && |done| <= |deps|
      decreases |deps| - |done|
    {
      var index :| index in active;
      var failure: Option<Failure> := *;
      StillOpen(deps, trace, active, done, index);
      completed := completed + 1;
      errors := RecordFailure(heights, errors, trace, index, failure);
      ns, active, ready, trace := CompleteGroup(deps, heights, limit, ns, active, done, ready, trace, index, failure);
      done := done + {index};
    }
    EmptyHeapIsDone(deps, heights, trace, done);
    assert completed == |nodes|;
  }

  lemma StillOpen(deps: Dependencies, tr: seq<Event>, active: set<nat>, done: set<nat>, index: nat)
    requires Tracks(deps, tr, active, done) && index in active
    ensures index < |deps| && |done + {index}| == |done| + 1 <= |deps|
  {
    assert index in active + done;
    forall j: nat | j in done + {index} ensures j < |deps| { assert j in active + done; }
    BoundedCount(|deps|, done + {index});
  }

  /** One completion: the trace grows, successors are released, free slots are filled again. */
  method CompleteGroup(ghost deps: Dependencies, ghost heights: seq<nat>, limit: nat, nodes: seq<Node>,
                       active: set<nat>, ghost done: set<nat>, ready: set<(nat, nat)>, trace: seq<Event>,
                       index: nat, failure: Option<Failure>)
    returns (nodes': seq<Node>, active': set<nat>, ready': set<(nat, nat)>, trace': seq<Event>)
    requires Consistent(deps, heights, limit, nodes, active, done, ready, trace)
    requires |active| == limit || ready == {}
    requires index in active
    ensures Consistent(deps, heights, limit, nodes', active', done + {index}, ready', trace')
    ensures |active'| == limit || ready' == {}
    ensures Failures(trace') == Failures(trace + [Finish(index, failure)])
  {
    assert index in active + done;
    FinishAny(deps, limit, trace, heights, active, done, ready, index, failure);
    nodes', ready' := ReleaseSuccessors(deps, heights, nodes, index, active, done, ready);
    nodes', active', ready', trace' := FillSlots(deps, heights, nodes', limit, active - {index}, done + {index}, ready',
                                                 trace + [Finish(index, failure)]);
  }

  method RecordFailure(heights: seq<nat>, errors: seq<(nat, Failure)>, ghost trace: seq<Event>, index: nat,
                       failure: Option<Failure>)
    returns (errors': seq<(nat, Failure)>)
    requires index < |heights| && ErrorsMatch(heights, errors, Failures(trace))
    ensures ErrorsMatch(heights, errors', Failures(trace + [Finish(index, failure)]))
  {
    TraceSnoc(trace, Finish(index, failure));
    errors' := if failure.Some? then errors + [(heights[index], failure.value)] else errors;
  }
}
