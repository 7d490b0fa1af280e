/** A whole submit batch: groups split at exclusive barriers, segments run one after another. */
module SubmitBatch {
  import opened Prelude
  import opened SubmitProfile
  import opened SubmitGraph
  import opened SubmitScheduler
  import opened SubmitRuns

  datatype Segment = Normal(nodes: seq<Node>) | Exclusive(group: Group)

  // ---------------------------------------------------------------------------------------------
  // Splitting at barriers
  // ---------------------------------------------------------------------------------------------

  /** A segment that holds exactly `gs`: one exclusive group, or a non-empty run of normal groups with
      their dependency graph. */
  ghost predicate Holds(segment: Segment, gs: seq<Group>) {
    match segment
    case Exclusive(g) => gs == [g] && g.profile.exclusive
    case Normal(nodes) => gs != [] && IsGraph(gs, nodes) && AllNormal(gs)
  }

  /** The segments cut the batch into consecutive parts, with no two normal parts in a row. */
  ghost predicate Cuts(segments: seq<Segment>, parts: seq<seq<Group>>) {
    && |segments| == |parts|
    && (forall k :: 0 <= k < |segments| ==> Holds(segments[k], parts[k]))
    && (forall k :: 0 < k < |segments| ==> segments[k - 1].Exclusive? || segments[k].Exclusive?)
  }

  ghost function Flatten(parts: seq<seq<Group>>): seq<Group> {
    if parts == [] then [] else Flatten(parts[..|parts| - 1]) + parts[|parts| - 1]
  }

  lemma FlattenSnoc(parts: seq<seq<Group>>, part: seq<Group>)
    ensures Flatten(parts + [part]) == Flatten(parts) + part
  {
    assert (parts + [part])[..|parts|] == parts;
  }

  lemma CutsSnoc(segments: seq<Segment>, parts: seq<seq<Group>>, segment: Segment, part: seq<Group>)
    requires Cuts(segments, parts) && Holds(segment, part)
    requires segments == [] || segments[|segments| - 1].Exclusive? || segment.Exclusive?
    ensures Cuts(segments + [segment], parts + [part])
    ensures Flatten(parts + [part]) == Flatten(parts) + part
  {
    FlattenSnoc(parts, part);
  }

  ghost predicate AllNormal(gs: seq<Group>) {
    forall j :: 0 <= j < |gs| ==> !gs[j].profile.exclusive
  }

  ghost predicate EndsAtBarrier(segments: seq<Segment>) {
    segments == [] || segments[|segments| - 1].Exclusive?
  }

  /** Closes the open run of normal groups, if there is one. */
  method CloseNormal(segments: seq<Segment>, ghost parts: seq<seq<Group>>, normal: seq<Group>)
    returns (segments': seq<Segment>, ghost parts': seq<seq<Group>>)
    requires Cuts(segments, parts) && EndsAtBarrier(segments) && AllNormal(normal)
    ensures Cuts(segments', parts') && Flatten(parts') == Flatten(parts) + normal
  {
    segments', parts' := segments, parts;
    if normal != [] {
      var nodes := BuildNormalNodes(normal);
      CutsSnoc(segments, parts, Normal(nodes), normal);
      segments', parts' := segments + [Normal(nodes)], parts + [normal];
    }
  }

  /** The groups a graph still holds, in order. */
  ghost function GroupsIn(nodes: seq<Node>): seq<Group> {
    if nodes == [] then []
    else
      var last := nodes[|nodes| - 1];
      GroupsIn(nodes[..|nodes| - 1]) + if last.group.Some? then [last.group.value] else []
  }

  ghost function PartOf(segment: Segment): seq<Group> {
    match segment
    case Normal(nodes) => GroupsIn(nodes)
    case Exclusive(group) => [group]
  }

  ghost function PartsOf(segments: seq<Segment>): (parts: seq<seq<Group>>)
    ensures |parts| == |segments|
    ensures forall k :: 0 <= k < |parts| ==> parts[k] == PartOf(segments[k])
  {
    seq(|segments|, k requires 0 <= k < |segments| => PartOf(segments[k]))
  }

  lemma {:induction false} GroupsInGraph(gs: seq<Group>, nodes: seq<Node>, n: nat)
    requires n <= |nodes| == |gs| && forall j :: 0 <= j < |nodes| ==> nodes[j].group == Some(gs[j])
    ensures GroupsIn(nodes[..n]) == gs[..n]
  {
    if n > 0 {
      GroupsInGraph(gs, nodes, n - 1);
      assert nodes[..n][..n - 1] == nodes[..n - 1];
    }
  }

  lemma PartsAre(segments: seq<Segment>, parts: seq<seq<Group>>)
    requires Cuts(segments, parts)
    ensures PartsOf(segments) == parts
  {
    forall k | 0 <= k < |segments| ensures PartOf(segments[k]) == parts[k] {
      assert Holds(segments[k], parts[k]);
      if segments[k].Normal? {
        var nodes := segments[k].nodes;
        GroupsInGraph(parts[k], nodes, |nodes|);
        assert nodes[..|nodes|] == nodes && parts[k][..|nodes|] == parts[k];
      }
    }
  }

  /** Cuts the batch, in order and completely, into exclusive groups and maximal runs of normal ones. */
  method BuildSubmitSchedule(groups: seq<Group>) returns (segments: seq<Segment>)
    ensures Cuts(segments, PartsOf(segments)) && Flatten(PartsOf(segments)) == groups
  {
    segments := [];
    ghost var parts: seq<seq<Group>> := [];
    var normal: seq<Group> := [];
    var n := 0;
    while n < |groups|
      invariant 0 <= n <= |groups|
      invariant Cuts(segments, parts) && Flatten(parts) + normal == groups[..n]
      invariant AllNormal(normal) && EndsAtBarrier(segments)
    {
      var group := groups[n];
      assert groups[..n + 1] == groups[..n] + [group];
      if group.profile.exclusive {
        segments, parts := CloseNormal(segments, parts, normal);
        CutsSnoc(segments, parts, Exclusive(group), [group]);
        segments, parts := segments + [Exclusive(group)], parts + [[group]];
        normal := [];
      } else {
        normal := normal + [group];
      }
      n := n + 1;
    }
    assert groups[..n] == groups;
    segments, parts := CloseNormal(segments, parts, normal);
    PartsAre(segments, parts);
  }

  // ---------------------------------------------------------------------------------------------
  // Ordering guarantees of a batch trace
  // ---------------------------------------------------------------------------------------------

  /** Two groups that must not overlap: they share a key, or one of them is exclusive. */
  ghost predicate MustOrder(groups: seq<Group>, a: nat, b: nat) {
    a < b < |groups| && (Conflict(groups, a, b) || groups[a].profile.exclusive || groups[b].profile.exclusive)
  }

  /** Every group that must come after another starts only once that one has finished. */
  ghost predicate Ordered(groups: seq<Group>, tr: seq<Event>) {
    forall a: nat, b: nat, t :: MustOrder(groups, a, b) && 0 <= t < |tr| && tr[t] == Start(b) ==> a in Finished(tr[..t])
  }

  ghost function Below(n: nat): (r: set<nat>)
    ensures forall g: nat :: g in r <==> g < n
  {
    if n == 0 then {} else Below(n - 1) + {n - 1}
  }

  ghost predicate LimitHeld(limit: nat, tr: seq<Event>) {
    forall t :: 0 <= t <= |tr| ==> |InFlight(tr[..t])| <= limit
  }

  /** The first `n` groups have started and finished, each once; the limit was respected throughout. */
  ghost predicate RanThrough(limit: nat, n: nat, tr: seq<Event>) {
    && OnceEach(tr)
    && Started(tr) == Below(n)
    && Finished(tr) == Below(n)
    && LimitHeld(limit, tr)
  }

  /** Two groups that must be ordered are never in flight together. */
  lemma OrderedNeverOverlap(groups: seq<Group>, tr: seq<Event>, a: nat, b: nat, t: nat)
    requires Ordered(groups, tr) && MustOrder(groups, a, b) && t <= |tr|
    ensures !(a in InFlight(tr[..t]) && b in InFlight(tr[..t]))
  {
    if b in Started(tr[..t]) {
      WhenStarted(tr[..t], b);
      var s :| 0 <= s < t && tr[s] == Start(b);
      StartedPrefix(tr, s, t);
    }
  }

  function ShiftEvent(e: Event, n: nat): Event {
    match e case Start(g) => Start(n + g) case Finish(g, f) => Finish(n + g, f)
  }

  /** A segment's trace in batch numbering. */
  function Shift(tr: seq<Event>, n: nat): (r: seq<Event>)
    ensures |r| == |tr|
    ensures forall t :: 0 <= t < |tr| ==> r[t] == ShiftEvent(tr[t], n)
  {
    seq(|tr|, t requires 0 <= t < |tr| => ShiftEvent(tr[t], n))
  }

  ghost function Up(s: set<nat>, n: nat): set<nat> {
    set g | g in s :: n + g
  }

  lemma UpMember(s: set<nat>, n: nat, x: nat)
    ensures x in Up(s, n) <==> x >= n && x - n in s
  {
    if x >= n && x - n in s { assert n + (x - n) == x; }
  }

  lemma {:induction false} UpCount(s: set<nat>, n: nat)
    ensures |Up(s, n)| == |s|
  {
    if s == {} {
      assert Up(s, n) == {};
    } else {
      var g :| g in s;
      UpCount(s - {g}, n);
      forall x: nat ensures x in Up(s, n) <==> x in Up(s - {g}, n) + {n + g} {
        UpMember(s, n, x);
        UpMember(s - {g}, n, x);
      }
      assert Up(s, n) == Up(s - {g}, n) + {n + g};
      UpMember(s - {g}, n, n + g);
    }
  }

  lemma {:induction false} ConcatMembers(a: seq<Event>, b: seq<Event>, n: nat, x: nat)
    ensures x in Started(a + Shift(b, n)) <==> x in Started(a) || (x >= n && x - n in Started(b))
    ensures x in Finished(a + Shift(b, n)) <==> x in Finished(a) || (x >= n && x - n in Finished(b))
  {
    var c := a + Shift(b, n);
    if b == [] {
      assert c == a;
    } else {
      var front, e := b[..|b| - 1], b[|b| - 1];
      ConcatMembers(a, front, n, x);
      assert c == (a + Shift(front, n)) + [ShiftEvent(e, n)];
      TraceSnoc(a + Shift(front, n), ShiftEvent(e, n));
    }
  }

  /** After the first `n` groups ran through, the groups in flight are those of the second part. */
  lemma InFlightAfter(n: nat, a: seq<Event>, b: seq<Event>)
    requires Started(a) == Below(n) && Finished(a) == Below(n)
    ensures |InFlight(a + Shift(b, n))| == |InFlight(b)|
  {
    forall x: nat ensures x in InFlight(a + Shift(b, n)) <==> x in Up(InFlight(b), n) {
      ConcatMembers(a, b, n, x);
      UpMember(InFlight(b), n, x);
    }
    assert InFlight(a + Shift(b, n)) == Up(InFlight(b), n);
    UpCount(InFlight(b), n);
  }

  /** The moments of a concatenation: before the seam they are moments of the first part, after it the
      first part is complete and the rest is a moment of the second. */
  lemma Moment(a: seq<Event>, b: seq<Event>, n: nat, t: nat)
    requires t <= |a| + |b|
    ensures t <= |a| ==> (a + Shift(b, n))[..t] == a[..t]
    ensures t >= |a| ==> (a + Shift(b, n))[..t] == a + Shift(b[..t - |a|], n)
  {
    if t >= |a| { assert Shift(b, n)[..t - |a|] == Shift(b[..t - |a|], n); }
  }

  lemma ConcatOnce(n: nat, a: seq<Event>, b: seq<Event>)
    requires OnceEach(a) && OnceEach(b) && Started(a) == Below(n) && Finished(a) == Below(n)
    ensures OnceEach(a + Shift(b, n))
  {
    var c := a + Shift(b, n);
    forall s, t | 0 <= s < t < |c| ensures c[s].Start? != c[t].Start? || c[s].group != c[t].group {
      ConcatNoRepeat(n, a, b, s, t);
    }
    forall t | 0 <= t < |c| && c[t].Finish? ensures c[t].group in Started(c[..t]) {
      ConcatStartsFirst(n, a, b, t);
    }
  }

  lemma ConcatNoRepeat(n: nat, a: seq<Event>, b: seq<Event>, s: nat, t: nat)
    requires NoRepeat(a) && NoRepeat(b) && Started(a) == Below(n) && Finished(a) == Below(n)
    requires s < t < |a| + |b|
    ensures var c := a + Shift(b, n); c[s].Start? != c[t].Start? || c[s].group != c[t].group
  {
    EventOfConcat(n, a, b, s);
    EventOfConcat(n, a, b, t);
    if s < |a| <= t { ConcatDistinct(n, a, b, s, t - |a|); }
    assert t < |a| ==> a[s].Start? != a[t].Start? || a[s].group != a[t].group;
    assert s >= |a| ==> b[s - |a|].Start? != b[t - |a|].Start? || b[s - |a|].group != b[t - |a|].group;
  }

  lemma EventOfConcat(n: nat, a: seq<Event>, b: seq<Event>, t: nat)
    requires t < |a| + |b|
    ensures (a + Shift(b, n))[t] == if t < |a| then a[t] else ShiftEvent(b[t - |a|], n)
  {
  }

  lemma ConcatStartsFirst(n: nat, a: seq<Event>, b: seq<Event>, t: nat)
    requires OnceEach(a) && OnceEach(b) && t < |a| + |b| && (a + Shift(b, n))[t].Finish?
    ensures (a + Shift(b, n))[t].group in Started((a + Shift(b, n))[..t])
  {
    var c := a + Shift(b, n);
    Moment(a, b, n, t);
    if t >= |a| {
      var k := t - |a|;
      assert c[t] == ShiftEvent(b[k], n);
      ConcatMembers(a, b[..k], n, c[t].group);
    }
  }

  lemma ConcatDistinct(n: nat, a: seq<Event>, b: seq<Event>, s: nat, k: nat)
    requires Started(a) == Below(n) && Finished(a) == Below(n) && s < |a| && k < |b|
    ensures a[s].group < ShiftEvent(b[k], n).group
  {
    WhenStarted(a, a[s].group);
    WhenFinished(a, a[s].group);
    assert a[s].group in Below(n);
  }

  lemma ConcatLimit(limit: nat, n: nat, a: seq<Event>, b: seq<Event>)
    requires LimitHeld(limit, a) && LimitHeld(limit, b) && Started(a) == Below(n) && Finished(a) == Below(n)
    ensures LimitHeld(limit, a + Shift(b, n))
  {
    var c := a + Shift(b, n);
    forall t | 0 <= t <= |c| ensures |InFlight(c[..t])| <= limit {
      Moment(a, b, n, t);
      if t > |a| { InFlightAfter(n, a, b[..t - |a|]); }
    }
  }

  lemma ConcatOrdered(gs: seq<Group>, a: seq<Event>, hs: seq<Group>, b: seq<Event>)
    requires Ordered(gs, a) && Ordered(hs, b) && Started(a) == Below(|gs|) && Finished(a) == Below(|gs|)
    ensures Ordered(gs + hs, a + Shift(b, |gs|))
  {
    var c := a + Shift(b, |gs|);
    forall x: nat, y: nat, t | MustOrder(gs + hs, x, y) && 0 <= t < |c| && c[t] == Start(y)
           ensures x in Finished(c[..t]) {
      ConcatOrderedAt(gs, a, hs, b, x, y, t);
    }
  }

  lemma ConcatOrderedAt(gs: seq<Group>, a: seq<Event>, hs: seq<Group>, b: seq<Event>, x: nat, y: nat, t: nat)
    requires Ordered(gs, a) && Ordered(hs, b) && Started(a) == Below(|gs|) && Finished(a) == Below(|gs|)
    requires MustOrder(gs + hs, x, y) && t < |a| + |b| && (a + Shift(b, |gs|))[t] == Start(y)
    ensures x in Finished((a + Shift(b, |gs|))[..t])
  {
    if t < |a| { OrderedInFirst(gs, a, hs, b, x, y, t); } else { OrderedInSecond(gs, a, hs, b, x, y, t); }
  }

  lemma OrderedInFirst(gs: seq<Group>, a: seq<Event>, hs: seq<Group>, b: seq<Event>, x: nat, y: nat, t: nat)
    requires Ordered(gs, a) && Started(a) == Below(|gs|)
    requires MustOrder(gs + hs, x, y) && t < |a| && (a + Shift(b, |gs|))[t] == Start(y)
    ensures x in Finished((a + Shift(b, |gs|))[..t])
  {
    StartsBelow(a, |gs|, t, y);
    MustOrderParts(gs, hs, x, y);
    Moment(a, b, |gs|, t);
  }

  lemma OrderedInSecond(gs: seq<Group>, a: seq<Event>, hs: seq<Group>, b: seq<Event>, x: nat, y: nat, t: nat)
    requires Ordered(hs, b) && Finished(a) == Below(|gs|)
    requires MustOrder(gs + hs, x, y) && |a| <= t < |a| + |b| && (a + Shift(b, |gs|))[t] == Start(y)
    ensures x in Finished((a + Shift(b, |gs|))[..t])
  {
    EventOfConcat(|gs|, a, b, t);
    StartedLater(gs, hs, b, x, y, t - |a|);
    DoneByThen(a, b[..t - |a|], |gs|, x);
    Moment(a, b, |gs|, t);
  }

  lemma DoneByThen(a: seq<Event>, b: seq<Event>, n: nat, x: nat)
    requires Finished(a) == Below(n) && (x < n || x - n in Finished(b))
    ensures x in Finished(a + Shift(b, n))
  {
    ConcatMembers(a, b, n, x);
  }

  /** When a group of the second part starts, what must precede it is in the first part or has finished. */
  lemma StartedLater(gs: seq<Group>, hs: seq<Group>, b: seq<Event>, x: nat, y: nat, k: nat)
    requires Ordered(hs, b) && MustOrder(gs + hs, x, y)
    requires k < |b| && ShiftEvent(b[k], |gs|) == Start(y)
    ensures x < |gs| || x - |gs| in Finished(b[..k])
  {
    if x >= |gs| {
      MustOrderParts(gs, hs, x, y);
      assert b[k] == Start(y - |gs|);
    }
  }

  lemma StartsBelow(a: seq<Event>, n: nat, t: nat, y: nat)
    requires Started(a) == Below(n) && t < |a| && a[t] == Start(y)
    ensures y < n
  {
    WhenStarted(a, y);
  }

  /** Running one part after another keeps every guarantee. */
  lemma ConcatRuns(limit: nat, gs: seq<Group>, a: seq<Event>, hs: seq<Group>, b: seq<Event>)
    requires RanThrough(limit, |gs|, a) && Ordered(gs, a)
    requires RanThrough(limit, |hs|, b) && Ordered(hs, b)
    ensures RanThrough(limit, |gs + hs|, a + Shift(b, |gs|))
    ensures Ordered(gs + hs, a + Shift(b, |gs|))
  {
    ConcatRan(limit, |gs|, a, |hs|, b);
    ConcatOrdered(gs, a, hs, b);
  }

  lemma ConcatRan(limit: nat, n: nat, a: seq<Event>, m: nat, b: seq<Event>)
    requires RanThrough(limit, n, a) && RanThrough(limit, m, b)
    ensures RanThrough(limit, n + m, a + Shift(b, n))
  {
    ConcatOnce(n, a, b);
    ConcatLimit(limit, n, a, b);
    ConcatComplete(n, a, m, b);
  }

  lemma ConcatComplete(n: nat, a: seq<Event>, m: nat, b: seq<Event>)
    requires Started(a) == Below(n) && Finished(a) == Below(n) && Started(b) == Below(m) && Finished(b) == Below(m)
    ensures Started(a + Shift(b, n)) == Below(n + m) && Finished(a + Shift(b, n)) == Below(n + m)
  {
    forall x: nat
      ensures x in Started(a + Shift(b, n)) <==> x in Below(n + m)
      ensures x in Finished(a + Shift(b, n)) <==> x in Below(n + m)
    {
      ConcatMembers(a, b, n, x);
    }
  }

  lemma MustOrderParts(gs: seq<Group>, hs: seq<Group>, x: nat, y: nat)
    requires MustOrder(gs + hs, x, y)
    ensures y < |gs| ==> MustOrder(gs, x, y)
    ensures x >= |gs| ==> MustOrder(hs, x - |gs|, y - |gs|)
  {
  }

  // ---------------------------------------------------------------------------------------------
  // Running the segments
  // ---------------------------------------------------------------------------------------------

  lemma NormalRunGuarantees(gs: seq<Group>, limit: nat, tr: seq<Event>)
    requires AllNormal(gs) && GreedyRun(GraphDependencies(gs), limit, tr) && Complete(GraphDependencies(gs), tr)
    ensures RanThrough(limit, |gs|, tr) && Ordered(gs, tr)
  {
    GreedyOnceEach(GraphDependencies(gs), limit, tr);
    assert Started(tr) == Below(|gs|) && Finished(tr) == Below(|gs|);
    forall t | 0 <= t <= |tr| ensures |InFlight(tr[..t])| <= limit {
      WithinLimit(GraphDependencies(gs), limit, tr, t);
    }
    forall a: nat, b: nat, t | MustOrder(gs, a, b) && 0 <= t < |tr| && tr[t] == Start(b)
           ensures a in Finished(tr[..t]) {
      ConflictsFinishFirst(gs, limit, tr, a, b, t);
    }
  }

  lemma ExclusiveRunGuarantees(g: Group, limit: nat, failure: Option<Failure>)
    requires limit >= 1
    ensures RanThrough(limit, 1, [Start(0), Finish(0, failure)]) && Ordered([g], [Start(0), Finish(0, failure)])
  {
    var one := [Start(0)];
    var tr := one + [Finish(0, failure)];
    ExclusiveSets(failure);
    assert tr[..1] == one;
    forall t | 0 <= t <= |tr| ensures |InFlight(tr[..t])| <= limit {
      if t == 0 { assert tr[..t] == []; } else if t == 2 { assert tr[..t] == tr; }
    }
    assert tr == [Start(0), Finish(0, failure)];
  }

  lemma ExclusiveSets(failure: Option<Failure>)
    ensures InFlight([]) == {} && InFlight([Start(0)]) == {0} && InFlight([Start(0), Finish(0, failure)]) == {}
    ensures Started([Start(0)]) == {0}
    ensures Started([Start(0), Finish(0, failure)]) == Finished([Start(0), Finish(0, failure)]) == Below(1)
  {
    TraceSnoc([], Start(0));
    TraceSnoc([Start(0)], Finish(0, failure));
    assert [] + [Start(0)] == [Start(0)];
    assert [Start(0)] + [Finish(0, failure)] == [Start(0), Finish(0, failure)];
    assert Started([]) == {} && Finished([]) == {};
    assert Below(1) == {0};
  }

  lemma GraphIsRunnable(gs: seq<Group>, nodes: seq<Node>)
    requires Ascending(gs) && IsGraph(gs, nodes)
    ensures Backward(GraphDependencies(gs))
    ensures forall j :: 0 <= j < |nodes| ==> nodes[j].group.Some?
    ensures StrictlyAscending(NodeHeights(nodes))
    ensures NodesMatch(GraphDependencies(gs), NodeHeights(nodes), nodes, {}, {})
  {
    var deps := GraphDependencies(gs);
    forall j: nat | j < |deps| ensures nodes[j].remaining == |deps[j] - {}| {
      assert deps[j] - {} == Predecessors(gs, j);
    }
    forall i: nat | i < |deps| ensures Lists(deps, i, nodes[i].successors) {
      SuccessorsList(gs, i, nodes[i].successors);
    }
  }

  lemma SuccessorsList(gs: seq<Group>, i: nat, successors: seq<nat>)
    requires ListsSuccessors(gs, |gs|, i, successors)
    ensures Lists(GraphDependencies(gs), i, successors)
  {
    forall j: nat | j < |gs| ensures i in GraphDependencies(gs)[j] <==> Edge(gs, i, j) {
      assert GraphDependencies(gs)[j] == Predecessors(gs, j);
    }
  }

  ghost function GroupHeights(gs: seq<Group>): (heights: seq<nat>)
    ensures |heights| == |gs|
    ensures forall j :: 0 <= j < |gs| ==> heights[j] == gs[j].height
  {
    seq(|gs|, j requires 0 <= j < |gs| => gs[j].height)
  }

  ghost function ShiftFailures(fs: seq<(nat, Failure)>, n: nat): (r: seq<(nat, Failure)>)
    ensures |r| == |fs|
    ensures forall k :: 0 <= k < |fs| ==> r[k] == (n + fs[k].0, fs[k].1)
  {
    seq(|fs|, k requires 0 <= k < |fs| => (n + fs[k].0, fs[k].1))
  }

  lemma {:induction false} ConcatFailures(a: seq<Event>, b: seq<Event>, n: nat)
    ensures Failures(a + Shift(b, n)) == Failures(a) + ShiftFailures(Failures(b), n)
  {
    var c := a + Shift(b, n);
    if b == [] {
      assert c == a;
    } else {
      var front, e := b[..|b| - 1], b[|b| - 1];
      ConcatFailures(a, front, n);
      assert b == front + [e];
      assert c == (a + Shift(front, n)) + [ShiftEvent(e, n)];
      SnocFailures(Failures(a), front, a + Shift(front, n), e, n);
    }
  }

  lemma SnocFailures(fa: seq<(nat, Failure)>, b: seq<Event>, c: seq<Event>, e: Event, n: nat)
    requires Failures(c) == fa + ShiftFailures(Failures(b), n)
    ensures Failures(c + [ShiftEvent(e, n)]) == fa + ShiftFailures(Failures(b + [e]), n)
  {
    var f, before := ShiftEvent(e, n), Failures(b);
    FailuresSnoc(b, e);
    FailuresSnoc(c, f);
    assert Fails(f) <==> Fails(e);
    if Fails(e) { AppendShifted(fa, before, e.group, e.failure.value, n); }
  }

  lemma AppendShifted(fa: seq<(nat, Failure)>, fs: seq<(nat, Failure)>, g: nat, f: Failure, n: nat)
    ensures fa + ShiftFailures(fs, n) + [(n + g, f)] == fa + ShiftFailures(fs + [(g, f)], n)
  {
    ShiftFailuresSnoc(fs, g, f, n);
    Assoc(fa, ShiftFailures(fs, n), [(n + g, f)]);
  }

  ghost predicate Fails(e: Event) {
    e.Finish? && e.failure.Some?
  }

  lemma FailuresSnoc(tr: seq<Event>, e: Event)
    ensures Failures(tr + [e]) == if Fails(e) then Failures(tr) + [(e.group, e.failure.value)] else Failures(tr)
  {
    TraceSnoc(tr, e);
  }

  lemma ShiftFailuresSnoc(fs: seq<(nat, Failure)>, g: nat, f: Failure, n: nat)
    ensures ShiftFailures(fs + [(g, f)], n) == ShiftFailures(fs, n) + [(n + g, f)]
  {
  }

  lemma ConcatErrors(gs: seq<Group>, a: seq<Event>, ea: seq<(nat, Failure)>, hs: seq<Group>, b: seq<Event>,
                     eb: seq<(nat, Failure)>)
    requires ErrorsMatch(GroupHeights(gs), ea, Failures(a)) && ErrorsMatch(GroupHeights(hs), eb, Failures(b))
    ensures ErrorsMatch(GroupHeights(gs + hs), ea + eb, Failures(a + Shift(b, |gs|)))
  {
    ConcatFailures(a, b, |gs|);
  }

  /** What a batch run over `gs` owes: every group once, order, limit, and a faithful error list. */
  ghost predicate BatchGuarantees(limit: nat, gs: seq<Group>, errors: seq<(nat, Failure)>, tr: seq<Event>) {
    && RanThrough(limit, |gs|, tr)
    && Ordered(gs, tr)
    && ErrorsMatch(GroupHeights(gs), errors, Failures(tr))
    && (limit == 1 ==> Serial(|gs|, tr))
  }

  /** The legacy serial order: group 0 starts and finishes, then group 1, and so on to group `n - 1`. */
  ghost predicate Serial(n: nat, tr: seq<Event>) {
    |tr| == 2 * n && forall t :: 0 <= t < |tr| ==> tr[t].group == t / 2 && (tr[t].Start? <==> t % 2 == 0)
  }

  lemma NormalRunSerial(gs: seq<Group>, tr: seq<Event>)
    requires Backward(GraphDependencies(gs)) && GreedyRun(GraphDependencies(gs), 1, tr)
    requires OnceEach(tr) && Started(tr) == Below(|gs|) && Finished(tr) == Below(|gs|)
    ensures Serial(|gs|, tr)
  {
    EventCount(tr);
    IndexCount(|gs|, Below(|gs|));
    forall t | 0 <= t < |tr| ensures tr[t].group == t / 2 && (tr[t].Start? <==> t % 2 == 0) {
      SerialOrder(GraphDependencies(gs), tr, t);
    }
  }

  lemma ConcatSerial(n: nat, a: seq<Event>, m: nat, b: seq<Event>)
    requires Serial(n, a) && Serial(m, b)
    ensures Serial(n + m, a + Shift(b, n))
  {
    var c := a + Shift(b, n);
    forall t | 0 <= t < |c| ensures c[t].group == t / 2 && (c[t].Start? <==> t % 2 == 0) {
      if t >= |a| {
        assert c[t] == ShiftEvent(b[t - 2 * n], n);
        assert (t - 2 * n) / 2 == t / 2 - n && (t - 2 * n) % 2 == t % 2;
      }
    }
  }

  /** Runs one segment to completion, in the segment's own numbering. */
  method RunSegment(segment: Segment, ghost gs: seq<Group>, limit: nat)
    returns (errors: seq<(nat, Failure)>, trace: seq<Event>, size: nat)
    requires Holds(segment, gs) && Ascending(gs) && limit >= 1
    ensures BatchGuarantees(limit, gs, errors, trace) && size == |gs|
  {
    match segment
    case Normal(nodes) =>
      errors, trace := RunNormal(nodes, gs, limit);
      size := |nodes|;
    case Exclusive(group) =>
      errors, trace := RunExclusive(group, limit);
      size := 1;
  }

  method RunNormal(nodes: seq<Node>, ghost gs: seq<Group>, limit: nat)
    returns (errors: seq<(nat, Failure)>, trace: seq<Event>)
    requires gs != [] && IsGraph(gs, nodes) && AllNormal(gs) && Ascending(gs) && limit >= 1
    ensures BatchGuarantees(limit, gs, errors, trace)
  {
    GraphIsRunnable(gs, nodes);
    assert NodeHeights(nodes) == GroupHeights(gs);
    errors, trace := RunNormalSegment(GraphDependencies(gs), nodes, limit);
    NormalSegmentGuarantees(gs, limit, errors, trace);
  }

  /** An exclusive group is awaited by itself, with either outcome. */
  method RunExclusive(group: Group, limit: nat) returns (errors: seq<(nat, Failure)>, trace: seq<Event>)
    requires limit >= 1
    ensures BatchGuarantees(limit, [group], errors, trace)
  {
    var failure: Option<Failure> := *;
    trace := [Start(0), Finish(0, failure)];
    errors := if failure.Some? then [(group.height, failure.value)] else [];
    ExclusiveGuarantees(group, limit, failure);
  }

  lemma ExclusiveGuarantees(group: Group, limit: nat, failure: Option<Failure>)
    requires limit >= 1
    ensures BatchGuarantees(limit, [group], if failure.Some? then [(group.height, failure.value)] else [],
                            [Start(0), Finish(0, failure)])
  {
    ExclusiveRunGuarantees(group, limit, failure);
    ExclusiveFailures(failure);
  }

  lemma NormalSegmentGuarantees(gs: seq<Group>, limit: nat, errors: seq<(nat, Failure)>, tr: seq<Event>)
    requires AllNormal(gs) && Ascending(gs) && limit >= 1
    requires GreedyRun(GraphDependencies(gs), limit, tr) && Complete(GraphDependencies(gs), tr)
    requires ErrorsMatch(GroupHeights(gs), errors, Failures(tr))
    ensures BatchGuarantees(limit, gs, errors, tr)
  {
    NormalRunGuarantees(gs, limit, tr);
    if limit == 1 { NormalRunSerial(gs, tr); }
  }

  lemma ExclusiveFailures(failure: Option<Failure>)
    ensures Failures([Start(0), Finish(0, failure)]) == if failure.Some? then [(0, failure.value)] else []
  {
    TraceSnoc([], Start(0));
    TraceSnoc([Start(0)], Finish(0, failure));
    assert [] + [Start(0)] == [Start(0)];
    assert [Start(0)] + [Finish(0, failure)] == [Start(0), Finish(0, failure)];
  }

  lemma {:induction false} FlattenAscending(parts: seq<seq<Group>>, k: nat)
    requires Ascending(Flatten(parts)) && k <= |parts|
    ensures Ascending(Flatten(parts[..k])) && (k < |parts| ==> Ascending(parts[k]))
    decreases |parts| - k
  {
    if k == |parts| {
      assert parts[..k] == parts;
    } else {
      FlattenAscending(parts, k + 1);
      assert parts[..k + 1] == parts[..k] + [parts[k]];
      FlattenSnoc(parts[..k], parts[k]);
      AscendingHalves(Flatten(parts[..k]), parts[k]);
    }
  }

  lemma AscendingHalves(gs: seq<Group>, hs: seq<Group>)
    requires Ascending(gs + hs)
    ensures Ascending(gs) && Ascending(hs)
  {
    assert forall i :: 0 <= i < |gs| ==> gs[i] == (gs + hs)[i];
    assert forall i :: 0 <= i < |hs| ==> hs[i] == (gs + hs)[|gs| + i];
  }

  lemma EmptyBatch(limit: nat)
    ensures BatchGuarantees(limit, [], [], [])
  {
    assert InFlight([]) == {};
  }

  /** Runs the segments one after another: a barrier never overlaps anything. */
  method RunSchedule(segments: seq<Segment>, ghost parts: seq<seq<Group>>, limit: nat)
    returns (errors: seq<(nat, Failure)>, trace: seq<Event>)
    requires Cuts(segments, parts) && Ascending(Flatten(parts)) && limit >= 1
    ensures BatchGuarantees(limit, Flatten(parts), errors, trace)
  {
    errors, trace := [], [];
    var base, k := 0, 0;
    EmptyBatch(limit);
    while k < |segments|
      invariant 0 <= k <= |segments|
      invariant base == |Flatten(parts[..k])|
      invariant BatchGuarantees(limit, Flatten(parts[..k]), errors, trace)
    {
      FlattenAscending(parts, k);
      var errs, tr, size := RunSegment(segments[k], parts[k], limit);
      NextPart(limit, parts, k, errors, trace, errs, tr);
      errors, trace, base := errors + errs, trace + Shift(tr, base), base + size;
      k := k + 1;
    }
    assert parts[..k] == parts;
  }

  lemma FlattenNext(parts: seq<seq<Group>>, k: nat)
    requires k < |parts|
    ensures Flatten(parts[..k + 1]) == Flatten(parts[..k]) + parts[k]
  {
    assert parts[..k + 1] == parts[..k] + [parts[k]];
    FlattenSnoc(parts[..k], parts[k]);
  }

  lemma NextPart(limit: nat, parts: seq<seq<Group>>, k: nat, errors: seq<(nat, Failure)>, tr: seq<Event>,
                 more: seq<(nat, Failure)>, next: seq<Event>)
    requires k < |parts|
    requires BatchGuarantees(limit, Flatten(parts[..k]), errors, tr) && BatchGuarantees(limit, parts[k], more, next)
    ensures |Flatten(parts[..k + 1])| == |Flatten(parts[..k])| + |parts[k]|
    ensures BatchGuarantees(limit, Flatten(parts[..k + 1]), errors + more, tr + Shift(next, |Flatten(parts[..k])|))
  {
    FlattenNext(parts, k);
    ConcatGuarantees(limit, Flatten(parts[..k]), errors, tr, parts[k], more, next);
  }

  lemma ConcatGuarantees(limit: nat, gs: seq<Group>, errors: seq<(nat, Failure)>, tr: seq<Event>,
                         hs: seq<Group>, more: seq<(nat, Failure)>, next: seq<Event>)
    requires BatchGuarantees(limit, gs, errors, tr) && BatchGuarantees(limit, hs, more, next)
    ensures BatchGuarantees(limit, gs + hs, errors + more, tr + Shift(next, |gs|))
  {
    ConcatRuns(limit, gs, tr, hs, next);
    ConcatErrors(gs, tr, errors, hs, next, more);
    if limit == 1 { ConcatSerial(|gs|, tr, |hs|, next); }
  }

  /** `failure` belongs to the lowest key in the list. */
  ghost predicate IsLowest(fs: seq<(nat, Failure)>, failure: Failure) {
    exists k :: 0 <= k < |fs| && fs[k].1 == failure && forall m :: 0 <= m < |fs| ==> fs[k].0 <= fs[m].0
  }

  ghost predicate StartsAt(tr: seq<Event>, t: nat, g: nat) {
    t < |tr| && tr[t] == Start(g)
  }

  /** The error of the lowest failed height. */
  method LowestError(errors: seq<(nat, Failure)>) returns (result: Option<Failure>)
    ensures result.None? <==> errors == []
    ensures result.Some? ==> IsLowest(errors, result.value)
  {
    if errors == [] { return None; }
    var best := 0;
    for n := 1 to |errors|
      invariant 0 <= best < |errors|
      invariant forall m :: 0 <= m < n ==> errors[best].0 <= errors[m].0
    {
      if errors[n].0 < errors[best].0 { best := n; }
    }
    result := Some(errors[best].1);
  }

  // ---------------------------------------------------------------------------------------------
  // Main result: a batch of transactions
  // ---------------------------------------------------------------------------------------------

  /** Two heights that RCS must see in order: a shared account nonce, a shared quota reservation, or a
      transaction whose reservations are not all known. */
  ghost predicate MustSerialize(p: Parsers, xs: seq<SubmitEntry>, ys: seq<SubmitEntry>) {
    || (exists k :: NonceUsed(xs, k) && NonceUsed(ys, k))
    || (exists k :: QuotaReserved(p, xs, k) && QuotaReserved(p, ys, k))
    || MustRunAlone(p, xs)
    || MustRunAlone(p, ys)
  }

  ghost predicate Profiled(p: Parsers, g: Group) {
    && (forall k :: k in g.profile.nonceKeys <==> NonceUsed(g.entries, k))
    && (forall k :: k in g.profile.quotaKeys <==> QuotaReserved(p, g.entries, k))
    && (g.profile.exclusive <==> MustRunAlone(p, g.entries))
  }

  /** Heights that must be serialized: the lower has finished before the higher starts. */
  ghost predicate ConflictsInOrder(p: Parsers, pending: seq<(nat, seq<SubmitEntry>)>, trace: seq<Event>) {
    forall a: nat, b: nat, t: nat ::
      a < b < |pending| && MustSerialize(p, pending[a].1, pending[b].1) && StartsAt(trace, t, b) ==>
        a in Finished(trace[..t])
  }

  lemma SerializeIsOrdered(p: Parsers, gs: seq<Group>, a: nat, b: nat)
    requires a < b < |gs| && Profiled(p, gs[a]) && Profiled(p, gs[b])
    requires MustSerialize(p, gs[a].entries, gs[b].entries)
    ensures MustOrder(gs, a, b)
  {
    if k :| NonceUsed(gs[a].entries, k) && NonceUsed(gs[b].entries, k) {
      assert Touches(gs[a], Nonce(k)) && Touches(gs[b], Nonce(k));
    } else if k :| QuotaReserved(p, gs[a].entries, k) && QuotaReserved(p, gs[b].entries, k) {
      assert Touches(gs[a], Quota(k)) && Touches(gs[b], Quota(k));
    }
  }

  method ProfileGroups(p: Parsers, pending: seq<(nat, seq<SubmitEntry>)>) returns (groups: seq<Group>)
    ensures |groups| == |pending|
    ensures forall g :: 0 <= g < |groups| ==>
              groups[g].height == pending[g].0 && groups[g].entries == pending[g].1 && Profiled(p, groups[g])
  {
    groups := [];
    for n := 0 to |pending|
      invariant |groups| == n
      invariant forall g :: 0 <= g < n ==>
                  groups[g].height == pending[g].0 && groups[g].entries == pending[g].1 && Profiled(p, groups[g])
    {
      var profile := ProfileEntries(p, pending[n].1);
      groups := groups + [Group(pending[n].0, pending[n].1, profile)];
    }
  }

  /** One submit batch over the pending transactions of ascending heights. For every completion order
      and every outcome: each height is submitted once, never more than `limit` at a time; heights that
      must be serialized never overlap and complete in ascending order; the batch reports the error of
      the lowest failed height, and success exactly when none failed. One slot means serial order. */
  method SubmitPending(p: Parsers, pending: seq<(nat, seq<SubmitEntry>)>, limit: nat)
    returns (result: Option<Failure>, trace: seq<Event>)
    requires limit >= 1
    requires forall i, j :: 0 <= i < j < |pending| ==> pending[i].0 < pending[j].0
    ensures RanThrough(limit, |pending|, trace)
    ensures ConflictsInOrder(p, pending, trace)
    ensures limit == 1 ==> Serial(|pending|, trace)
    ensures result.None? <==> Failures(trace) == []
    ensures result.Some? ==> IsLowest(Failures(trace), result.value)
  {
    var groups := ProfileGroups(p, pending);
    var segments := BuildSubmitSchedule(groups);
    var errors;
    errors, trace := RunSchedule(segments, PartsOf(segments), limit);
    result := LowestError(errors);
    forall a: nat, b: nat, t: nat | a < b < |pending| && MustSerialize(p, pending[a].1, pending[b].1)
           && StartsAt(trace, t, b)
      ensures a in Finished(trace[..t])
    {
      SerializeIsOrdered(p, groups, a, b);
    }
    LowestFailure(groups, errors, Failures(trace), result);
  }

  lemma LowestFailure(gs: seq<Group>, errors: seq<(nat, Failure)>, fs: seq<(nat, Failure)>, result: Option<Failure>)
    requires Ascending(gs) && ErrorsMatch(GroupHeights(gs), errors, fs)
    requires result.Some? ==> IsLowest(errors, result.value)
    ensures result.Some? ==> IsLowest(fs, result.value)
  {
    if result.Some? {
      var k :| 0 <= k < |errors| && errors[k].1 == result.value
             && forall m :: 0 <= m < |errors| ==> errors[k].0 <= errors[m].0;
      forall m | 0 <= m < |fs| ensures fs[k].0 <= fs[m].0 {
        assert errors[k].0 <= errors[m].0;
      }
    }
  }
}
