/** The submit worker against the pool: collecting the pending transactions by height, and submitting one group. */
module SubmitWorker {
  import opened Prelude
  import opened Matcher
  import opened Lifecycle
  import opened Pool
  import opened FilterSteps
  import opened FilterInvariants
  import opened FilterHandle
  import opened SubmitProfile
  import opened Screening
  import SubmitScheduler

  type Failure = SubmitScheduler.Failure

  function Submittable(e: Entry): SubmitEntry {
    SubmitEntry(e.txHash, e.generation, e.request.origin, e.request.nonce, e.request.actions)
  }

  /** The entries of one height among the first `n` hashes, in listing order. */
  ghost function AtHeight(entries: Entries, hashes: seq<Hash>, n: nat, height: nat): seq<SubmitEntry>
    requires n <= |hashes| && forall h :: h in hashes ==> h in entries
  {
    if n == 0 then []
    else
      AtHeight(entries, hashes, n - 1, height)
      + if entries[hashes[n - 1]].request.blockHeight == height then [Submittable(entries[hashes[n - 1]])] else []
  }

  lemma {:induction false} AtHeightMembers(entries: Entries, hashes: seq<Hash>, n: nat, height: nat, x: SubmitEntry)
    requires n <= |hashes| && forall h :: h in hashes ==> h in entries
    ensures x in AtHeight(entries, hashes, n, height) <==>
            exists i ::
                   0 <= i < n && entries[hashes[i]].request.blockHeight == height
                     && x == Submittable(entries[hashes[i]])
  {
    if n > 0 { AtHeightMembers(entries, hashes, n - 1, height, x); }
  }

  lemma {:induction false} AtHeightDistinct(entries: Entries, hashes: seq<Hash>, n: nat, height: nat)
    requires n <= |hashes| && (forall h :: h in hashes ==> h in entries) && Keyed(entries)
    requires forall i, j :: 0 <= i < j < |hashes| ==> hashes[i] != hashes[j]
    ensures DistinctHashes(AtHeight(entries, hashes, n, height))
  {
    if n > 0 {
      AtHeightDistinct(entries, hashes, n - 1, height);
      var xs := AtHeight(entries, hashes, n - 1, height);
      forall i | 0 <= i < |xs| ensures xs[i].hash != hashes[n - 1] {
        AtHeightMembers(entries, hashes, n - 1, height, xs[i]);
        assert xs[i] in xs;
      }
      DistinctSnoc(xs, Submittable(entries[hashes[n - 1]]));
    }
  }

  ghost predicate DistinctHashes(xs: seq<SubmitEntry>) {
    forall i, j :: 0 <= i < j < |xs| ==> xs[i].hash != xs[j].hash
  }

  lemma DistinctSnoc(xs: seq<SubmitEntry>, x: SubmitEntry)
    requires DistinctHashes(xs) && forall i :: 0 <= i < |xs| ==> xs[i].hash != x.hash
    ensures DistinctHashes(xs + [x])
  {
  }

  type Grouped = map<nat, seq<SubmitEntry>>

  ghost predicate GroupedUpTo(entries: Entries, hashes: seq<Hash>, n: nat, grouped: Grouped)
    requires n <= |hashes| && forall h :: h in hashes ==> h in entries
  {
    forall height: nat ::
      if height in grouped then grouped[height] != [] && grouped[height] == AtHeight(entries, hashes, n, height)
      else AtHeight(entries, hashes, n, height) == []
  }

  /** What a submit pass collects: exactly the transactions not yet submitted, each once, under its own
      height, heights ascending. */
  ghost predicate Collected(s: State, pending: seq<(nat, seq<SubmitEntry>)>) {
    && (forall i, j :: 0 <= i < j < |pending| ==> pending[i].0 < pending[j].0)
    && (forall i :: 0 <= i < |pending| ==> pending[i].1 != [])
    && (forall i, x :: 0 <= i < |pending| && x in pending[i].1 ==> IsPendingAt(s, pending[i].0, x))
    && (forall i :: 0 <= i < |pending| ==> DistinctHashes(pending[i].1))
    && (forall h :: h in s.entries && s.entries[h].status.NotSubmitted? ==> IsListed(pending, h))
  }

  ghost predicate IsListed(pending: seq<(nat, seq<SubmitEntry>)>, h: Hash) {
    exists i, x :: 0 <= i < |pending| && x in pending[i].1 && x.hash == h
  }

  ghost predicate IsPendingAt(s: State, height: nat, x: SubmitEntry) {
    && x.hash in s.entries && s.entries[x.hash].status.NotSubmitted?
    && s.entries[x.hash].request.blockHeight == height && s.entries[x.hash].generation == x.generation
    && var r := s.entries[x.hash].request;
       x.origin == r.origin && x.nonce == r.nonce && x.actions == r.actions
  }

  lemma ListedAt(s: State, hashes: seq<Hash>, height: nat, x: SubmitEntry)
    requires Keyed(s.entries) && forall h :: h in hashes <==> h in s.entries && s.entries[h].status.NotSubmitted?
    ensures x in AtHeight(s.entries, hashes, |hashes|, height) <==> IsPendingAt(s, height, x)
  {
    AtHeightMembers(s.entries, hashes, |hashes|, height, x);
    if IsPendingAt(s, height, x) {
      var i :| 0 <= i < |hashes| && hashes[i] == x.hash;
    }
    if x in AtHeight(s.entries, hashes, |hashes|, height) {
      var i :| 0 <= i < |hashes| && x == Submittable(s.entries[hashes[i]])
             && s.entries[hashes[i]].request.blockHeight == height;
      assert hashes[i] in hashes;
    }
  }

  ghost predicate ListsHashes(s: State, hashes: seq<Hash>) {
    && (forall h :: h in hashes <==> h in s.entries && s.entries[h].status.NotSubmitted?)
    && (forall i, j :: 0 <= i < j < |hashes| ==> hashes[i] != hashes[j])
  }

  ghost predicate ListsGroups(grouped: Grouped, pending: seq<(nat, seq<SubmitEntry>)>) {
    && (forall i, j :: 0 <= i < j < |pending| ==> pending[i].0 < pending[j].0)
    && (forall i :: 0 <= i < |pending| ==> pending[i].0 in grouped && pending[i].1 == grouped[pending[i].0])
    && (forall height :: height in grouped ==> exists i :: 0 <= i < |pending| && pending[i].0 == height)
  }

  lemma GroupIsCollected(s: State, hashes: seq<Hash>, grouped: Grouped, height: nat)
    requires Keyed(s.entries) && ListsHashes(s, hashes) && GroupedUpTo(s.entries, hashes, |hashes|, grouped)
    requires height in grouped
    ensures grouped[height] != [] && DistinctHashes(grouped[height])
    ensures forall x :: x in grouped[height] ==> IsPendingAt(s, height, x)
  {
    AtHeightDistinct(s.entries, hashes, |hashes|, height);
    forall x | x in grouped[height] ensures IsPendingAt(s, height, x) {
      ListedAt(s, hashes, height, x);
    }
  }

  lemma PendingIsCollected(s: State, hashes: seq<Hash>, grouped: Grouped, pending: seq<(nat, seq<SubmitEntry>)>,
                           h: Hash)
    requires Keyed(s.entries) && ListsHashes(s, hashes) && GroupedUpTo(s.entries, hashes, |hashes|, grouped)
    requires ListsGroups(grouped, pending) && h in s.entries && s.entries[h].status.NotSubmitted?
    ensures IsListed(pending, h)
  {
    var height := s.entries[h].request.blockHeight;
    ListedAt(s, hashes, height, Submittable(s.entries[h]));
    var i :| 0 <= i < |pending| && pending[i].0 == height;
  }

  lemma GroupsAreCollected(s: State, hashes: seq<Hash>, grouped: Grouped, pending: seq<(nat, seq<SubmitEntry>)>)
    requires Keyed(s.entries) && ListsHashes(s, hashes) && GroupedUpTo(s.entries, hashes, |hashes|, grouped)
    requires ListsGroups(grouped, pending)
    ensures Collected(s, pending)
  {
    forall i | 0 <= i < |pending|
      ensures pending[i].1 != [] && DistinctHashes(pending[i].1)
      ensures forall x :: x in pending[i].1 ==> IsPendingAt(s, pending[i].0, x)
    {
      GroupIsCollected(s, hashes, grouped, pending[i].0);
    }
    forall h | h in s.entries && s.entries[h].status.NotSubmitted? ensures IsListed(pending, h) {
      PendingIsCollected(s, hashes, grouped, pending, h);
    }
  }

  method InHeightOrder(grouped: Grouped) returns (pending: seq<(nat, seq<SubmitEntry>)>)
    ensures ListsGroups(grouped, pending)
  {
    var order := InOrder(grouped.Keys);
    pending := [];
    for n := 0 to |order|
      invariant |pending| == n
      invariant forall i :: 0 <= i < n ==>
                pending[i].0 == order[i] && order[i] in grouped && pending[i].1 == grouped[order[i]]
    {
      assert order[n] in order;
      pending := pending + [(order[n], grouped[order[n]])];
    }
    AllHeightsListed(grouped, order, pending);
  }

  lemma AllHeightsListed(grouped: Grouped, order: seq<nat>, pending: seq<(nat, seq<SubmitEntry>)>)
    requires AscendingList(grouped.Keys, order) && |pending| == |order|
    requires forall i :: 0 <= i < |pending| ==>
             pending[i].0 == order[i] && order[i] in grouped && pending[i].1 == grouped[order[i]]
    ensures ListsGroups(grouped, pending)
  {
    forall height | height in grouped ensures exists i :: 0 <= i < |pending| && pending[i].0 == height {
      assert height in order;
      var i :| 0 <= i < |order| && order[i] == height;
    }
  }

  /** Groups the pending transactions by height. */
  method GroupByHeight(s: State, hashes: seq<Hash>) returns (grouped: Grouped)
    requires forall h :: h in hashes ==> h in s.entries
    ensures GroupedUpTo(s.entries, hashes, |hashes|, grouped)
  {
    grouped := map[];
    for n := 0 to |hashes|
      invariant GroupedUpTo(s.entries, hashes, n, grouped)
    {
      var e := s.entries[hashes[n]];
      var height := e.request.blockHeight;
      var group := if height in grouped then grouped[height] else [];
      GroupedSnoc(s.entries, hashes, n, grouped, height, group + [Submittable(e)]);
      grouped := grouped[height := group + [Submittable(e)]];
    }
  }

  lemma GroupedSnoc(entries: Entries, hashes: seq<Hash>, n: nat, grouped: Grouped, height: nat, group: seq<SubmitEntry>)
    requires n < |hashes| && (forall h :: h in hashes ==> h in entries) && GroupedUpTo(entries, hashes, n, grouped)
    requires height == entries[hashes[n]].request.blockHeight
    requires group == (if height in grouped then grouped[height] else []) + [Submittable(entries[hashes[n]])]
    ensures GroupedUpTo(entries, hashes, n + 1, grouped[height := group])
  {
    var grouped' := grouped[height := group];
    forall other: nat
      ensures if other in grouped' then grouped'[other] != []
              && grouped'[other] == AtHeight(entries, hashes, n + 1, other)
              else AtHeight(entries, hashes, n + 1, other) == []
    {
      assert other != height ==> AtHeight(entries, hashes, n + 1, other) == AtHeight(entries, hashes, n, other);
    }
  }

  /** The first locked section of a pass: deadlines first, then every transaction still to be submitted. */
  method CollectPending(shared: Shared, now: nat) returns (pending: seq<(nat, seq<SubmitEntry>)>)
    requires shared.Valid()
    modifies shared, shared.pool
    ensures shared.Valid() && shared.Did(old(shared.Now()), old(shared.history), old(shared.sent), ResolveTotals(now))
    ensures Collected(shared.Now(), pending)
  {
    shared.ResolveTotals(now);
    var hashes := shared.pool.HashesIn(status => status == NotSubmitted);
    var s := State(shared.pool.entries, shared.pool.nextGeneration, shared.rules);
    var grouped := GroupByHeight(s, hashes);
    pending := InHeightOrder(grouped);
    GroupsAreCollected(s, hashes, grouped, pending);
  }

  // ---------------------------------------------------------------------------------------------
  // Submitting one group
  // ---------------------------------------------------------------------------------------------

  ghost predicate StillPending(s: State, x: SubmitEntry) {
    Holding(s, x.hash, x.generation, NotSubmitted)
  }

  /** The members of the group that are still the current, unsubmitted lifecycle, in order. */
  function Remaining(s: State, group: seq<SubmitEntry>, n: nat): seq<SubmitEntry>
    requires n <= |group|
  {
    if n == 0 then []
    else
      var x := group[n - 1];
      Remaining(s, group, n - 1) + if Holding(s, x.hash, x.generation, NotSubmitted) then [x] else []
  }

  lemma {:induction false} RemainingMembers(s: State, group: seq<SubmitEntry>, n: nat, x: SubmitEntry)
    requires n <= |group|
    ensures x in Remaining(s, group, n) <==> x in group[..n] && StillPending(s, x)
  {
    if n > 0 {
      RemainingMembers(s, group, n - 1, x);
      assert group[..n] == group[..n - 1] + [group[n - 1]];
    }
  }

  /** The generations the response will be fenced by; a hash map built in group order. */
  function TokensOf(xs: seq<SubmitEntry>): map<Hash, nat> {
    if xs == [] then map[] else TokensOf(xs[..|xs| - 1])[xs[|xs| - 1].hash := xs[|xs| - 1].generation]
  }

  lemma {:induction false} TokensAre(xs: seq<SubmitEntry>, h: Hash)
    ensures h in TokensOf(xs) ==> exists i :: 0 <= i < |xs| && xs[i].hash == h && TokensOf(xs)[h] == xs[i].generation
    ensures (exists i :: 0 <= i < |xs| && xs[i].hash == h) ==> h in TokensOf(xs)
  {
    if xs != [] {
      var front := xs[..|xs| - 1];
      TokensAre(front, h);
      if i :| 0 <= i < |xs| && xs[i].hash == h { assert i < |front| ==> front[i].hash == h; }
      if h in TokensOf(front) {
        var i :| 0 <= i < |front| && front[i].hash == h && TokensOf(front)[h] == front[i].generation;
        assert xs[i] == front[i];
      }
    }
  }

  /** What the network does with a request: other threads run during the await, then a reply or an error. */
  datatype Reply = Reply(gap: seq<Step>, accepted: Result<set<Hash>, Failure>, now: nat)

  function ReplyStep(requested: seq<SubmitEntry>, reply: Reply): Step {
    match reply.accepted
    case Ok(accepted) => SubmitResponse(accepted, TokensOf(requested), reply.now)
    case Err(_) => ResolveTotals(reply.now)
  }

  /** A group fails exactly if it sent a request and the request got an error. */
  function GroupError(requested: seq<SubmitEntry>, reply: Reply): Option<Failure> {
    if requested != [] && reply.accepted.Err? then Some(reply.accepted.error) else None
  }

  /** A submitted member is current, unsubmitted and within its deadline at the lock that built the request. */
  ghost predicate FitToSubmit(cfg: Config, s: State, x: SubmitEntry, now: nat) {
    StillPending(s, x) && Elapsed(now, s.entries[x.hash].firstNotSubmittedAt) <= cfg.totalRetryTimeout
  }

  lemma ResolvedIsInTime(w: World, s: State, now: nat, h: Hash)
    requires h in Next(w, s, ResolveTotals(now)).entries && Retryable(Next(w, s, ResolveTotals(now)).entries[h].status)
    ensures Elapsed(now, Next(w, s, ResolveTotals(now)).entries[h].firstNotSubmittedAt) <= w.cfg.totalRetryTimeout
  {
    NextEntry(w, s, ResolveTotals(now), h);
  }

  method FilterGroup(shared: Shared, group: seq<SubmitEntry>) returns (requested: seq<SubmitEntry>)
    ensures requested == Remaining(shared.Now(), group, |group|)
  {
    requested := [];
    for n := 0 to |group|
      invariant requested == Remaining(shared.Now(), group, n)
    {
      if shared.pool.Matches(group[n].hash, group[n].generation, NotSubmitted) { requested := requested + [group[n]]; }
    }
  }

  /** The locked sections of one group: none after the first if nothing is left to request. */
  function GroupTrace(requested: seq<SubmitEntry>, now: nat, reply: Reply): seq<Step> {
    if requested == [] then [ResolveTotals(now)] else [ResolveTotals(now)] + (reply.gap + [ReplyStep(requested, reply)])
  }

  /** The request of a group built in state `s`: exactly its members that are current, unsubmitted and in time,
      and none that is still pending is left out. */
  ghost predicate IsRequest(cfg: Config, s: State, group: seq<SubmitEntry>, now: nat, requested: seq<SubmitEntry>) {
    && (forall x :: x in requested <==> x in group && FitToSubmit(cfg, s, x, now))
    && (forall x :: x in group && StillPending(s, x) ==> x in requested)
  }

  /** The first locked section: deadlines, then what is still to be requested. */
  method BuildRequest(shared: Shared, group: seq<SubmitEntry>, now: nat) returns (requested: seq<SubmitEntry>)
    requires shared.Valid()
    modifies shared, shared.pool
    ensures shared.Valid() && shared.history == old(shared.history) + [ResolveTotals(now)]
    ensures shared.Now() == Next(shared.world, old(shared.Now()), ResolveTotals(now))
    ensures IsRequest(shared.world.cfg, shared.Now(), group, now, requested)
  {
    ghost var before := shared.Now();
    shared.ResolveTotals(now);
    requested := FilterGroup(shared, group);
    InTime(shared.world, before, group, now);
  }

  /** The await, and the locked section that takes in its outcome. */
  method AwaitReply(shared: Shared, requested: seq<SubmitEntry>, reply: Reply) returns (error: Option<Failure>)
    requires shared.Valid() && requested != []
    modifies shared, shared.pool
    ensures shared.Valid() && shared.history == old(shared.history) + (reply.gap + [ReplyStep(requested, reply)])
    ensures error == GroupError(requested, reply)
  {
    shared.Others(reply.gap);
    match reply.accepted {
      case Ok(accepted) =>
        shared.ApplySubmitResponse(accepted, TokensOf(requested), reply.now);
        error := None;
      case Err(failure) =>
        shared.ResolveTotals(reply.now);
        error := Some(failure);
    }
    Assoc(old(shared.history), reply.gap, [ReplyStep(requested, reply)]);
  }

  /** Submits one group: exactly its members that are still pending and in time go into the request; the
      reply is fenced by their generations, and an empty request is never sent. */
  method SubmitGroup(shared: Shared, group: seq<SubmitEntry>, now: nat, reply: Reply)
    returns (requested: seq<SubmitEntry>, error: Option<Failure>)
    requires shared.Valid()
    modifies shared, shared.pool
    ensures shared.Valid() && shared.history == old(shared.history) + GroupTrace(requested, now, reply)
    ensures IsRequest(shared.world.cfg, Next(shared.world, old(shared.Now()), ResolveTotals(now)), group, now,
                      requested)
    ensures error == GroupError(requested, reply)
  {
    requested := BuildRequest(shared, group, now);
    error := None;
    if requested != [] {
      error := AwaitReply(shared, requested, reply);
      Assoc(old(shared.history), [ResolveTotals(now)], reply.gap + [ReplyStep(requested, reply)]);
    }
  }

  lemma InTime(w: World, before: State, group: seq<SubmitEntry>, now: nat)
    ensures var s := Next(w, before, ResolveTotals(now));
            forall x :: x in Remaining(s, group, |group|) <==> x in group && StillPending(s, x)
    ensures var s := Next(w, before, ResolveTotals(now));
            forall x :: x in group && StillPending(s, x) ==> FitToSubmit(w.cfg, s, x, now)
  {
    var s := Next(w, before, ResolveTotals(now));
    assert group[..|group|] == group;
    forall x ensures x in Remaining(s, group, |group|) <==> x in group && StillPending(s, x) {
      RemainingMembers(s, group, |group|, x);
    }
    forall x | x in group && StillPending(s, x) ensures FitToSubmit(w.cfg, s, x, now) {
      ResolvedIsInTime(w, before, now, x.hash);
    }
  }
}
