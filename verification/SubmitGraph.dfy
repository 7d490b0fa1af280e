/** The dependency graph of one normal segment: each group waits only for the nearest earlier group
    holding each of its keys. The graph orders exactly what the full pairwise conflict graph orders. */
module SubmitGraph {
  import opened Prelude
  import opened SubmitProfile

  datatype Group = Group(height: nat, entries: seq<SubmitEntry>, profile: Profile)

  datatype Node = Node(group: Option<Group>, remaining: nat, successors: seq<nat>)

  /** Groups come from a height-ordered map. */
  ghost predicate Ascending(gs: seq<Group>) {
    forall i, j :: 0 <= i < j < |gs| ==> gs[i].height < gs[j].height
  }

  // ---------------------------------------------------------------------------------------------
  // Conflicts
  // ---------------------------------------------------------------------------------------------

  datatype Key = Nonce(nonce: NonceKey) | Quota(quota: QuotaKey)

  predicate Touches(g: Group, key: Key) {
    match key
    case Nonce(k) => k in g.profile.nonceKeys
    case Quota(k) => k in g.profile.quotaKeys
  }

  /** The earlier group `i` and the later group `j` share a nonce or quota key. */
  ghost predicate Conflict(gs: seq<Group>, i: nat, j: nat) {
    i < j < |gs| && exists key :: Touches(gs[i], key) && Touches(gs[j], key)
  }

  /** `i` is the last group before `n` that touches `key`. */
  ghost predicate LastBefore(gs: seq<Group>, n: nat, key: Key, i: nat)
    requires n <= |gs|
  {
    i < n && Touches(gs[i], key) && forall m :: i < m < n ==> !Touches(gs[m], key)
  }

  ghost predicate Edge(gs: seq<Group>, i: nat, j: nat) {
    i < j < |gs| && exists key :: Touches(gs[j], key) && LastBefore(gs, j, key, i)
  }

  ghost function Predecessors(gs: seq<Group>, j: nat): set<nat> {
    set i: nat | i < j && Edge(gs, i, j)
  }

  /** `nodes` is the graph of `gs`: in-degrees counted, successor lists ascending and complete. */
  ghost predicate IsGraph(gs: seq<Group>, nodes: seq<Node>) {
    |nodes| == |gs| && IsGraphUpTo(gs, nodes)
  }

  /** The graph of the first `|nodes|` groups. */
  ghost predicate IsGraphUpTo(gs: seq<Group>, nodes: seq<Node>) {
    && |nodes| <= |gs|
    && (forall j :: 0 <= j < |nodes| ==> nodes[j].group == Some(gs[j]))
    && (forall j :: 0 <= j < |nodes| ==> nodes[j].remaining == |Predecessors(gs, j)|)
    && (forall i :: 0 <= i < |nodes| ==> ListsSuccessors(gs, |nodes|, i, nodes[i].successors))
  }

  /** The successors of `i` below `n`, in ascending order and each once. */
  ghost predicate ListsSuccessors(gs: seq<Group>, n: nat, i: nat, successors: seq<nat>) {
    && (forall a, b :: 0 <= a < b < |successors| ==> successors[a] < successors[b])
    && (forall j: nat :: j in successors <==> j < n && Edge(gs, i, j))
  }

  // ---------------------------------------------------------------------------------------------
  // Construction
  // ---------------------------------------------------------------------------------------------

  function HoldersOf<K(==)>(keys: set<K>, last: map<K, nat>): set<nat> {
    set k | k in keys && k in last :: last[k]
  }

  function Recorded<K(==)>(last: map<K, nat>, keys: set<K>, index: nat): map<K, nat> {
    map k | k in last.Keys + keys :: if k in keys then index else last[k]
  }

  /** Looks every key up in the table of last holders. */
  method LastHolders<K(==)>(keys: set<K>, last: map<K, nat>) returns (holders: set<nat>)
    ensures holders == HoldersOf(keys, last)
  {
    holders := {};
    var rest := keys;
    while rest != {}
      invariant rest <= keys
      invariant holders == HoldersOf(keys - rest, last)
      decreases rest
    {
      var key :| key in rest;
      if key in last { holders := holders + {last[key]}; }
      rest := rest - {key};
    }
    assert keys - rest == keys;
  }

  /** Makes `index` the last holder of every key. */
  method RecordHolder<K(==)>(last: map<K, nat>, keys: set<K>, index: nat) returns (last': map<K, nat>)
    ensures last' == Recorded(last, keys, index)
  {
    last' := last;
    var rest := keys;
    while rest != {}
      invariant rest <= keys
      invariant last' == Recorded(last, keys - rest, index)
      decreases rest
    {
      var key :| key in rest;
      last' := last'[key := index];
      rest := rest - {key};
    }
    assert keys - rest == keys;
  }

  function Linked(node: Node, isPredecessor: bool, index: nat): Node {
    if isPredecessor then node.(successors := node.successors + [index]) else node
  }

  /** Appends `index` to the successor list of every predecessor. */
  method LinkPredecessors(nodes: seq<Node>, predecessors: set<nat>, index: nat) returns (linked: seq<Node>)
    requires forall i :: i in predecessors ==> i < |nodes|
    ensures |linked| == |nodes|
    ensures forall i :: 0 <= i < |nodes| ==> linked[i] == Linked(nodes[i], i in predecessors, index)
  {
    linked := nodes;
    var rest := predecessors;
    while rest != {}
      invariant rest <= predecessors
      invariant |linked| == |nodes|
      invariant forall i :: 0 <= i < |nodes| ==> linked[i] == Linked(nodes[i], i in predecessors - rest, index)
      decreases rest
    {
      var i :| i in rest;
      linked := linked[i := linked[i].(successors := linked[i].successors + [index])];
      rest := rest - {i};
    }
    assert predecessors - rest == predecessors;
  }

  /** A key table is exact for the groups before `n`. */
  ghost predicate NonceTable(gs: seq<Group>, n: nat, last: map<NonceKey, nat>)
    requires n <= |gs|
  {
    && (forall k :: k in last ==> LastBefore(gs, n, Nonce(k), last[k]))
    && (forall m, k :: 0 <= m < n && k in gs[m].profile.nonceKeys ==> k in last)
  }

  ghost predicate QuotaTable(gs: seq<Group>, n: nat, last: map<QuotaKey, nat>)
    requires n <= |gs|
  {
    && (forall k :: k in last ==> LastBefore(gs, n, Quota(k), last[k]))
    && (forall m, k :: 0 <= m < n && k in gs[m].profile.quotaKeys ==> k in last)
  }

  lemma HoldersArePredecessors(gs: seq<Group>, n: nat, lastNonce: map<NonceKey, nat>, lastQuota: map<QuotaKey, nat>)
    requires n < |gs| && NonceTable(gs, n, lastNonce) && QuotaTable(gs, n, lastQuota)
    ensures HoldersOf(gs[n].profile.nonceKeys, lastNonce) + HoldersOf(gs[n].profile.quotaKeys, lastQuota)
         == Predecessors(gs, n)
  {
    var byNonce, byQuota := HoldersOf(gs[n].profile.nonceKeys, lastNonce),
      HoldersOf(gs[n].profile.quotaKeys, lastQuota);
    forall i | i in byNonce ensures i in Predecessors(gs, n) {
      var k :| k in gs[n].profile.nonceKeys && k in lastNonce && lastNonce[k] == i;
      assert Touches(gs[n], Nonce(k)) && LastBefore(gs, n, Nonce(k), i);
    }
    forall i | i in byQuota ensures i in Predecessors(gs, n) {
      var k :| k in gs[n].profile.quotaKeys && k in lastQuota && lastQuota[k] == i;
      assert Touches(gs[n], Quota(k)) && LastBefore(gs, n, Quota(k), i);
    }
    forall i | i in Predecessors(gs, n) ensures i in byNonce + byQuota {
      var key :| Touches(gs[n], key) && LastBefore(gs, n, key, i);
      match key {
        case Nonce(k) => assert k in lastNonce; SameLast(gs, n, key, i, lastNonce[k]);
        case Quota(k) => assert k in lastQuota; SameLast(gs, n, key, i, lastQuota[k]);
      }
    }
  }

  lemma SameLast(gs: seq<Group>, n: nat, key: Key, i: nat, j: nat)
    requires n <= |gs| && LastBefore(gs, n, key, i) && LastBefore(gs, n, key, j)
    ensures i == j
  {
  }

  lemma TablesAdvance(gs: seq<Group>, n: nat, lastNonce: map<NonceKey, nat>, lastQuota: map<QuotaKey, nat>)
    requires n < |gs| && NonceTable(gs, n, lastNonce) && QuotaTable(gs, n, lastQuota)
    ensures NonceTable(gs, n + 1, Recorded(lastNonce, gs[n].profile.nonceKeys, n))
    ensures QuotaTable(gs, n + 1, Recorded(lastQuota, gs[n].profile.quotaKeys, n))
  {
    var nonce' := Recorded(lastNonce, gs[n].profile.nonceKeys, n);
    var quota' := Recorded(lastQuota, gs[n].profile.quotaKeys, n);
    forall k | k in nonce' ensures LastBefore(gs, n + 1, Nonce(k), nonce'[k]) {
      if k !in gs[n].profile.nonceKeys { assert LastBefore(gs, n, Nonce(k), lastNonce[k]); }
    }
    forall k | k in quota' ensures LastBefore(gs, n + 1, Quota(k), quota'[k]) {
      if k !in gs[n].profile.quotaKeys { assert LastBefore(gs, n, Quota(k), lastQuota[k]); }
    }
  }

  lemma GraphAdvance(gs: seq<Group>, nodes: seq<Node>, linked: seq<Node>)
    requires |nodes| < |gs| && IsGraphUpTo(gs, nodes)
    requires |linked| == |nodes| + 1
    requires forall i :: 0 <= i < |nodes| ==> linked[i] == Linked(nodes[i], i in Predecessors(gs, |nodes|), |nodes|)
    requires linked[|nodes|] == Node(Some(gs[|nodes|]), |Predecessors(gs, |nodes|)|, [])
    ensures IsGraphUpTo(gs, linked)
  {
    var n := |nodes|;
    forall i | 0 <= i <= n ensures ListsSuccessors(gs, n + 1, i, linked[i].successors) {
      if i < n { SuccessorsAdvance(gs, n, i, nodes[i].successors, linked[i].successors); }
    }
  }

  method BuildNormalNodes(gs: seq<Group>) returns (nodes: seq<Node>)
    ensures IsGraph(gs, nodes)
  {
    nodes := [];
    var lastNonce: map<NonceKey, nat>, lastQuota: map<QuotaKey, nat> := map[], map[];
    while |nodes| < |gs|
      invariant |nodes| <= |gs|
      invariant NonceTable(gs, |nodes|, lastNonce) && QuotaTable(gs, |nodes|, lastQuota)
      invariant IsGraphUpTo(gs, nodes)
    {
      var index := |nodes|;
      nodes := LinkGroup(gs, nodes, lastNonce, lastQuota);
      TablesAdvance(gs, index, lastNonce, lastQuota);
      lastNonce := RecordHolder(lastNonce, gs[index].profile.nonceKeys, index);
      lastQuota := RecordHolder(lastQuota, gs[index].profile.quotaKeys, index);
    }
  }

  /** Adds the next group's node below the last holders of its keys. */
  method LinkGroup(gs: seq<Group>, nodes: seq<Node>, lastNonce: map<NonceKey, nat>, lastQuota: map<QuotaKey, nat>)
    returns (linked: seq<Node>)
    requires |nodes| < |gs| && IsGraphUpTo(gs, nodes)
    requires NonceTable(gs, |nodes|, lastNonce) && QuotaTable(gs, |nodes|, lastQuota)
    ensures |linked| == |nodes| + 1 && IsGraphUpTo(gs, linked)
  {
    var group := gs[|nodes|];
    var byNonce := LastHolders(group.profile.nonceKeys, lastNonce);
    var byQuota := LastHolders(group.profile.quotaKeys, lastQuota);
    var predecessors := byNonce + byQuota;
    HoldersArePredecessors(gs, |nodes|, lastNonce, lastQuota);
    linked := LinkPredecessors(nodes + [Node(Some(group), |predecessors|, [])], predecessors, |nodes|);
    GraphAdvance(gs, nodes, linked);
  }

  lemma SuccessorsAdvance(gs: seq<Group>, n: nat, i: nat, before: seq<nat>, after: seq<nat>)
    requires ListsSuccessors(gs, n, i, before)
    requires after == if Edge(gs, i, n) then before + [n] else before
    ensures ListsSuccessors(gs, n + 1, i, after)
  {
    forall a | 0 <= a < |before| ensures before[a] < n { assert before[a] in before; }
  }

  // ---------------------------------------------------------------------------------------------
  // Same order as the full conflict graph
  // ---------------------------------------------------------------------------------------------

  /** A path is a list of groups, each step an edge of the nearest-predecessor graph ... */
  ghost predicate EdgePath(gs: seq<Group>, path: seq<nat>) {
    |path| >= 2 && forall n :: 0 <= n < |path| - 1 ==> Edge(gs, path[n], path[n + 1])
  }

  /** ... or a pairwise conflict. */
  ghost predicate ConflictPath(gs: seq<Group>, path: seq<nat>) {
    |path| >= 2 && forall n :: 0 <= n < |path| - 1 ==> Conflict(gs, path[n], path[n + 1])
  }

  ghost predicate Joins(path: seq<nat>, i: nat, j: nat) {
    |path| >= 2 && path[0] == i && path[|path| - 1] == j
  }

  /** Every edge runs from a lower to a higher index and joins groups that share a key. */
  lemma EdgeIsConflict(gs: seq<Group>, i: nat, j: nat)
    requires Edge(gs, i, j)
    ensures i < j && Conflict(gs, i, j)
  {
    var key :| Touches(gs[j], key) && LastBefore(gs, j, key, i);
  }

  ghost function LastHolder(gs: seq<Group>, n: nat, key: Key, i: nat): (m: nat)
    requires n <= |gs| && i < n && Touches(gs[i], key)
    ensures i <= m && LastBefore(gs, n, key, m)
    decreases n - i
  {
    if m: nat :| i < m < n && Touches(gs[m], key) then LastHolder(gs, n, key, m) else i
  }

  /** Between any two conflicting groups there is a chain of nearest-predecessor edges. */
  lemma {:induction false} ConflictHasEdgePath(gs: seq<Group>, i: nat, j: nat) returns (path: seq<nat>)
    requires Conflict(gs, i, j)
    ensures EdgePath(gs, path) && Joins(path, i, j)
    decreases j
  {
    var key :| Touches(gs[i], key) && Touches(gs[j], key);
    var m := LastHolder(gs, j, key, i);
    assert Edge(gs, m, j);
    if m == i {
      path := [i, j];
    } else {
      assert Conflict(gs, i, m);
      var front := ConflictHasEdgePath(gs, i, m);
      path := front + [j];
    }
  }

  lemma {:induction false} FlattenConflictPath(gs: seq<Group>, path: seq<nat>) returns (flat: seq<nat>)
    requires ConflictPath(gs, path)
    ensures EdgePath(gs, flat) && Joins(flat, path[0], path[|path| - 1])
    decreases |path|
  {
    flat := ConflictHasEdgePath(gs, path[0], path[1]);
    if |path| > 2 {
      var rest := FlattenConflictPath(gs, path[1..]);
      var all := flat + rest[1..];
      forall n | 0 <= n < |all| - 1 ensures Edge(gs, all[n], all[n + 1]) {
        if n >= |flat| - 1 { assert Edge(gs, rest[n - (|flat| - 1)], rest[n - (|flat| - 1) + 1]); }
      }
      flat := all;
    }
  }

  /** The nearest-predecessor graph and the full pairwise graph have the same transitive closure. */
  lemma SameTransitiveClosure(gs: seq<Group>, i: nat, j: nat)
    ensures (exists path :: EdgePath(gs, path) && Joins(path, i, j))
       <==> (exists path :: ConflictPath(gs, path) && Joins(path, i, j))
  {
    if path :| EdgePath(gs, path) && Joins(path, i, j) {
      forall n | 0 <= n < |path| - 1 ensures Conflict(gs, path[n], path[n + 1]) {
        EdgeIsConflict(gs, path[n], path[n + 1]);
      }
      assert ConflictPath(gs, path);
    }
    if path :| ConflictPath(gs, path) && Joins(path, i, j) {
      var flat := FlattenConflictPath(gs, path);
    }
  }
}
