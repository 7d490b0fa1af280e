/** Routing of `eth_getLogs` between the legacy back end and the local node: a range that straddles the cutoff
    block is split into two requests and the answers are merged. */
module GetLogs {
  import opened Prelude

  const U64_MAX: nat := U64_BOUND - 1

  /** JSON as far as the router looks into it. */
  datatype Value = Text(text: string) | Object(fields: map<string, Value>) | Array(items: seq<Value>) | Literal

  // ---------------------------------------------------------------------------------------------
  // Quantities
  // ---------------------------------------------------------------------------------------------

  function DigitChar(d: nat): (c: char)
    requires d < 16
    ensures DigitValue(c) == Some(d) && c != '+' && c != 'x'
  {
    if d < 10 then '0' + d as char else 'a' + (d - 10) as char
  }

  function DigitValue(c: char): Option<nat> {
    if '0' <= c <= '9' then Some((c - '0') as nat)
    else if 'a' <= c <= 'f' then Some((c - 'a') as nat + 10)
    else if 'A' <= c <= 'F' then Some((c - 'A') as nat + 10)
    else None
  }

  /** Lower-case hexadecimal without leading zeros. */
  function ToHex(n: nat): (s: string)
    ensures s != [] && s[0] != '+' && forall i :: 0 <= i < |s| ==> s[i] != 'x'
  {
    if n < 16 then [DigitChar(n)] else ToHex(n / 16) + [DigitChar(n % 16)]
  }

  function DigitsValue(s: string): Option<nat> {
    if s == [] then Some(0)
    else
      var front, last := DigitsValue(s[..|s| - 1]), DigitValue(s[|s| - 1]);
      if front.Some? && last.Some? then Some(front.value * 16 + last.value) else None
  }

  /** Hexadecimal text as a 64-bit number: digits of either case after an optional plus sign. */
  function FromHex(s: string): Option<nat> {
    if s == [] then None
    else
      var digits := if s[0] == '+' && |s| > 1 then s[1..] else s;
      var value := DigitsValue(digits);
      if value.Some? && value.value < U64_BOUND then value else None
  }

  function Quantity(n: nat): string {
    "0x" + ToHex(n)
  }

  lemma {:induction false} DigitsRoundTrip(n: nat)
    ensures DigitsValue(ToHex(n)) == Some(n)
  {
    var s := ToHex(n);
    if n < 16 {
      assert s[..0] == [];
    } else {
      DigitsRoundTrip(n / 16);
      assert s[..|s| - 1] == ToHex(n / 16);
    }
  }

  function ParseBlockNumber(s: string): Option<nat> {
    if s == "latest" || s == "pending" || s == "safe" || s == "finalized" then Some(U64_MAX)
    else if s == "earliest" then Some(0)
    else if |s| >= 2 && s[..2] == "0x" then FromHex(s[2..])
    else None
  }

  /** Every 64-bit block number is read back as written. */
  lemma QuantityRoundTrip(n: nat)
    requires n < U64_BOUND
    ensures ParseBlockNumber(Quantity(n)) == Some(n)
  {
    DigitsRoundTrip(n);
    var s := Quantity(n);
    assert s[..2] == "0x" && s[2..] == ToHex(n);
    assert s[0] == '0';
    assert "latest"[0] == 'l' && "pending"[0] == 'p' && "safe"[0] == 's' && "finalized"[0] == 'f'
           && "earliest"[0] == 'e';
  }

  // ---------------------------------------------------------------------------------------------
  // Request parameters
  // ---------------------------------------------------------------------------------------------

  datatype LogsParams = Range(from: nat, to: nat) | BlockHash(hash: string)

  predicate IsHash32(s: string) {
    |s| == 66 && s[..2] == "0x" && forall i :: 2 <= i < |s| ==> DigitValue(s[i]).Some?
  }

  function TextField(fields: map<string, Value>, name: string): Option<string> {
    if name in fields && fields[name].Text? then Some(fields[name].text) else None
  }

  function BoundField(fields: map<string, Value>, name: string): nat {
    match TextField(fields, name)
    case None => U64_MAX
    case Some(s) =>
      match ParseBlockNumber(s)
      case None => U64_MAX
      case Some(n) => n
  }

  function FilterOf(params: Value): Option<map<string, Value>> {
    if params.Array? && params.items != [] && params.items[0].Object? then Some(params.items[0].fields) else None
  }

  function ParseParams(params: Value): Option<LogsParams> {
    match FilterOf(params)
    case None => None
    case Some(fields) =>
      match TextField(fields, "blockHash")
      case Some(hash) => if IsHash32(hash) then Some(BlockHash(hash)) else None
      case None =>
        if BoundField(fields, "fromBlock") > BoundField(fields, "toBlock") then None
        else Some(Range(BoundField(fields, "fromBlock"), BoundField(fields, "toBlock")))
  }

  /** Rewrites the bounds of a request in place. */
  method ModifyParams(params: Value, from: Option<nat>, to: Option<nat>) returns (r: Option<Value>)
    ensures r == Rewritten(params, from, to)
  {
    if !params.Array? || params.items == [] || !params.items[0].Object? { return None; }
    var fields := params.items[0].fields;
    if from.Some? { fields := fields["fromBlock" := Text(Quantity(from.value))]; }
    if to.Some? { fields := fields["toBlock" := Text(Quantity(to.value))]; }
    r := Some(Array(params.items[0 := Object(fields)]));
  }

  function WithBound(fields: map<string, Value>, name: string, bound: Option<nat>): map<string, Value> {
    if bound.Some? then fields[name := Text(Quantity(bound.value))] else fields
  }

  function Rewritten(params: Value, from: Option<nat>, to: Option<nat>): Option<Value> {
    match FilterOf(params)
    case None => None
    case Some(fields) =>
      Some(Array(params.items[0 := Object(WithBound(WithBound(fields, "fromBlock", from), "toBlock", to))]))
  }

  /** Reading a rewritten range request gives the written bounds, for every pair of 64-bit numbers; every other
      field of the filter, and every other parameter, is as before. */
  lemma RewriteRoundTrip(params: Value, from: nat, to: nat)
    requires FilterOf(params).Some? && TextField(FilterOf(params).value, "blockHash").None?
    requires from <= to < U64_BOUND
    ensures Rewritten(params, Some(from), Some(to)).Some?
    ensures var r := Rewritten(params, Some(from), Some(to)).value;
            && ParseParams(r) == Some(Range(from, to))
            && r.items[1..] == params.items[1..]
            && FilterOf(r).value - {"fromBlock", "toBlock"} == FilterOf(params).value - {"fromBlock", "toBlock"}
  {
    RewriteReads(params, from, to);
  }

  lemma RewriteReads(params: Value, from: nat, to: nat)
    requires FilterOf(params).Some? && TextField(FilterOf(params).value, "blockHash").None?
    requires from <= to < U64_BOUND
    ensures Rewritten(params, Some(from), Some(to)).Some?
    ensures ParseParams(Rewritten(params, Some(from), Some(to)).value) == Some(Range(from, to))
  {
    QuantityRoundTrip(from);
    QuantityRoundTrip(to);
    DistinctNames();
    var fields := FilterOf(params).value;
    var rewritten := WithBound(WithBound(fields, "fromBlock", Some(from)), "toBlock", Some(to));
    assert TextField(rewritten, "blockHash") == None;
    assert BoundField(rewritten, "fromBlock") == from && BoundField(rewritten, "toBlock") == to;
  }

  lemma DistinctNames()
    ensures "fromBlock" != "toBlock" && "fromBlock" != "blockHash" && "toBlock" != "blockHash"
  {
    assert |"fromBlock"| == 9 && |"toBlock"| == 7 && "blockHash"[0] == 'b' && "fromBlock"[0] == 'f';
  }

  /** Bounds read from a request always fit 64 bits. */
  lemma BoundsFit(params: Value)
    requires ParseParams(params).Some? && ParseParams(params).value.Range?
    ensures ParseParams(params).value.from <= ParseParams(params).value.to < U64_BOUND
    ensures FilterOf(params).Some? && TextField(FilterOf(params).value, "blockHash").None?
  {
  }

  // ---------------------------------------------------------------------------------------------
  // Merging
  // ---------------------------------------------------------------------------------------------

  /** A log as the merge sees it; `body` stands for everything else. */
  datatype Log = Log(blockNumber: Option<string>, body: nat)

  datatype Response = Unparsable(raw: nat) | Parsed(result: Option<seq<Log>>)

  function TrimPrefix(s: string): string {
    if |s| >= 2 && s[..2] == "0x" then TrimPrefix(s[2..]) else s
  }

  /** The sort key: the block number, or 0 when it is missing or unreadable. */
  function Key(log: Log): nat {
    match log.blockNumber
    case None => 0
    case Some(s) =>
      match FromHex(TrimPrefix(s))
      case None => 0
      case Some(n) => n
  }

  /** Stable sort by key: an element goes after every element that is not greater. */
  function Insert(sorted: seq<Log>, log: Log): seq<Log> {
    if sorted == [] || Key(sorted[|sorted| - 1]) <= Key(log) then sorted + [log]
    else Insert(sorted[..|sorted| - 1], log) + [sorted[|sorted| - 1]]
  }

  function StableSort(logs: seq<Log>): seq<Log> {
    if logs == [] then [] else Insert(StableSort(logs[..|logs| - 1]), logs[|logs| - 1])
  }

  ghost predicate Sorted(logs: seq<Log>) {
    forall i, j :: 0 <= i < j < |logs| ==> Key(logs[i]) <= Key(logs[j])
  }

  /** The logs of one block, in order. */
  ghost function OfBlock(logs: seq<Log>, n: nat): seq<Log> {
    if logs == [] then []
    else OfBlock(logs[..|logs| - 1], n) + if Key(logs[|logs| - 1]) == n then [logs[|logs| - 1]] else []
  }

  lemma OfBlockSnoc(logs: seq<Log>, log: Log, n: nat)
    ensures OfBlock(logs + [log], n) == OfBlock(logs, n) + if Key(log) == n then [log] else []
  {
    assert (logs + [log])[..|logs|] == logs;
  }

  lemma {:induction false} InsertSorted(sorted: seq<Log>, log: Log)
    requires Sorted(sorted)
    ensures Sorted(Insert(sorted, log))
    decreases |sorted|
  {
    if sorted != [] && Key(sorted[|sorted| - 1]) > Key(log) {
      var front, last := sorted[..|sorted| - 1], sorted[|sorted| - 1];
      InsertSorted(front, log);
      InsertBelow(front, log, Key(last));
    }
  }

  lemma {:induction false} InsertAdds(sorted: seq<Log>, log: Log)
    ensures multiset(Insert(sorted, log)) == multiset(sorted) + multiset{log}
    decreases |sorted|
  {
    if sorted != [] && Key(sorted[|sorted| - 1]) > Key(log) {
      var front, last := sorted[..|sorted| - 1], sorted[|sorted| - 1];
      assert sorted == front + [last];
      InsertAdds(front, log);
    }
  }

  /** An inserted log comes last in its own block and moves nothing in the others. */
  lemma {:induction false} InsertStable(sorted: seq<Log>, log: Log, n: nat)
    ensures OfBlock(Insert(sorted, log), n) == OfBlock(sorted, n) + if Key(log) == n then [log] else []
    decreases |sorted|
  {
    if sorted == [] || Key(sorted[|sorted| - 1]) <= Key(log) {
      OfBlockSnoc(sorted, log, n);
    } else {
      var front, last := sorted[..|sorted| - 1], sorted[|sorted| - 1];
      assert sorted == front + [last];
      InsertStable(front, log, n);
      OfBlockSnoc(Insert(front, log), last, n);
      OfBlockSnoc(front, last, n);
      NoneOfBlock(front, log, last, n);
    }
  }

  /** With a strictly greater last element, a block never holds both it and the inserted one. */
  lemma NoneOfBlock(front: seq<Log>, log: Log, last: Log, n: nat)
    requires Key(log) < Key(last)
    ensures var a, b := if Key(log) == n then [log] else [], if Key(last) == n then [last] else [];
            OfBlock(front, n) + a + b == OfBlock(front, n) + b + a
  {
  }

  lemma {:induction false} InsertBelow(sorted: seq<Log>, log: Log, top: nat)
    requires Sorted(sorted) && Key(log) <= top && forall i :: 0 <= i < |sorted| ==> Key(sorted[i]) <= top
    ensures forall i :: 0 <= i < |Insert(sorted, log)| ==> Key(Insert(sorted, log)[i]) <= top
    decreases |sorted|
  {
    if sorted != [] && Key(sorted[|sorted| - 1]) > Key(log) {
      InsertBelow(sorted[..|sorted| - 1], log, top);
    }
  }

  lemma {:induction false} SortSorts(logs: seq<Log>)
    ensures Sorted(StableSort(logs))
  {
    if logs != [] {
      SortSorts(logs[..|logs| - 1]);
      InsertSorted(StableSort(logs[..|logs| - 1]), logs[|logs| - 1]);
    }
  }

  lemma {:induction false} SortPermutes(logs: seq<Log>)
    ensures multiset(StableSort(logs)) == multiset(logs)
  {
    if logs != [] {
      var front, last := logs[..|logs| - 1], logs[|logs| - 1];
      SortPermutes(front);
      InsertAdds(StableSort(front), last);
      assert logs == front + [last];
    }
  }

  /** Within a block, logs keep the order in which the back ends gave them. */
  lemma {:induction false} SortStable(logs: seq<Log>, n: nat)
    ensures OfBlock(StableSort(logs), n) == OfBlock(logs, n)
  {
    if logs != [] {
      SortStable(logs[..|logs| - 1], n);
      InsertStable(StableSort(logs[..|logs| - 1]), logs[|logs| - 1], n);
    }
  }

  /** Merging loses and repeats no log, orders by block, and never reorders within a block. */
  lemma MergeKeeps(legacy: Response, local: Response, n: nat)
    requires legacy.Parsed? && local.Parsed?
    ensures Merge(legacy, local).Parsed? && Merge(legacy, local).result.Some?
    ensures var all, merged := ResultOf(legacy) + ResultOf(local), Merge(legacy, local).result.value;
            && Sorted(merged) && multiset(merged) == multiset(all) && OfBlock(merged, n) == OfBlock(all, n)
  {
    var all := ResultOf(legacy) + ResultOf(local);
    SortSorts(all);
    SortPermutes(all);
    SortStable(all, n);
  }

  lemma SortedFront(logs: seq<Log>)
    requires logs != [] && Sorted(logs)
    ensures Sorted(logs[..|logs| - 1])
    ensures |logs| > 1 ==> Key(logs[|logs| - 2]) <= Key(logs[|logs| - 1])
  {
  }

  /** What is in chain order stays as it is. */
  lemma {:induction false} SortOfSorted(logs: seq<Log>)
    requires Sorted(logs)
    ensures StableSort(logs) == logs
    decreases |logs|
  {
    if logs != [] {
      var front, last := logs[..|logs| - 1], logs[|logs| - 1];
      SortedFront(logs);
      SortOfSorted(front);
      assert Insert(front, last) == front + [last];
      assert logs == front + [last];
    }
  }

  function ResultOf(r: Response): seq<Log>
    requires r.Parsed?
  {
    match r.result
    case Some(logs) => logs
    case None => []
  }

  /** A missing result counts as an empty list; an unparsable response is passed on as it is. */
  function Merge(legacy: Response, local: Response): Response {
    if legacy.Unparsable? then legacy
    else if local.Unparsable? then local
    else Parsed(Some(StableSort(ResultOf(legacy) + ResultOf(local))))
  }

  /** Extends the legacy list by the local one and sorts it stably, one log at a time. */
  method MergeResponses(legacy: Response, local: Response) returns (r: Response)
    ensures r == Merge(legacy, local)
  {
    if legacy.Unparsable? { return legacy; }
    if local.Unparsable? { return local; }
    var logs := ResultOf(legacy);
    logs := logs + ResultOf(local);
    var merged: seq<Log> := [];
    for n := 0 to |logs|
      invariant merged == StableSort(logs[..n])
    {
      assert logs[..n + 1][..n] == logs[..n];
      merged := Insert(merged, logs[n]);
    }
    assert logs[..|logs|] == logs;
    r := Parsed(Some(merged));
  }

  // ---------------------------------------------------------------------------------------------
  // Routing
  // ---------------------------------------------------------------------------------------------

  type Backend = Value -> Response

  datatype Service = Service(legacy: Backend, local: Backend, knownLocally: string -> bool, cutoff: nat)

  function Handle(service: Service, params: Value): Response {
    match ParseParams(params)
    case None => service.local(params)
    case Some(BlockHash(hash)) => if service.knownLocally(hash) then service.local(params) else service.legacy(params)
    case Some(Range(from, to)) =>
      if to < service.cutoff then service.legacy(params)
      else if from >= service.cutoff then service.local(params)
      else Split(service, params, from, to)
  }

  /** The straddling range: one request up to the block before the cutoff, one from the cutoff on. */
  function Split(service: Service, params: Value, from: nat, to: nat): Response
    requires service.cutoff > 0
  {
    var low := Rewritten(params, Some(from), Some(service.cutoff - 1));
    var high := Rewritten(params, Some(service.cutoff), Some(to));
    if low.Some? && high.Some? then Merge(service.legacy(low.value), service.local(high.value))
    else service.local(params)
  }

  /** What a request asks for besides its bounds: addresses, topics, anything else, in any parameter. */
  datatype Criteria = Criteria(fields: map<string, Value>, more: seq<Value>)

  function CriteriaOf(params: Value): Criteria
    requires FilterOf(params).Some?
  {
    Criteria(FilterOf(params).value - {"fromBlock", "toBlock"}, params.items[1..])
  }

  /** A chain: for every criteria, the matching logs of each block in order. */
  type Chain = (Criteria, nat) -> seq<Log>

  /** Every log names its block. */
  ghost predicate IsChain(chain: Chain) {
    forall c: Criteria, n: nat, i :: 0 <= i < |chain(c, n)| ==> chain(c, n)[i].blockNumber == Some(Quantity(n))
  }

  /** The answer of one node that has every block from `from` up to, not including, `end`. */
  ghost function Query(chain: Chain, c: Criteria, from: nat, end: nat): seq<Log>
    decreases end
  {
    if end <= from then [] else Query(chain, c, from, end - 1) + chain(c, end - 1)
  }

  lemma TrimQuantity(n: nat)
    ensures TrimPrefix(Quantity(n)) == ToHex(n)
  {
    var s := ToHex(n);
    assert Quantity(n)[2..] == s && Quantity(n)[..2] == "0x";
    assert |s| >= 2 ==> s[..2][1] == s[1];
    assert "0x"[1] == 'x';
  }

  lemma KeyIsBlock(chain: Chain, c: Criteria, n: nat, i: nat)
    requires IsChain(chain) && n < U64_BOUND && i < |chain(c, n)|
    ensures Key(chain(c, n)[i]) == n
  {
    TrimQuantity(n);
    DigitsRoundTrip(n);
  }

  /** A single query is in chain order and stays inside its range. */
  lemma {:induction false} QueryInOrder(chain: Chain, c: Criteria, from: nat, end: nat)
    requires IsChain(chain) && end <= U64_BOUND
    ensures Sorted(Query(chain, c, from, end))
    ensures forall i :: 0 <= i < |Query(chain, c, from, end)| ==> from <= Key(Query(chain, c, from, end)[i]) < end
    decreases end
  {
    if end > from {
      QueryInOrder(chain, c, from, end - 1);
      var head, tail := Query(chain, c, from, end - 1), chain(c, end - 1);
      forall i | 0 <= i < |tail| ensures Key(tail[i]) == end - 1 {
        KeyIsBlock(chain, c, end - 1, i);
      }
      AppendInOrder(head, tail, from, end);
    }
  }

  lemma AppendInOrder(head: seq<Log>, tail: seq<Log>, from: nat, end: nat)
    requires Sorted(head) && end > from && forall i :: 0 <= i < |head| ==> from <= Key(head[i]) < end - 1
    requires forall i :: 0 <= i < |tail| ==> Key(tail[i]) == end - 1
    ensures Sorted(head + tail) && forall i :: 0 <= i < |head + tail| ==> from <= Key((head + tail)[i]) < end
  {
  }

  lemma {:induction false} QueryJoins(chain: Chain, c: Criteria, from: nat, mid: nat, end: nat)
    requires from <= mid <= end
    ensures Query(chain, c, from, mid) + Query(chain, c, mid, end) == Query(chain, c, from, end)
    decreases end
  {
    if mid < end {
      QueryJoins(chain, c, from, mid, end - 1);
      assert Query(chain, c, from, mid) + Query(chain, c, mid, end) ==
             (Query(chain, c, from, mid) + Query(chain, c, mid, end - 1)) + chain(c, end - 1);
    } else {
      assert Query(chain, c, mid, end) == [];
    }
  }

  // ---------------------------------------------------------------------------------------------
  // Against one node
  // ---------------------------------------------------------------------------------------------

  /** The block a node takes a bound to mean when it is not a plain number: a tag, nothing at all, anything
      else. `None` rejects the request. The router cannot know it. */
  type Naming = Option<Value> -> Option<nat>

  predicate IsTag(s: string) {
    s == "latest" || s == "pending" || s == "safe" || s == "finalized"
  }

  /** A bound that names its block by number. */
  predicate Explicit(fields: map<string, Value>, name: string) {
    match TextField(fields, name)
    case None => false
    case Some(s) => !IsTag(s) && ParseBlockNumber(s).Some?
  }

  function NodeBound(names: Naming, fields: map<string, Value>, name: string): Option<nat> {
    if Explicit(fields, name) then ParseBlockNumber(fields[name].text)
    else names(if name in fields then Some(fields[name]) else None)
  }

  ghost predicate IsRange(params: Value) {
    ParseParams(params).Some? && ParseParams(params).value.Range?
  }

  /** The answer of a node that holds the blocks from `low` up to, not including, `high`. */
  ghost function NodeAnswer(names: Naming, chain: Chain, params: Value, low: nat, high: nat): Response
    requires FilterOf(params).Some?
  {
    var from, to := NodeBound(names, FilterOf(params).value, "fromBlock"),
      NodeBound(names, FilterOf(params).value, "toBlock");
    if from.None? || to.None? then Parsed(None)
    else Parsed(Some(Query(chain, CriteriaOf(params), Max(from.value, low), Min(to.value + 1, high))))
  }

  /** The joined chain on one node. */
  ghost function OneNode(names: Naming, chain: Chain, params: Value): Response
    requires FilterOf(params).Some?
  {
    NodeAnswer(names, chain, params, 0, U64_BOUND)
  }

  /** Both back ends answer every range request, each from the blocks it holds and by the request's own criteria.
      What tags mean to the legacy back end is its own affair. */
  ghost predicate Serves(service: Service, names: Naming, legacyNames: Naming, chain: Chain) {
    forall params: Value :: IsRange(params) ==> ServedAlike(service, names, legacyNames, chain, params)
  }

  ghost predicate ServedAlike(service: Service, names: Naming, legacyNames: Naming, chain: Chain, params: Value)
    requires IsRange(params)
  {
    && service.legacy(params) == NodeAnswer(legacyNames, chain, params, 0, service.cutoff)
    && service.local(params) == NodeAnswer(names, chain, params, service.cutoff, U64_BOUND)
  }

  /** When the routed answer is the joined node's. A range left of the cutoff always; one the router takes to lie
      right of it unless the node's reading starts left of it and finds logs there; a straddling one if the
      node reads its upper bound and no log lies between that block and the one the router wrote. */
  ghost predicate Agrees(names: Naming, chain: Chain, params: Value, cutoff: nat)
    requires IsRange(params)
  {
    var range, fields, c := ParseParams(params).value, FilterOf(params).value, CriteriaOf(params);
    var from, to := NodeBound(names, fields, "fromBlock"), NodeBound(names, fields, "toBlock");
    if range.to < cutoff then true
    else if range.from >= cutoff then
      from.Some? && to.Some? ==> Query(chain, c, from.value, Min(cutoff, to.value + 1)) == []
    else to.Some? && Query(chain, c, Max(range.from, Min(to.value + 1, U64_BOUND)), range.to + 1) == []
  }

  /** The router reads a bound as the node does, or as the largest number. */
  lemma BoundIsRead(names: Naming, fields: map<string, Value>, name: string)
    ensures Explicit(fields, name) ==> NodeBound(names, fields, name) == Some(BoundField(fields, name))
    ensures !Explicit(fields, name) ==> BoundField(fields, name) == U64_MAX
  {
  }

  lemma QueryPrefix(chain: Chain, c: Criteria, from: nat, mid: nat, end: nat)
    requires from <= mid <= end
    ensures Query(chain, c, from, mid) == Query(chain, c, from, end) <==> Query(chain, c, mid, end) == []
    ensures Query(chain, c, mid, end) == Query(chain, c, from, end) <==> Query(chain, c, from, mid) == []
  {
    QueryJoins(chain, c, from, mid, end);
    var a, b, all := Query(chain, c, from, mid), Query(chain, c, mid, end), Query(chain, c, from, end);
    assert |all| == |a| + |b|;
  }

  /** A node that lacks the blocks below the cutoff answers like one that has them exactly if they hold nothing. */
  lemma FromCutoff(chain: Chain, c: Criteria, from: nat, end: nat, cutoff: nat)
    ensures Query(chain, c, Max(from, cutoff), end) == Query(chain, c, from, end) <==>
            Query(chain, c, from, Min(cutoff, end)) == []
  {
    if from < cutoff <= end {
      QueryPrefix(chain, c, from, cutoff, end);
    }
  }

  lemma LocalAgrees(names: Naming, chain: Chain, params: Value, cutoff: nat)
    requires IsRange(params) && ParseParams(params).value.from >= cutoff && cutoff < U64_BOUND
    ensures NodeAnswer(names, chain, params, cutoff, U64_BOUND) == OneNode(names, chain, params) <==>
            Agrees(names, chain, params, cutoff)
  {
    var fields, c := FilterOf(params).value, CriteriaOf(params);
    var from, to := NodeBound(names, fields, "fromBlock"), NodeBound(names, fields, "toBlock");
    BoundsFit(params);
    if from.Some? && to.Some? {
      FromCutoff(chain, c, from.value, Min(to.value + 1, U64_BOUND), cutoff);
    }
  }

  lemma LegacyAgrees(names: Naming, legacyNames: Naming, chain: Chain, params: Value, cutoff: nat)
    requires IsRange(params) && ParseParams(params).value.to < cutoff < U64_BOUND
    ensures NodeAnswer(legacyNames, chain, params, 0, cutoff) == OneNode(names, chain, params)
  {
    var fields := FilterOf(params).value;
    BoundsFit(params);
    BoundIsRead(names, fields, "fromBlock");
    BoundIsRead(names, fields, "toBlock");
    BoundIsRead(legacyNames, fields, "fromBlock");
    BoundIsRead(legacyNames, fields, "toBlock");
  }

  /** A rewritten request asks for the same logs, within the written bounds, and every node reads them alike. */
  lemma RewriteKeepsCriteria(names: Naming, params: Value, from: nat, to: nat)
    requires IsRange(params) && from <= to < U64_BOUND
    ensures Rewritten(params, Some(from), Some(to)).Some?
    ensures var r := Rewritten(params, Some(from), Some(to)).value;
            && ParseParams(r) == Some(Range(from, to)) && CriteriaOf(r) == CriteriaOf(params)
            && NodeBound(names, FilterOf(r).value, "fromBlock") == Some(from)
            && NodeBound(names, FilterOf(r).value, "toBlock") == Some(to)
  {
    BoundsFit(params);
    RewriteRoundTrip(params, from, to);
    QuantityIsNoTag(from);
    QuantityIsNoTag(to);
    QuantityRoundTrip(from);
    QuantityRoundTrip(to);
    DistinctNames();
  }

  lemma QuantityIsNoTag(n: nat)
    ensures !IsTag(Quantity(n))
  {
    assert Quantity(n)[0] == '0';
    assert "latest"[0] == 'l' && "pending"[0] == 'p' && "safe"[0] == 's' && "finalized"[0] == 'f';
  }

  lemma LowServed(service: Service, names: Naming, legacyNames: Naming, chain: Chain, params: Value, from: nat)
    requires Serves(service, names, legacyNames, chain) && IsRange(params) && from < service.cutoff < U64_BOUND
    ensures var low := Rewritten(params, Some(from), Some(service.cutoff - 1));
            low.Some? && service.legacy(low.value) ==
              Parsed(Some(Query(chain, CriteriaOf(params), from, service.cutoff)))
  {
    RewriteKeepsCriteria(legacyNames, params, from, service.cutoff - 1);
    LegacyAnswers(service, names, legacyNames, chain, Rewritten(params, Some(from), Some(service.cutoff - 1)).value,
                  from);
  }

  lemma LegacyAnswers(service: Service, names: Naming, legacyNames: Naming, chain: Chain, r: Value, from: nat)
    requires Serves(service, names, legacyNames, chain) && IsRange(r) && from < service.cutoff
    requires NodeBound(legacyNames, FilterOf(r).value, "fromBlock") == Some(from)
    requires NodeBound(legacyNames, FilterOf(r).value, "toBlock") == Some(service.cutoff - 1)
    ensures service.legacy(r) == Parsed(Some(Query(chain, CriteriaOf(r), from, service.cutoff)))
  {
    assert ServedAlike(service, names, legacyNames, chain, r);
  }

  lemma LocalAnswers(service: Service, names: Naming, legacyNames: Naming, chain: Chain, r: Value, to: nat)
    requires Serves(service, names, legacyNames, chain) && IsRange(r) && service.cutoff <= to < U64_BOUND
    requires NodeBound(names, FilterOf(r).value, "fromBlock") == Some(service.cutoff)
    requires NodeBound(names, FilterOf(r).value, "toBlock") == Some(to)
    ensures service.local(r) == Parsed(Some(Query(chain, CriteriaOf(r), service.cutoff, to + 1)))
  {
    assert ServedAlike(service, names, legacyNames, chain, r);
  }

  lemma HighServed(service: Service, names: Naming, legacyNames: Naming, chain: Chain, params: Value, to: nat)
    requires Serves(service, names, legacyNames, chain) && IsRange(params) && service.cutoff <= to < U64_BOUND
    ensures var high := Rewritten(params, Some(service.cutoff), Some(to));
            high.Some? && service.local(high.value) ==
              Parsed(Some(Query(chain, CriteriaOf(params), service.cutoff, to + 1)))
  {
    RewriteKeepsCriteria(names, params, service.cutoff, to);
    LocalAnswers(service, names, legacyNames, chain, Rewritten(params, Some(service.cutoff), Some(to)).value, to);
  }

  /** A straddling range is answered by merging the two halves, cut at the cutoff ... */
  lemma SplitServed(service: Service, names: Naming, legacyNames: Naming, chain: Chain, params: Value, from: nat,
                    to: nat)
    requires Serves(service, names, legacyNames, chain) && IsRange(params) && from < service.cutoff <= to < U64_BOUND
    ensures Split(service, params, from, to) == Halves(chain, CriteriaOf(params), from, service.cutoff, to + 1)
  {
    var c := CriteriaOf(params);
    LowServed(service, names, legacyNames, chain, params, from);
    HighServed(service, names, legacyNames, chain, params, to);
    SplitMerges(service, params, from, to, Query(chain, c, from, service.cutoff),
                Query(chain, c, service.cutoff, to + 1));
  }

  ghost function Halves(chain: Chain, c: Criteria, from: nat, mid: nat, end: nat): Response {
    Merge(Parsed(Some(Query(chain, c, from, mid))), Parsed(Some(Query(chain, c, mid, end))))
  }

  lemma SplitAnswers(service: Service, names: Naming, legacyNames: Naming, chain: Chain, params: Value, from: nat,
                     to: nat)
    requires IsChain(chain) && Serves(service, names, legacyNames, chain) && IsRange(params)
    requires from < service.cutoff <= to < U64_BOUND
    ensures Split(service, params, from, to) == Parsed(Some(Query(chain, CriteriaOf(params), from, to + 1)))
  {
    SplitServed(service, names, legacyNames, chain, params, from, to);
    HalvesMerge(chain, CriteriaOf(params), from, service.cutoff, to + 1);
  }

  /** ... and the halves join without a seam. */
  lemma HalvesMerge(chain: Chain, c: Criteria, from: nat, mid: nat, end: nat)
    requires IsChain(chain) && from <= mid <= end <= U64_BOUND
    ensures Halves(chain, c, from, mid, end) == Parsed(Some(Query(chain, c, from, end)))
  {
    QueryJoins(chain, c, from, mid, end);
    QueryInOrder(chain, c, from, end);
    SortOfSorted(Query(chain, c, from, end));
  }

  lemma SplitMerges(service: Service, params: Value, from: nat, to: nat, low: seq<Log>, high: seq<Log>)
    requires service.cutoff > 0
    requires Rewritten(params, Some(from), Some(service.cutoff - 1)).Some?
    requires Rewritten(params, Some(service.cutoff), Some(to)).Some?
    requires service.legacy(Rewritten(params, Some(from), Some(service.cutoff - 1)).value) == Parsed(Some(low))
    requires service.local(Rewritten(params, Some(service.cutoff), Some(to)).value) == Parsed(Some(high))
    ensures Split(service, params, from, to) == Merge(Parsed(Some(low)), Parsed(Some(high)))
  {
  }

  /** Answering up to a later block gives the same logs exactly if the blocks in between hold nothing. */
  lemma UpTo(chain: Chain, c: Criteria, from: nat, end: nat, later: nat)
    requires end <= later && from <= later
    ensures Query(chain, c, from, later) == Query(chain, c, from, end) <==> Query(chain, c, Max(from, end), later) == []
  {
    if from <= end { QueryPrefix(chain, c, from, end, later); }
  }

  lemma SplitAgrees(names: Naming, chain: Chain, params: Value, cutoff: nat, from: nat, to: nat)
    requires ParseParams(params) == Some(Range(from, to)) && from < cutoff <= to
    ensures Parsed(Some(Query(chain, CriteriaOf(params), from, to + 1))) == OneNode(names, chain, params) <==>
            Agrees(names, chain, params, cutoff)
  {
    StraddleReads(names, params, cutoff, from, to);
    StraddleIff(chain, CriteriaOf(params), from, to, NodeBound(names, FilterOf(params).value, "toBlock"));
  }

  lemma StraddleIff(chain: Chain, c: Criteria, from: nat, to: nat, upper: Option<nat>)
    requires from <= to < U64_BOUND && (upper.Some? ==> Min(upper.value + 1, U64_BOUND) <= to + 1)
    ensures var node := if upper.None? then Parsed(None)
                        else Parsed(Some(Query(chain, c, Max(from, 0), Min(upper.value + 1, U64_BOUND))));
            Parsed(Some(Query(chain, c, from, to + 1))) == node <==>
            upper.Some? && Query(chain, c, Max(from, Min(upper.value + 1, U64_BOUND)), to + 1) == []
  {
    if upper.Some? { UpTo(chain, c, from, Min(upper.value + 1, U64_BOUND), to + 1); }
  }

  /** The lower bound of a straddling range is a number, read alike by all. */
  lemma StraddleReads(names: Naming, params: Value, cutoff: nat, from: nat, to: nat)
    requires ParseParams(params) == Some(Range(from, to)) && from < cutoff <= to
    ensures to < U64_BOUND && NodeBound(names, FilterOf(params).value, "fromBlock") == Some(from)
    ensures var upper := NodeBound(names, FilterOf(params).value, "toBlock");
            upper.Some? ==> Min(upper.value + 1, U64_BOUND) <= to + 1
  {
    BoundsFit(params);
    BoundIsRead(names, FilterOf(params).value, "fromBlock");
    BoundIsRead(names, FilterOf(params).value, "toBlock");
  }

  /** For every range request, every cutoff and every pair of back ends, the routed answer is that of one node
      holding the joined chain exactly when `Agrees` says so. */
  lemma RoutedAgrees(service: Service, names: Naming, legacyNames: Naming, chain: Chain, params: Value)
    requires IsChain(chain) && Serves(service, names, legacyNames, chain) && IsRange(params)
             && service.cutoff < U64_BOUND
    ensures Handle(service, params) == OneNode(names, chain, params) <==> Agrees(names, chain, params, service.cutoff)
  {
    var from, to := ParseParams(params).value.from, ParseParams(params).value.to;
    assert ServedAlike(service, names, legacyNames, chain, params);
    if to < service.cutoff {
      LegacyAgrees(names, legacyNames, chain, params, service.cutoff);
    } else if from >= service.cutoff {
      LocalAgrees(names, chain, params, service.cutoff);
    } else {
      BoundsFit(params);
      SplitAnswers(service, names, legacyNames, chain, params, from, to);
      SplitAgrees(names, chain, params, service.cutoff, from, to);
    }
  }

  /** What a caller can tell before asking: the router reads the range as the node does, as far as it matters. It
      ends left of the cutoff; or it is taken to lie right of it, and the node does not start left of it; or it
      straddles, and the node reads its upper bound no lower than the router. */
  ghost predicate ReadsAlike(names: Naming, params: Value, cutoff: nat)
    requires IsRange(params)
  {
    var range, fields := ParseParams(params).value, FilterOf(params).value;
    var from, to := NodeBound(names, fields, "fromBlock"), NodeBound(names, fields, "toBlock");
    if range.to < cutoff then true
    else if range.from >= cutoff then from.Some? && to.Some? ==> from.value >= Min(cutoff, to.value + 1)
    else to.Some? && to.value >= range.to
  }

  /** A chain with one log in every block. */
  function OnePerBlock(): Chain {
    (c: Criteria, n: nat) => [Log(Some(Quantity(n)), 0)]
  }

  lemma OnePerBlockQuery(c: Criteria, from: nat, end: nat)
    ensures Query(OnePerBlock(), c, from, end) == [] <==> end <= from
  {
    if from < end { QueryHolds(OnePerBlock(), c, from, from, end); }
  }

  /** Every chain agrees exactly if the bounds are read alike. */
  lemma AgreesOnEveryChain(names: Naming, params: Value, cutoff: nat)
    requires IsRange(params)
    ensures ReadsAlike(names, params, cutoff) ==> forall chain :: Agrees(names, chain, params, cutoff)
    ensures !ReadsAlike(names, params, cutoff) ==> !Agrees(names, OnePerBlock(), params, cutoff)
  {
    var range, fields, c := ParseParams(params).value, FilterOf(params).value, CriteriaOf(params);
    var from, to := NodeBound(names, fields, "fromBlock"), NodeBound(names, fields, "toBlock");
    BoundsFit(params);
    if range.from >= cutoff && from.Some? && to.Some? {
      OnePerBlockQuery(c, from.value, Min(cutoff, to.value + 1));
    }
    if range.from < cutoff && to.Some? {
      OnePerBlockQuery(c, Max(range.from, Min(to.value + 1, U64_BOUND)), range.to + 1);
    }
  }

  /** Two back ends that share a chain at the cutoff. */
  ghost function ServiceOf(names: Naming, legacyNames: Naming, chain: Chain, cutoff: nat): Service {
    Service(p => if FilterOf(p).Some? then NodeAnswer(legacyNames, chain, p, 0, cutoff) else Parsed(None),
            p => if FilterOf(p).Some? then NodeAnswer(names, chain, p, cutoff, U64_BOUND) else Parsed(None),
            _ => true, cutoff)
  }

  lemma ServiceServes(names: Naming, legacyNames: Naming, chain: Chain, cutoff: nat)
    ensures Serves(ServiceOf(names, legacyNames, chain, cutoff), names, legacyNames, chain)
  {
    var service := ServiceOf(names, legacyNames, chain, cutoff);
    forall params: Value | IsRange(params) ensures ServedAlike(service, names, legacyNames, chain, params) {
    }
  }

  /** The routed answer is one node's, whatever chain the back ends share, exactly when the bounds are read alike. */
  lemma RoutedAgreesAlways(names: Naming, legacyNames: Naming, params: Value, cutoff: nat)
    requires IsRange(params) && cutoff < U64_BOUND
    ensures (forall service, chain ::
               IsChain(chain) && Serves(service, names, legacyNames, chain) && service.cutoff == cutoff ==>
               Handle(service, params) == OneNode(names, chain, params))
       <==> ReadsAlike(names, params, cutoff)
  {
    AgreesOnEveryChain(names, params, cutoff);
    if ReadsAlike(names, params, cutoff) {
      forall service, chain
        | IsChain(chain) && Serves(service, names, legacyNames, chain) && service.cutoff == cutoff
        ensures Handle(service, params) == OneNode(names, chain, params)
      {
        RoutedAgrees(service, names, legacyNames, chain, params);
      }
    } else {
      var chain := OnePerBlock();
      ServiceServes(names, legacyNames, chain, cutoff);
      RoutedAgrees(ServiceOf(names, legacyNames, chain, cutoff), names, legacyNames, chain, params);
    }
  }

  /** A range given by numbers: whatever the cutoff and the criteria, the routed answer is one query over the
      joined chain. */
  lemma RoutedIsOneQuery(service: Service, names: Naming, legacyNames: Naming, chain: Chain, params: Value)
    requires IsChain(chain) && Serves(service, names, legacyNames, chain) && IsRange(params)
             && service.cutoff < U64_BOUND
    requires Explicit(FilterOf(params).value, "fromBlock") && Explicit(FilterOf(params).value, "toBlock")
    ensures var range := ParseParams(params).value;
            && Handle(service, params) == Parsed(Some(Query(chain, CriteriaOf(params), range.from, range.to + 1)))
            && Handle(service, params) == OneNode(names, chain, params)
  {
    BoundsFit(params);
    BoundIsRead(names, FilterOf(params).value, "fromBlock");
    BoundIsRead(names, FilterOf(params).value, "toBlock");
    RoutedAgrees(service, names, legacyNames, chain, params);
  }

  lemma {:induction false} QueryHolds(chain: Chain, c: Criteria, from: nat, n: nat, end: nat)
    requires from <= n < end && chain(c, n) != []
    ensures Query(chain, c, from, end) != []
    decreases end
  {
    if n < end - 1 { QueryHolds(chain, c, from, n, end - 1); }
  }

  /** Where the two differ: a straddling range whose upper bound is a tag is answered up to the head, so a matching
      log above the block the tag names shows up that one node would leave out. */
  lemma TagIsOverread(service: Service, names: Naming, legacyNames: Naming, chain: Chain, params: Value, tagged: nat,
                      n: nat)
    requires IsChain(chain) && Serves(service, names, legacyNames, chain) && IsRange(params)
             && service.cutoff < U64_BOUND
    requires var range := ParseParams(params).value;
             range.from < service.cutoff <= range.to && range.from <= n <= range.to
    requires NodeBound(names, FilterOf(params).value, "toBlock") == Some(tagged) && tagged < n
    requires chain(CriteriaOf(params), n) != []
    ensures Handle(service, params) != OneNode(names, chain, params)
  {
    BoundsFit(params);
    LogPastBound(names, chain, params, service.cutoff, tagged, n);
    RoutedAgrees(service, names, legacyNames, chain, params);
  }

  lemma LogPastBound(names: Naming, chain: Chain, params: Value, cutoff: nat, tagged: nat, n: nat)
    requires IsRange(params) && ParseParams(params).value.from < cutoff <= ParseParams(params).value.to < U64_BOUND
    requires ParseParams(params).value.from <= n <= ParseParams(params).value.to && tagged < n
    requires NodeBound(names, FilterOf(params).value, "toBlock") == Some(tagged) && chain(CriteriaOf(params), n) != []
    ensures !Agrees(names, chain, params, cutoff)
  {
    var range := ParseParams(params).value;
    QueryHolds(chain, CriteriaOf(params), Max(range.from, Min(tagged + 1, U64_BOUND)), n, range.to + 1);
  }

  /** Everything up to the finalized block. */
  function UpToFinalized(): Value {
    Array([Object(map["fromBlock" := Text("earliest"), "toBlock" := Text("finalized")])])
  }

  /** Such a request: it straddles every positive cutoff, and its upper bound is whatever the node calls final. */
  lemma UpToFinalizedReads(names: Naming)
    ensures IsRange(UpToFinalized())
    ensures ParseParams(UpToFinalized()) == Some(Range(0, U64_MAX))
            && CriteriaOf(UpToFinalized()) == Criteria(map[], [])
    ensures NodeBound(names, FilterOf(UpToFinalized()).value, "toBlock") == names(Some(Text("finalized")))
  {
    DistinctNames();
    assert "earliest"[0] == 'e' && "latest"[0] == 'l' && "pending"[0] == 'p' && "safe"[0] == 's'
           && "finalized"[0] == 'f';
    var fields := FilterOf(UpToFinalized()).value;
    assert BoundField(fields, "fromBlock") == 0 && BoundField(fields, "toBlock") == U64_MAX;
    assert fields - {"fromBlock", "toBlock"} == map[];
    assert UpToFinalized().items[1..] == [];
  }


  /** And back ends at which it happens: one log per block, any finalized block below the head. */
  lemma FinalizedIsOverread(names: Naming, legacyNames: Naming, cutoff: nat, finalized: nat)
    requires names(Some(Text("finalized"))) == Some(finalized) && finalized < U64_MAX && 1 <= cutoff < U64_BOUND
    ensures FilterOf(UpToFinalized()).Some?
    ensures var service := ServiceOf(names, legacyNames, OnePerBlock(), cutoff);
            && Serves(service, names, legacyNames, OnePerBlock())
            && Handle(service, UpToFinalized()) != OneNode(names, OnePerBlock(), UpToFinalized())
  {
    UpToFinalizedReads(names);
    ServiceServes(names, legacyNames, OnePerBlock(), cutoff);
    TagIsOverread(ServiceOf(names, legacyNames, OnePerBlock(), cutoff), names, legacyNames, OnePerBlock(),
                  UpToFinalized(), finalized, finalized + 1);
  }
}
