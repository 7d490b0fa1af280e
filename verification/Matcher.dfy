/** Per-transaction screening: for every rule, all combinations of its events with the transaction's logs
    are visited under a budget; the first satisfying deny wins, satisfying audits are merged per log. */
module Matcher {
  import opened Prelude
  import opened Wire

  datatype RuleAction = Deny | Allow | Audit

  datatype TimeoutAction = DenyOnTimeout | AllowOnTimeout

  function Stricter(a: TimeoutAction, b: TimeoutAction): TimeoutAction {
    if a.DenyOnTimeout? || b.DenyOnTimeout? then DenyOnTimeout else AllowOnTimeout
  }

  datatype Log = Log(address: Address, topics: seq<nat>, data: seq<Byte>)

  datatype AbiInput = AbiInput(name: Text, indexed: bool)

  datatype EventDef = EventDef(varName: Text, topic0: nat, anonymous: bool, inputs: seq<AbiInput>)

  datatype Rule = Rule(id: Text, contractAddress: Option<Address>, origin: Option<Address>, events: seq<EventDef>,
                       auditTypes: seq<Text>, condition: Json, action: RuleAction, timeoutAction: TimeoutAction)

  datatype Input = Input(txHash: nat, origin: Address, txTo: Option<Address>, nonce: nat, value: nat, blockHeight: nat,
                         logs: seq<Log>)

  /** One event of a rule found in one physical log. */
  datatype Matched = Matched(logIndex: nat, address: Text, params: map<Text, Json>)

  /** One choice per event of the rule; `None` binds the event's variables to null. */
  type Binding = seq<Option<Matched>>

  /** The transaction-level variables a condition can name. Hash and block height are not among them. */
  datatype TxVars = TxVars(contractAddress: Option<Address>, origin: Address, value: nat, nonce: nat)

  function VarsOf(input: Input): TxVars {
    TxVars(input.txTo, input.origin, input.value, input.nonce)
  }

  /** ABI decoding and condition evaluation are library code: every result holds for any of them. */
  datatype Library = Library(decode: (EventDef, Log) -> Option<map<Text, Json>>, holds: (Rule, TxVars, Binding) -> bool)

  datatype MatchOutcome = Allowed | Denied | Audited(actions: Actions, timeoutAction: TimeoutAction)

  datatype MatchError = CountOverflow(rule: Text) | BudgetExceeded(rule: Text, attempted: nat, limit: nat)

  // ---------------------------------------------------------------------------------------------
  // Candidates
  // ---------------------------------------------------------------------------------------------

  function IndexedCount(inputs: seq<AbiInput>): nat {
    if inputs == [] then 0
    else IndexedCount(inputs[..|inputs| - 1]) + if inputs[|inputs| - 1].indexed then 1 else 0
  }

  predicate ShapeMatches(event: EventDef, log: Log) {
    if event.anonymous then |log.topics| == IndexedCount(event.inputs)
    else |log.topics| > 0 && log.topics[0] == event.topic0
  }

  /** Lower-case hexadecimal spelling of an address. */
  function HexDigit(n: nat): Byte
    requires n < 16
  {
    if n < 10 then 48 + n else 87 + n
  }

  function HexText(a: seq<Byte>): Text {
    if a == [] then [] else [HexDigit(a[0] / 16), HexDigit(a[0] % 16)] + HexText(a[1..])
  }

  function AddressText(a: Address): Text {
    [48, 120] + HexText(a)
  }

  /** The event as decoded from log `i`, if shape and decoding agree. */
  function MatchAt(lib: Library, event: EventDef, logs: seq<Log>, i: nat): Option<Matched>
    requires i < |logs|
  {
    if ShapeMatches(event, logs[i]) then
      match lib.decode(event, logs[i])
      case Some(params) => Some(Matched(i, AddressText(logs[i].address), params))
      case None => None
    else None
  }

  /** Every successfully decoded log for an event, in log order, among the first `n` logs. */
  function FindLogs(lib: Library, event: EventDef, logs: seq<Log>, n: nat): seq<Option<Matched>>
    requires n <= |logs|
  {
    if n == 0 then [] else
      FindLogs(lib, event, logs, n - 1)
      + if MatchAt(lib, event, logs, n - 1).Some? then [MatchAt(lib, event, logs, n - 1)] else []
  }

  function CandidatesFor(lib: Library, event: EventDef, logs: seq<Log>): (r: seq<Option<Matched>>)
    ensures r != []
  {
    var found := FindLogs(lib, event, logs, |logs|);
    if found == [] then [None] else found
  }

  type CandidateTable = seq<seq<Option<Matched>>>

  function Candidates(lib: Library, rule: Rule, logs: seq<Log>): (r: CandidateTable)
    ensures |r| == |rule.events|
    ensures forall i :: 0 <= i < |r| ==> r[i] == CandidatesFor(lib, rule.events[i], logs)
  {
    seq(|rule.events|, i requires 0 <= i < |rule.events| => CandidatesFor(lib, rule.events[i], logs))
  }

  // ---------------------------------------------------------------------------------------------
  // Counting and visiting bindings
  // ---------------------------------------------------------------------------------------------

  function Product(table: CandidateTable): nat {
    if table == [] then 1 else |table[0]| * Product(table[1..])
  }

  /** `try_fold` with `checked_mul` over 64-bit counts. */
  function CheckedProduct(acc: nat, table: CandidateTable): Option<nat>
    decreases table
  {
    if table == [] then Some(acc)
    else if acc * |table[0]| >= U64_BOUND then None
    else CheckedProduct(acc * |table[0]|, table[1..])
  }

  ghost predicate NoEmptyRow(table: CandidateTable) {
    forall i :: 0 <= i < |table| ==> table[i] != []
  }

  lemma {:induction false} ProductPositive(table: CandidateTable)
    requires NoEmptyRow(table)
    ensures Product(table) >= 1
  {
    if table != [] {
      ProductPositive(table[1..]);
      assert |table[0]| * Product(table[1..]) >= 1 * 1 by { MulMonotone(1, |table[0]|, 1, Product(table[1..])); }
    }
  }

  lemma MulMonotone(a: nat, b: nat, c: nat, d: nat)
    requires a <= b && c <= d
    ensures a * c <= b * d
  {
    assert a * c <= b * c;
    assert b * c <= b * d;
  }

  lemma MulAssociative(a: nat, b: nat, c: nat)
    ensures a * (b * c) == (a * b) * c
  {
  }

  /** Checked counting overflows exactly when the true product does not fit 64 bits. */
  lemma {:induction false} CheckedProductExact(acc: nat, table: CandidateTable)
    requires 1 <= acc < U64_BOUND && NoEmptyRow(table)
    ensures CheckedProduct(acc, table) == if acc * Product(table) < U64_BOUND then Some(acc * Product(table)) else None
    decreases table
  {
    if table != [] {
      var rest, n := table[1..], |table[0]|;
      ProductPositive(rest);
      MulAssociative(acc, n, Product(rest));
      if acc * n >= U64_BOUND {
        MulMonotone(U64_BOUND, acc * n, 1, Product(rest));
      } else {
        MulMonotone(1, acc, 1, n);
        CheckedProductExact(acc * n, rest);
      }
    }
  }

  /** All complete bindings extending `current`, in visiting order. */
  function AllFrom(table: CandidateTable, current: Binding): seq<Binding>
    requires |current| <= |table|
    decreases |table| - |current|, 1, 0
  {
    if |current| == |table| then [current] else AllFromRow(table, current, 0)
  }

  function AllFromRow(table: CandidateTable, current: Binding, k: nat): seq<Binding>
    requires |current| < |table| && k <= |table[|current|]|
    decreases |table| - |current|, 0, |table[|current|]| - k
  {
    var row := table[|current|];
    if k == |row| then [] else AllFrom(table, current + [row[k]]) + AllFromRow(table, current, k + 1)
  }

  /** A binding picks one candidate for every event. */
  ghost predicate IsBinding(table: CandidateTable, b: Binding) {
    |b| == |table| && forall i :: 0 <= i < |b| ==> b[i] in table[i]
  }

  lemma {:induction false} AllFromCount(table: CandidateTable, current: Binding)
    requires |current| <= |table|
    ensures |AllFrom(table, current)| == Product(table[|current|..])
    decreases |table| - |current|, 1, 0
  {
    if |current| < |table| {
      AllFromRowCount(table, current, 0);
      assert table[|current|..][1..] == table[|current| + 1..];
    }
  }

  lemma {:induction false} AllFromRowCount(table: CandidateTable, current: Binding, k: nat)
    requires |current| < |table| && k <= |table[|current|]|
    ensures |AllFromRow(table, current, k)| == (|table[|current|]| - k) * Product(table[|current| + 1..])
    decreases |table| - |current|, 0, |table[|current|]| - k
  {
    var row, p := table[|current|], Product(table[|current| + 1..]);
    if k < |row| {
      AllFromCount(table, current + [row[k]]);
      AllFromRowCount(table, current, k + 1);
      assert (|row| - k) * p == p + (|row| - (k + 1)) * p;
    }
  }

  /** Visiting covers exactly the Cartesian product. */
  lemma {:induction false} AllFromMembers(table: CandidateTable, current: Binding, b: Binding)
    requires |current| <= |table|
    requires forall i :: 0 <= i < |current| ==> current[i] in table[i]
    ensures b in AllFrom(table, current) <==> IsBinding(table, b) && current <= b
    decreases |table| - |current|, 1, 0
  {
    if |current| < |table| {
      AllFromRowMembers(table, current, 0, b);
      if IsBinding(table, b) && current <= b {
        var k :| 0 <= k < |table[|current|]| && table[|current|][k] == b[|current|];
      }
    } else if IsBinding(table, b) && current <= b {
      assert b == current;
    }
  }

  lemma {:induction false} AllFromRowMembers(table: CandidateTable, current: Binding, k: nat, b: Binding)
    requires |current| < |table| && k <= |table[|current|]|
    requires forall i :: 0 <= i < |current| ==> current[i] in table[i]
    ensures b in AllFromRow(table, current, k) <==>
            IsBinding(table, b) && current <= b && b[|current|] in table[|current|][k..]
    decreases |table| - |current|, 0, |table[|current|]| - k
  {
    var row := table[|current|];
    if k < |row| {
      var next := current + [row[k]];
      AllFromMembers(table, next, b);
      AllFromRowMembers(table, current, k + 1, b);
      assert row[k..] == [row[k]] + row[k + 1..];
      if IsBinding(table, b) && current <= b && b[|current|] == row[k] {
        assert next <= b;
      }
    }
  }

  /** The bindings of a rule over the logs, as a set-like predicate over the whole product. */
  ghost predicate BindingOf(lib: Library, rule: Rule, logs: seq<Log>, b: Binding) {
    IsBinding(Candidates(lib, rule, logs), b)
  }

  function RuleBindings(lib: Library, rule: Rule, logs: seq<Log>): seq<Binding> {
    AllFrom(Candidates(lib, rule, logs), [])
  }

  lemma RuleBindingsAreAll(lib: Library, rule: Rule, logs: seq<Log>)
    ensures |RuleBindings(lib, rule, logs)| == Product(Candidates(lib, rule, logs))
    ensures forall b :: b in RuleBindings(lib, rule, logs) <==> BindingOf(lib, rule, logs, b)
  {
    var table := Candidates(lib, rule, logs);
    AllFromCount(table, []);
    assert table[0..] == table;
    forall b ensures b in AllFrom(table, []) <==> IsBinding(table, b) {
      AllFromMembers(table, [], b);
    }
  }

  // ---------------------------------------------------------------------------------------------
  // Merging audits
  // ---------------------------------------------------------------------------------------------

  predicate Applies(rule: Rule, input: Input) {
    && (rule.contractAddress.Some? ==> input.txTo == rule.contractAddress)
    && (rule.origin.Some? ==> input.origin == rule.origin.value)
  }

  predicate HasPhysical(b: Binding) {
    exists i :: 0 <= i < |b| && b[i].Some?
  }

  /** The action items a binding carries, with the log each came from, in event order. */
  function ItemsOf(rule: Rule, b: Binding, n: nat): seq<(nat, ActionItem)>
    requires n <= |b| && n <= |rule.events|
  {
    if n == 0 then [] else
      ItemsOf(rule, b, n - 1)
      + match b[n - 1]
        case Some(m) => [(m.logIndex, ActionItem(rule.events[n - 1].varName, m.address, m.params))]
        case None => []
  }

  function BindingItems(rule: Rule, b: Binding): seq<(nat, ActionItem)> {
    ItemsOf(rule, b, Min(|b|, |rule.events|))
  }

  type ByLog = map<nat, ActionItem>

  /** Adds items in order; the first item for a log stays. */
  function AddFirst(byLog: ByLog, items: seq<(nat, ActionItem)>): ByLog {
    if items == [] then byLog
    else
      var front, last := items[..|items| - 1], items[|items| - 1];
      var sofar := AddFirst(byLog, front);
      if last.0 in sofar then sofar else sofar[last.0 := last.1]
  }

  datatype Acc = Acc(actions: map<Text, ByLog>, hasAudit: bool, timeoutAction: TimeoutAction)

  const NOTHING_YET: Acc := Acc(map[], false, AllowOnTimeout)

  function LogsFor(acc: Acc, t: Text): ByLog {
    if t in acc.actions then acc.actions[t] else map[]
  }

  /** Merges one satisfying audit binding into every audit type of its rule. */
  function Merge(acc: Acc, rule: Rule, b: Binding): Acc {
    Acc(map t | t in acc.actions.Keys + (set t | t in rule.auditTypes) ::
          if t in rule.auditTypes then AddFirst(LogsFor(acc, t), BindingItems(rule, b)) else acc.actions[t],
        true,
        Stricter(acc.timeoutAction, rule.timeoutAction))
  }

  /** One visit: `None` is the immediate deny. */
  function Visit(lib: Library, rule: Rule, input: Input, acc: Acc, b: Binding): Option<Acc> {
    if !lib.holds(rule, VarsOf(input), b) then Some(acc)
    else
      match rule.action
      case Deny => None
      case Allow => Some(acc)
      case Audit => Some(if HasPhysical(b) then Merge(acc, rule, b) else acc)
  }

  function VisitAll(lib: Library, rule: Rule, input: Input, acc: Acc, bs: seq<Binding>): Option<Acc>
    decreases |bs|
  {
    if bs == [] then Some(acc)
    else
      match Visit(lib, rule, input, acc, bs[0])
      case None => None
      case Some(acc') => VisitAll(lib, rule, input, acc', bs[1..])
  }

  lemma {:induction false} VisitAllConcat(lib: Library, rule: Rule, input: Input, acc: Acc, xs: seq<Binding>,
                                          ys: seq<Binding>)
    ensures VisitAll(lib, rule, input, acc, xs + ys) ==
            match VisitAll(lib, rule, input, acc, xs)
            case None => None
            case Some(mid) => VisitAll(lib, rule, input, mid, ys)
    decreases |xs|
  {
    if xs == [] {
      assert xs + ys == ys;
    } else {
      assert (xs + ys)[1..] == xs[1..] + ys;
      var first := Visit(lib, rule, input, acc, xs[0]);
      if first.Some? {
        VisitAllConcat(lib, rule, input, first.value, xs[1..], ys);
      }
    }
  }

  // ---------------------------------------------------------------------------------------------
  // The imperative matcher
  // ---------------------------------------------------------------------------------------------

  method MergeAudit(acc: Acc, rule: Rule, b: Binding) returns (acc': Acc)
    ensures acc' == Merge(acc, rule, b)
  {
    var actions := acc.actions;
    var items := BindingItems(rule, b);
    var n := 0;
    while n < |rule.auditTypes|
      invariant 0 <= n <= |rule.auditTypes|
      invariant MergedInto(acc, rule.auditTypes[..n], items, actions)
    {
      var t := rule.auditTypes[n];
      var byLog := if t in actions then actions[t] else map[];
      var merged := AddItems(byLog, items);
      assert rule.auditTypes[..n + 1] == rule.auditTypes[..n] + [t];
      MergedStep(acc, rule.auditTypes[..n], items, actions, t);
      actions := actions[t := merged];
      n := n + 1;
    }
    assert rule.auditTypes[..n] == rule.auditTypes;
    acc' := Acc(actions, true, Stricter(acc.timeoutAction, rule.timeoutAction));
  }

  /** The items have been added to every type in `types`, and to no other. */
  ghost predicate MergedInto(acc: Acc, types: seq<Text>, items: seq<(nat, ActionItem)>, actions: map<Text, ByLog>) {
    && actions.Keys == acc.actions.Keys + (set t | t in types)
    && forall t :: t in actions ==>
      actions[t] == if t in types then AddFirst(LogsFor(acc, t), items) else acc.actions[t]
  }

  lemma MergedStep(acc: Acc, types: seq<Text>, items: seq<(nat, ActionItem)>, actions: map<Text, ByLog>, t: Text)
    requires MergedInto(acc, types, items, actions)
    ensures MergedInto(acc, types + [t], items,
                       actions[t := AddFirst(if t in actions then actions[t] else map[], items)])
  {
    if t in types { AddFirstAgain(LogsFor(acc, t), items); }
  }

  method AddItems(byLog: ByLog, items: seq<(nat, ActionItem)>) returns (merged: ByLog)
    ensures merged == AddFirst(byLog, items)
  {
    merged := byLog;
    var n := 0;
    while n < |items|
      invariant 0 <= n <= |items|
      invariant merged == AddFirst(byLog, items[..n])
    {
      assert items[..n + 1][..n] == items[..n];
      if items[n].0 !in merged { merged := merged[items[n].0 := items[n].1]; }
      n := n + 1;
    }
    assert items[..n] == items;
  }

  ghost predicate Mentions(items: seq<(nat, ActionItem)>, l: nat) {
    exists k :: 0 <= k < |items| && items[k].0 == l
  }

  lemma MentionsSnoc(items: seq<(nat, ActionItem)>, l: nat)
    requires items != []
    ensures Mentions(items, l) <==> Mentions(items[..|items| - 1], l) || items[|items| - 1].0 == l
  {
    var front := items[..|items| - 1];
    if k :| 0 <= k < |front| && front[k].0 == l { assert items[k].0 == l; }
    if k :| 0 <= k < |items| && items[k].0 == l { assert k < |front| ==> front[k].0 == l; }
  }

  lemma {:induction false} AddFirstKeys(byLog: ByLog, items: seq<(nat, ActionItem)>, l: nat)
    ensures l in AddFirst(byLog, items) <==> l in byLog || Mentions(items, l)
    ensures l in byLog ==> AddFirst(byLog, items)[l] == byLog[l]
    decreases |items|
  {
    if items != [] {
      AddFirstKeys(byLog, items[..|items| - 1], l);
      MentionsSnoc(items, l);
    }
  }

  /** Merging the same items twice changes nothing: a repeated audit type is harmless. */
  lemma AddFirstAgain(byLog: ByLog, items: seq<(nat, ActionItem)>)
    ensures AddFirst(AddFirst(byLog, items), items) == AddFirst(byLog, items)
  {
    var once := AddFirst(byLog, items);
    forall l: nat
      ensures l in AddFirst(once, items) <==> l in once
      ensures l in once ==> AddFirst(once, items)[l] == once[l]
    {
      AddFirstKeys(byLog, items, l);
      AddFirstKeys(once, items, l);
    }
  }

  /** Visits every completion of `current` in candidate order without building the product. */
  method VisitBindings(lib: Library, rule: Rule, input: Input, table: CandidateTable, current: Binding, acc: Acc)
    returns (result: Option<Acc>, visited: nat)
    requires |current| <= |table|
    ensures result == VisitAll(lib, rule, input, acc, AllFrom(table, current))
    ensures visited <= |AllFrom(table, current)|
    ensures result.Some? ==> visited == |AllFrom(table, current)|
    decreases |table| - |current|
  {
    if |current| == |table| {
      if !lib.holds(rule, VarsOf(input), current) { return Some(acc), 1; }
      match rule.action
      case Deny => return None, 1;
      case Allow => return Some(acc), 1;
      case Audit =>
        if !HasPhysical(current) { return Some(acc), 1; }
        var merged := MergeAudit(acc, rule, current);
        return Some(merged), 1;
    }
    var row := table[|current|];
    var sofar, k := acc, 0;
    visited := 0;
    while k < |row|
      invariant 0 <= k <= |row|
      invariant VisitAll(lib, rule, input, acc, AllFrom(table, current)) ==
                VisitAll(lib, rule, input, sofar, AllFromRow(table, current, k))
      invariant visited + |AllFromRow(table, current, k)| == |AllFrom(table, current)|
    {
      var next := current + [row[k]];
      var step, more := VisitBindings(lib, rule, input, table, next, sofar);
      VisitAllConcat(lib, rule, input, sofar, AllFrom(table, next), AllFromRow(table, current, k + 1));
      visited := visited + more;
      if step.None? { return None, visited; }
      sofar := step.value;
      k := k + 1;
    }
    result := Some(sofar);
  }

  // ---------------------------------------------------------------------------------------------
  // Outcome
  // ---------------------------------------------------------------------------------------------

  predicate IsLeast(s: set<nat>, m: nat) {
    m in s && forall x :: x in s ==> m <= x
  }

  lemma {:induction false} LeastExists(s: set<nat>)
    requires s != {}
    ensures exists m :: IsLeast(s, m)
  {
    var a :| a in s;
    if s - {a} == {} {
      assert s == {a};
      assert IsLeast(s, a);
    } else {
      LeastExists(s - {a});
      var m :| IsLeast(s - {a}, m);
      LeastWith(s, a, m);
    }
  }

  lemma LeastWith(s: set<nat>, a: nat, m: nat)
    requires a in s && IsLeast(s - {a}, m)
    ensures IsLeast(s, Min(a, m))
  {
    forall x | x in s ensures Min(a, m) <= x {
      assert x == a || x in s - {a};
    }
  }

  lemma LeastUnique(s: set<nat>, a: nat, b: nat)
    requires IsLeast(s, a) && IsLeast(s, b)
    ensures a == b
  {
  }

  function Least(s: set<nat>): (m: nat)
    requires s != {}
    ensures IsLeast(s, m)
  {
    LeastExists(s);
    assert forall a, b :: IsLeast(s, a) && IsLeast(s, b) ==> a == b by {
      forall a, b | IsLeast(s, a) && IsLeast(s, b) ensures a == b { LeastUnique(s, a, b); }
    }
    var m :| m in s && IsLeast(s, m);
    m
  }

  ghost predicate AscendingList(s: set<nat>, r: seq<nat>) {
    && |r| == |s|
    && (forall x :: x in r <==> x in s)
    && (forall i, j :: 0 <= i < j < |r| ==> r[i] < r[j])
  }

  lemma PrependLeast(s: set<nat>, m: nat, rest: seq<nat>)
    requires IsLeast(s, m) && AscendingList(s - {m}, rest)
    ensures AscendingList(s, [m] + rest)
  {
    forall i | 0 <= i < |rest| ensures m < rest[i] {
      assert rest[i] in rest;
    }
  }

  /** The physical logs of a set in ascending order. */
  function InOrder(s: set<nat>): (r: seq<nat>)
    ensures AscendingList(s, r)
    decreases |s|
  {
    if s == {} then [] else
      var m := Least(s);
      var rest := InOrder(s - {m});
      PrependLeast(s, m, rest);
      [m] + rest
  }

  lemma ListedAreIn(s: set<nat>, r: seq<nat>)
    requires AscendingList(s, r)
    ensures forall k :: 0 <= k < |r| ==> r[k] in s
  {
    forall k | 0 <= k < |r| ensures r[k] in s {
      assert r[k] in r;
    }
  }

  function ItemsInOrder(byLog: ByLog): (r: seq<ActionItem>)
    ensures |r| == |byLog.Keys|
    ensures forall k :: 0 <= k < |r| ==> InOrder(byLog.Keys)[k] in byLog && r[k] == byLog[InOrder(byLog.Keys)[k]]
  {
    var order := InOrder(byLog.Keys);
    assert forall k :: 0 <= k < |order| ==> order[k] in byLog by { ListedAreIn(byLog.Keys, order); }
    seq(|order|, k requires 0 <= k < |order| => byLog[order[k]])
  }

  function Conclude(acc: Acc): MatchOutcome {
    if acc.hasAudit then Audited(map t | t in acc.actions :: ItemsInOrder(acc.actions[t]), acc.timeoutAction)
    else Allowed
  }

  /** What one rule does: end the evaluation, or hand on the bindings counted so far and the accumulator. */
  datatype RuleResult = Stop(result: Result<MatchOutcome, MatchError>) | GoOn(count: nat, acc: Acc)

  function EvaluateOne(lib: Library, rule: Rule, input: Input, limit: nat, count: nat, acc: Acc): RuleResult {
    if !Applies(rule, input) then GoOn(count, acc)
    else
      var table := Candidates(lib, rule, input.logs);
      match CheckedProduct(1, table)
      case None => Stop(Err(CountOverflow(rule.id)))
      case Some(n) =>
        if count + n >= U64_BOUND then Stop(Err(CountOverflow(rule.id)))
        else if count + n > limit then Stop(Err(BudgetExceeded(rule.id, count + n, limit)))
        else
          match VisitAll(lib, rule, input, acc, AllFrom(table, []))
          case None => Stop(Ok(Denied))
          case Some(acc') => GoOn(count + n, acc')
  }

  function EvaluateFrom(lib: Library, rules: seq<Rule>, input: Input, limit: nat, i: nat, count: nat, acc: Acc)
    : Result<MatchOutcome, MatchError>
    requires i <= |rules|
    decreases |rules| - i
  {
    if i == |rules| then Ok(Conclude(acc))
    else
      match EvaluateOne(lib, rules[i], input, limit, count, acc)
      case Stop(result) => result
      case GoOn(count', acc') => EvaluateFrom(lib, rules, input, limit, i + 1, count', acc')
  }

  /** What screening a transaction against a rule snapshot yields. */
  function TryEvaluate(lib: Library, rules: seq<Rule>, input: Input, limit: nat): Result<MatchOutcome, MatchError> {
    EvaluateFrom(lib, rules, input, limit, 0, 0, NOTHING_YET)
  }

  /** A budget error fails closed. */
  function Evaluate(lib: Library, rules: seq<Rule>, input: Input, limit: nat): MatchOutcome {
    match TryEvaluate(lib, rules, input, limit)
    case Ok(outcome) => outcome
    case Err(_) => Denied
  }

  /** Bindings of the applicable rules among the first `n`. */
  function Total(lib: Library, rules: seq<Rule>, input: Input, n: nat): nat
    requires n <= |rules|
  {
    if n == 0 then 0
    else
      Total(lib, rules, input, n - 1)
      + if Applies(rules[n - 1], input) then Product(Candidates(lib, rules[n - 1], input.logs)) else 0
  }

  /** One applicable rule under the budget. */
  method EvaluateRule(lib: Library, rule: Rule, input: Input, limit: nat, count: nat, acc: Acc)
    returns (r: RuleResult, visited: nat)
    requires Applies(rule, input) && count <= limit
    ensures r == EvaluateOne(lib, rule, input, limit, count, acc) && count + visited <= limit
    ensures r.Stop? ==> r.result.Err? || r.result == Ok(Denied)
    ensures r.GoOn? ==> r.count == count + visited && visited == Product(Candidates(lib, rule, input.logs))
  {
    var table := Candidates(lib, rule, input.logs);
    var counted := CheckedProduct(1, table);
    CheckedProductExact(1, table);
    if counted.None? || count + counted.value >= U64_BOUND { return Stop(Err(CountOverflow(rule.id))), 0; }
    if count + counted.value > limit {
      return Stop(Err(BudgetExceeded(rule.id, count + counted.value, limit))), 0;
    }
    var step;
    step, visited := VisitBindings(lib, rule, input, table, [], acc);
    RuleBindingsAreAll(lib, rule, input.logs);
    r := if step.None? then Stop(Ok(Denied)) else GoOn(count + counted.value, step.value);
  }

  method EvaluateChecked(lib: Library, rules: seq<Rule>, input: Input, limit: nat)
    returns (result: Result<MatchOutcome, MatchError>, visited: nat)
    ensures result == TryEvaluate(lib, rules, input, limit)
    ensures visited <= limit
    ensures result.Ok? && !result.value.Denied? ==> visited == Total(lib, rules, input, |rules|) <= limit
  {
    var acc, i := NOTHING_YET, 0;
    visited := 0;
    while i < |rules|
      invariant 0 <= i <= |rules|
      invariant TryEvaluate(lib, rules, input, limit) == EvaluateFrom(lib, rules, input, limit, i, visited, acc)
      invariant visited == Total(lib, rules, input, i) && visited <= limit
    {
      if Applies(rules[i], input) {
        var r, more := EvaluateRule(lib, rules[i], input, limit, visited, acc);
        visited := visited + more;
        if r.Stop? { return r.result, visited; }
        acc := r.acc;
      }
      i := i + 1;
    }
    result := Ok(Conclude(acc));
  }
}
