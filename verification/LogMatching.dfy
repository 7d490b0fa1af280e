/** Which logs an event is read from, stated over the positions of the transaction's logs, and the order in which
    the bindings of a rule are visited. */
module LogMatching {
  import opened Prelude
  import opened Wire
  import opened Matcher

  // ---------------------------------------------------------------------------------------------
  // Shape and spelling
  // ---------------------------------------------------------------------------------------------

  ghost function IndexedInputs(inputs: seq<AbiInput>): set<int> {
    set i | 0 <= i < |inputs| && inputs[i].indexed
  }

  /** An anonymous event needs a topic per indexed input, any other its own first topic. */
  ghost predicate HasShape(event: EventDef, log: Log) {
    if event.anonymous then |log.topics| == |IndexedInputs(event.inputs)| else [event.topic0] <= log.topics
  }

  lemma {:induction false} IndexedCountIs(inputs: seq<AbiInput>)
    ensures IndexedCount(inputs) == |IndexedInputs(inputs)|
  {
    if inputs != [] {
      var n := |inputs| - 1;
      var front := inputs[..n];
      IndexedCountIs(front);
      assert IndexedInputs(inputs) == IndexedInputs(front) + if inputs[n].indexed then {n} else {};
    }
  }

  lemma ShapeIs(event: EventDef, log: Log)
    ensures ShapeMatches(event, log) <==> HasShape(event, log)
  {
    IndexedCountIs(event.inputs);
  }

  /** The value of a lower-case hexadecimal digit. */
  function DigitValue(c: Byte): Option<nat> {
    if 48 <= c <= 57 then Some(c - 48) else if 97 <= c <= 102 then Some(c - 87) else None
  }

  /** Characters `i` and `i + 1` are lower-case digits of the byte `b`. */
  ghost predicate SpellsByte(text: Text, i: nat, b: Byte) {
    && i + 1 < |text| && DigitValue(text[i]).Some? && DigitValue(text[i + 1]).Some?
    && b == 16 * DigitValue(text[i]).value + DigitValue(text[i + 1]).value
  }

  /** "0x" and two lower-case digits per byte. */
  ghost predicate Spells(text: Text, a: Address) {
    && |text| == 42 && text[..2] == [48, 120]
    && forall i :: 0 <= i < 20 ==> SpellsByte(text, 2 + 2 * i, a[i])
  }

  lemma {:induction false} HexTextSpells(a: seq<Byte>, i: nat)
    ensures |HexText(a)| == 2 * |a|
    ensures i < |a| ==> SpellsByte(HexText(a), 2 * i, a[i])
  {
    if a != [] {
      HexTextSpells(a[1..], if i == 0 then 0 else i - 1);
      if 0 < i < |a| {
        assert HexText(a)[2 * i] == HexText(a[1..])[2 * (i - 1)];
        assert HexText(a)[2 * i + 1] == HexText(a[1..])[2 * (i - 1) + 1];
      }
    }
  }

  /** The text of an address is its one lower-case spelling. */
  lemma AddressTextIff(a: Address, text: Text)
    ensures Spells(text, a) <==> text == AddressText(a)
  {
    forall i | 0 <= i < 20 ensures SpellsByte(AddressText(a), 2 + 2 * i, a[i]) {
      HexTextSpells(a, i);
    }
    HexTextSpells(a, 0);
    if Spells(text, a) { OneSpelling(a, text, AddressText(a)); }
  }

  lemma OneSpelling(a: Address, text: Text, other: Text)
    requires Spells(text, a) && Spells(other, a)
    ensures text == other
  {
    forall k | 0 <= k < 42 ensures text[k] == other[k] {
      if k < 2 {
        assert text[k] == text[..2][k] && other[k] == other[..2][k];
      } else {
        SameSpelling(a, text, other, k);
      }
    }
  }

  lemma SameSpelling(a: Address, text: Text, other: Text, k: nat)
    requires Spells(text, a) && Spells(other, a) && 2 <= k < 42
    ensures text[k] == other[k]
  {
    var i := (k - 2) / 2;
    assert SpellsByte(text, 2 + 2 * i, a[i]) && SpellsByte(other, 2 + 2 * i, a[i]);
    SameDigits(text, other, 2 + 2 * i, a[i]);
    assert k == 2 + 2 * i || k == 2 + 2 * i + 1;
  }

  lemma SameDigits(text: Text, other: Text, i: nat, b: Byte)
    requires SpellsByte(text, i, b) && SpellsByte(other, i, b)
    ensures text[i] == other[i] && text[i + 1] == other[i + 1]
  {
    var high, low := DigitValue(text[i]).value, DigitValue(text[i + 1]).value;
    var high', low' := DigitValue(other[i]).value, DigitValue(other[i + 1]).value;
    assert high == high' && low == low';
  }

  // ---------------------------------------------------------------------------------------------
  // Candidates of an event
  // ---------------------------------------------------------------------------------------------

  /** `m` is `event` as read from the log at position `l`. */
  ghost predicate ReadAt(lib: Library, event: EventDef, logs: seq<Log>, l: nat, m: Matched) {
    && l < |logs| && m.logIndex == l
    && HasShape(event, logs[l]) && lib.decode(event, logs[l]) == Some(m.params) && Spells(m.address, logs[l].address)
  }

  /** No log has the event's shape and decodes. */
  ghost predicate Unread(lib: Library, event: EventDef, logs: seq<Log>) {
    forall l :: 0 <= l < |logs| && HasShape(event, logs[l]) ==> lib.decode(event, logs[l]) == None
  }

  lemma MatchAtIs(lib: Library, event: EventDef, logs: seq<Log>, l: nat, m: Matched)
    requires l < |logs|
    ensures MatchAt(lib, event, logs, l) == Some(m) <==> ReadAt(lib, event, logs, l, m)
    ensures MatchAt(lib, event, logs, l).None? <==>
            (HasShape(event, logs[l]) ==> lib.decode(event, logs[l]) == None)
  {
    ShapeIs(event, logs[l]);
    AddressTextIff(logs[l].address, m.address);
  }

  /** What is found among the first `n` logs: the event as read from each of them that has its shape and decodes. */
  lemma {:induction false} FindLogsFinds(lib: Library, event: EventDef, logs: seq<Log>, n: nat, m: Matched)
    requires n <= |logs|
    ensures Some(m) in FindLogs(lib, event, logs, n) <==> m.logIndex < n && ReadAt(lib, event, logs, m.logIndex, m)
    ensures None !in FindLogs(lib, event, logs, n)
  {
    if n > 0 {
      FindLogsFinds(lib, event, logs, n - 1, m);
      MatchAtIs(lib, event, logs, n - 1, m);
    }
  }

  /** Candidates are found in log order, one per log. */
  ghost predicate Ascending(row: seq<Option<Matched>>) {
    forall i, j :: 0 <= i < j < |row| ==>
      row[i].Some? && row[j].Some? && row[i].value.logIndex < row[j].value.logIndex
  }

  lemma {:induction false} FindLogsAscends(lib: Library, event: EventDef, logs: seq<Log>, n: nat)
    requires n <= |logs|
    ensures Ascending(FindLogs(lib, event, logs, n))
    ensures forall c :: c in FindLogs(lib, event, logs, n) ==> c.Some? && c.value.logIndex < n
  {
    if n > 0 {
      FindLogsAscends(lib, event, logs, n - 1);
      var found := FindLogs(lib, event, logs, n - 1);
      assert forall i :: 0 <= i < |found| ==> found[i] in found;
    }
  }

  lemma NoneFound(lib: Library, event: EventDef, logs: seq<Log>)
    ensures FindLogs(lib, event, logs, |logs|) == [] <==> Unread(lib, event, logs)
  {
    var found := FindLogs(lib, event, logs, |logs|);
    if found != [] {
      FindLogsAscends(lib, event, logs, |logs|);
      assert found[0] in found;
      FindLogsFinds(lib, event, logs, |logs|, found[0].value);
    } else if l: nat :| l < |logs| && HasShape(event, logs[l]) && lib.decode(event, logs[l]) != None {
      var m := Matched(l, AddressText(logs[l].address), lib.decode(event, logs[l]).value);
      AddressTextIff(logs[l].address, m.address);
      FindLogsFinds(lib, event, logs, |logs|, m);
    }
  }

  /** The candidates of an event, over the positions of the logs: the event as read from each log it can be read
      from, in log order, or one null when there is no such log. */
  lemma CandidatesAre(lib: Library, event: EventDef, logs: seq<Log>)
    ensures var row := CandidatesFor(lib, event, logs);
            && (forall m: Matched :: Some(m) in row <==> ReadAt(lib, event, logs, m.logIndex, m))
            && (None in row <==> Unread(lib, event, logs))
            && Ascending(row)
  {
    var row := CandidatesFor(lib, event, logs);
    NoneFound(lib, event, logs);
    FindLogsAscends(lib, event, logs, |logs|);
    forall m: Matched ensures Some(m) in row <==> ReadAt(lib, event, logs, m.logIndex, m) {
      FindLogsFinds(lib, event, logs, |logs|, m);
    }
  }

  // ---------------------------------------------------------------------------------------------
  // Bindings of a rule
  // ---------------------------------------------------------------------------------------------

  /** Event `q` of the binding is read from its log, or null because no log has it. */
  ghost predicate Picks(lib: Library, event: EventDef, logs: seq<Log>, c: Option<Matched>) {
    match c
    case Some(m) => ReadAt(lib, event, logs, m.logIndex, m)
    case None => Unread(lib, event, logs)
  }

  ghost predicate Binds(lib: Library, rule: Rule, logs: seq<Log>, b: Binding) {
    |b| == |rule.events| && forall q :: 0 <= q < |b| ==> Picks(lib, rule.events[q], logs, b[q])
  }

  lemma BindsIff(lib: Library, rule: Rule, logs: seq<Log>, b: Binding)
    ensures BindingOf(lib, rule, logs, b) <==> Binds(lib, rule, logs, b)
  {
    var table := Candidates(lib, rule, logs);
    if |b| == |rule.events| {
      forall q | 0 <= q < |b| ensures b[q] in table[q] <==> Picks(lib, rule.events[q], logs, b[q]) {
        CandidatesAre(lib, rule.events[q], logs);
      }
    }
  }

  /** The first event the two bindings read differently is read from an earlier log in `b`. */
  ghost predicate Precedes(b: Binding, c: Binding) {
    exists q: nat :: DiffersAt(b, c, q)
  }

  ghost predicate DiffersAt(b: Binding, c: Binding, q: nat) {
    && q < |b| && q < |c| && b[..q] == c[..q]
    && b[q].Some? && c[q].Some? && b[q].value.logIndex < c[q].value.logIndex
  }

  ghost predicate InVisitingOrder(bs: seq<Binding>) {
    forall i, j :: 0 <= i < j < |bs| ==> Precedes(bs[i], bs[j])
  }

  ghost predicate AscendingRows(table: CandidateTable) {
    forall i :: 0 <= i < |table| ==> Ascending(table[i])
  }

  lemma OrderConcat(xs: seq<Binding>, ys: seq<Binding>)
    requires InVisitingOrder(xs) && InVisitingOrder(ys)
    requires forall x, y :: x in xs && y in ys ==> Precedes(x, y)
    ensures InVisitingOrder(xs + ys)
  {
    var all := xs + ys;
    forall i, j | 0 <= i < j < |all| ensures Precedes(all[i], all[j]) {
      if i < |xs| <= j { assert xs[i] in xs && ys[j - |xs|] in ys; }
    }
  }

  lemma {:induction false} AllFromInOrder(table: CandidateTable, current: Binding)
    requires |current| <= |table| && AscendingRows(table)
    requires forall i :: 0 <= i < |current| ==> current[i] in table[i]
    ensures InVisitingOrder(AllFrom(table, current))
    decreases |table| - |current|, 1, 0
  {
    if |current| < |table| { AllFromRowInOrder(table, current, 0); }
  }

  lemma {:induction false} AllFromRowInOrder(table: CandidateTable, current: Binding, k: nat)
    requires |current| < |table| && k <= |table[|current|]| && AscendingRows(table)
    requires forall i :: 0 <= i < |current| ==> current[i] in table[i]
    ensures InVisitingOrder(AllFromRow(table, current, k))
    decreases |table| - |current|, 0, |table[|current|]| - k
  {
    var row := table[|current|];
    if k < |row| {
      var next := current + [row[k]];
      AllFromInOrder(table, next);
      AllFromRowInOrder(table, current, k + 1);
      forall x, y | x in AllFrom(table, next) && y in AllFromRow(table, current, k + 1) ensures Precedes(x, y) {
        AllFromMembers(table, next, x);
        AllFromRowMembers(table, current, k + 1, y);
        RowPrecedes(table, current, k, x, y);
      }
      OrderConcat(AllFrom(table, next), AllFromRow(table, current, k + 1));
    }
  }

  lemma RowPrecedes(table: CandidateTable, current: Binding, k: nat, x: Binding, y: Binding)
    requires |current| < |table| && k < |table[|current|]| && AscendingRows(table) && |x| == |y| == |table|
    requires current + [table[|current|][k]] <= x && current <= y && y[|current|] in table[|current|][k + 1..]
    ensures Precedes(x, y)
  {
    var n := |current|;
    var row := table[n];
    var m :| 0 <= m < |row[k + 1..]| && row[k + 1..][m] == y[n];
    assert row[k + 1 + m] == y[n] && x[n] == row[k];
    assert x[..n] == current == y[..n];
    assert DiffersAt(x, y, n);
  }

  /** The bindings visited for a rule are exactly those it has, each once, ordered by the logs of the first event,
      then of the second, and so on. This determines the list. */
  lemma RuleBindingsInOrder(lib: Library, rule: Rule, logs: seq<Log>)
    ensures forall b :: b in RuleBindings(lib, rule, logs) <==> Binds(lib, rule, logs, b)
    ensures InVisitingOrder(RuleBindings(lib, rule, logs))
  {
    var table := Candidates(lib, rule, logs);
    RuleBindingsAreAll(lib, rule, logs);
    forall b ensures b in RuleBindings(lib, rule, logs) <==> Binds(lib, rule, logs, b) {
      BindsIff(lib, rule, logs, b);
    }
    forall i | 0 <= i < |table| ensures Ascending(table[i]) {
      CandidatesAre(lib, rule.events[i], logs);
    }
    AllFromInOrder(table, []);
  }

  /** A binding carries an item iff one of its events is read from some log. */
  lemma PhysicalIff(lib: Library, rule: Rule, logs: seq<Log>, b: Binding)
    requires Binds(lib, rule, logs, b)
    ensures HasPhysical(b) <==> exists q: nat, l: nat :: ReadsLog(lib, rule, logs, b, q, l)
  {
    if q: nat :| q < |b| && b[q].Some? {
      assert Picks(lib, rule.events[q], logs, b[q]);
      assert ReadsLog(lib, rule, logs, b, q, b[q].value.logIndex);
    }
  }

  /** Event `q` of the binding is read from the log at position `l`. */
  ghost predicate ReadsLog(lib: Library, rule: Rule, logs: seq<Log>, b: Binding, q: nat, l: nat) {
    q < |b| && q < |rule.events| && b[q].Some? && ReadAt(lib, rule.events[q], logs, l, b[q].value)
  }
}
