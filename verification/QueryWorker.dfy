/** The adjudication poll: rows of a response are filtered by the in-flight snapshot, deduplicated by
    priority, and applied under one lock. */
module QueryWorker {
  import opened Prelude
  import opened Lifecycle
  import opened Pool
  import opened FilterSteps
  import opened FilterMoves
  import opened FilterHandle

  /** A response row; `None` is a hash that does not parse. */
  datatype Row = Row(hash: Option<Hash>, answer: Answer)

  type Tokens = map<Hash, nat>

  /** Per hash, the lifecycle asked about and the row that won. */
  type Chosen = map<Hash, (nat, Answer)>

  function Priority(a: Answer): nat
    requires !a.SaysOther?
  {
    match a
    case SaysDenied => 2
    case SaysOutdated => 2
    case SaysApproved => 1
    case SaysPending => 0
  }

  ghost predicate Relevant(rows: seq<Row>, h: Hash, i: nat) {
    i < |rows| && rows[i].hash == Some(h) && !rows[i].answer.SaysOther?
  }

  /** Row `i` wins for `h`: nothing earlier is as strong, nothing later is stronger. */
  ghost predicate Wins(rows: seq<Row>, h: Hash, i: nat) {
    && Relevant(rows, h, i)
    && (forall j: nat :: j < i && Relevant(rows, h, j) ==> Priority(rows[j].answer) < Priority(rows[i].answer))
    && (forall j: nat :: i <= j && Relevant(rows, h, j) ==> Priority(rows[j].answer) <= Priority(rows[i].answer))
  }

  /** The selected answer for one hash. */
  ghost predicate Selected(tokens: Tokens, rows: seq<Row>, h: Hash, chosen: Chosen) {
    && (h in chosen ==> h in tokens && chosen[h].0 == tokens[h])
    && (h in chosen ==> exists i: nat :: Wins(rows, h, i) && chosen[h].1 == rows[i].answer)
    && (h !in chosen && h in tokens ==> forall i: nat :: !Relevant(rows, h, i))
  }

  ghost predicate Selection(tokens: Tokens, rows: seq<Row>, chosen: Chosen) {
    forall h: Hash :: Selected(tokens, rows, h, chosen)
  }

  lemma NothingSelected(tokens: Tokens)
    ensures Selection(tokens, [], map[])
  {
    forall h: Hash ensures Selected(tokens, [], h, map[]) {
    }
  }

  lemma RelevantSnoc(rows: seq<Row>, row: Row, h: Hash, i: nat)
    requires i < |rows|
    ensures Relevant(rows + [row], h, i) <==> Relevant(rows, h, i)
  {
  }

  /** A further row for another hash, or a weaker one, changes nothing. */
  lemma StillWins(rows: seq<Row>, row: Row, h: Hash, i: nat)
    requires Wins(rows, h, i)
    requires row.hash == Some(h) && !row.answer.SaysOther? ==> Priority(row.answer) <= Priority(rows[i].answer)
    ensures Wins(rows + [row], h, i) && (rows + [row])[i] == rows[i]
  {
    var all := rows + [row];
    forall j: nat | Relevant(all, h, j)
      ensures j < i ==> Priority(all[j].answer) < Priority(all[i].answer)
      ensures Priority(all[j].answer) <= Priority(all[i].answer)
    {
      if j < |rows| { RelevantSnoc(rows, row, h, j); assert all[j] == rows[j]; }
    }
  }

  lemma NowWins(rows: seq<Row>, row: Row, h: Hash)
    requires row.hash == Some(h) && !row.answer.SaysOther?
    requires forall j: nat :: Relevant(rows, h, j) ==> Priority(rows[j].answer) < Priority(row.answer)
    ensures Wins(rows + [row], h, |rows|)
  {
    var all := rows + [row];
    forall j: nat | Relevant(all, h, j)
      ensures j < |rows| ==> Priority(all[j].answer) < Priority(row.answer)
      ensures j >= |rows| ==> Priority(all[j].answer) <= Priority(row.answer)
    {
      if j < |rows| { RelevantSnoc(rows, row, h, j); assert all[j] == rows[j]; }
    }
  }

  lemma KeepSelected(tokens: Tokens, rows: seq<Row>, row: Row, h: Hash, chosen: Chosen)
    requires Selected(tokens, rows, h, chosen)
    requires row.hash == Some(h) && !row.answer.SaysOther? && h in tokens ==>
             h in chosen && !chosen[h].1.SaysOther? && Priority(row.answer) <= Priority(chosen[h].1)
    ensures Selected(tokens, rows + [row], h, chosen)
  {
    if h in chosen {
      var i: nat :| Wins(rows, h, i) && chosen[h].1 == rows[i].answer;
      StillWins(rows, row, h, i);
    } else if h in tokens {
      forall i: nat ensures !Relevant(rows + [row], h, i) {
        if i < |rows| { RelevantSnoc(rows, row, h, i); }
      }
    }
  }

  lemma ReplaceSelected(tokens: Tokens, rows: seq<Row>, row: Row, h: Hash, chosen: Chosen)
    requires Selected(tokens, rows, h, chosen) && h in tokens && row.hash == Some(h) && !row.answer.SaysOther?
    requires h in chosen ==> !chosen[h].1.SaysOther? && Priority(row.answer) > Priority(chosen[h].1)
    ensures Selected(tokens, rows + [row], h, chosen[h := (tokens[h], row.answer)])
  {
    if h in chosen {
      var i: nat :| Wins(rows, h, i) && chosen[h].1 == rows[i].answer;
      forall j: nat | Relevant(rows, h, j) ensures Priority(rows[j].answer) < Priority(row.answer) {
      }
    }
    NowWins(rows, row, h);
    assert (rows + [row])[|rows|] == row;
  }

  lemma SelectionSnoc(tokens: Tokens, rows: seq<Row>, row: Row, chosen: Chosen, chosen': Chosen)
    requires Selection(tokens, rows, chosen)
    requires forall h :: h in chosen ==> !chosen[h].1.SaysOther?
    requires if row.hash.Some? && row.hash.value in tokens && !row.answer.SaysOther?
                && (row.hash.value in chosen ==> Priority(row.answer) > Priority(chosen[row.hash.value].1))
             then chosen' == chosen[row.hash.value := (tokens[row.hash.value], row.answer)] else chosen' == chosen
    ensures Selection(tokens, rows + [row], chosen')
  {
    forall h: Hash ensures Selected(tokens, rows + [row], h, chosen') {
      assert Selected(tokens, rows, h, chosen);
      if chosen' != chosen && row.hash == Some(h) {
        ReplaceSelected(tokens, rows, row, h, chosen);
      } else {
        KeepSelected(tokens, rows, row, h, chosen);
        assert h in chosen' <==> h in chosen;
        assert h in chosen ==> chosen'[h] == chosen[h];
      }
    }
  }

  /** Parses, filters and deduplicates a response outside the lock. */
  method SelectRows(tokens: Tokens, rows: seq<Row>) returns (chosen: Chosen)
    ensures Selection(tokens, rows, chosen)
  {
    chosen := map[];
    NothingSelected(tokens);
    var relevant: map<Hash, (nat, nat, Answer)> := map[];
    var n := 0;
    while n < |rows|
      invariant 0 <= n <= |rows|
      invariant Selection(tokens, rows[..n], chosen)
      invariant relevant.Keys == chosen.Keys
      invariant forall h :: h in chosen ==>
                !chosen[h].1.SaysOther? && relevant[h] == (Priority(chosen[h].1), chosen[h].0, chosen[h].1)
    {
      var row := rows[n];
      assert rows[..n + 1] == rows[..n] + [row];
      ghost var before := chosen;
      n := n + 1;
      if row.hash.Some? && row.hash.value in tokens && !row.answer.SaysOther? {
        var h, priority := row.hash.value, Priority(row.answer);
        if h !in relevant || priority > relevant[h].0 {
          relevant := relevant[h := (priority, tokens[h], row.answer)];
          chosen := chosen[h := (tokens[h], row.answer)];
        }
      }
      SelectionSnoc(tokens, rows[..n - 1], row, before, chosen);
    }
    assert rows[..n] == rows;
  }

  // ---------------------------------------------------------------------------------------------
  // The effect of a response, independent of row order
  // ---------------------------------------------------------------------------------------------

  /** The strongest word in the response about a hash: rejection over approval over pending. */
  ghost function Strongest(rows: seq<Row>, h: Hash): Option<Answer> {
    if Row(Some(h), SaysDenied) in rows || Row(Some(h), SaysOutdated) in rows then Some(SaysDenied)
    else if Row(Some(h), SaysApproved) in rows then Some(SaysApproved)
    else if Row(Some(h), SaysPending) in rows then Some(SaysPending)
    else None
  }

  lemma InRows(rows: seq<Row>, h: Hash, a: Answer) returns (i: nat)
    requires Row(Some(h), a) in rows && !a.SaysOther?
    ensures Relevant(rows, h, i) && rows[i].answer == a
  {
    i :| i < |rows| && rows[i] == Row(Some(h), a);
  }

  lemma NoneStronger(rows: seq<Row>, h: Hash, i: nat, a: Answer)
    requires Wins(rows, h, i) && !a.SaysOther? && Row(Some(h), a) in rows
    ensures Priority(a) <= Priority(rows[i].answer)
  {
    var j := InRows(rows, h, a);
    assert j < i || i <= j;
  }

  lemma WinnerIsStrongest(rows: seq<Row>, h: Hash, i: nat)
    requires Wins(rows, h, i)
    ensures Strongest(rows, h) == Some(if rows[i].answer.SaysOutdated? then SaysDenied else rows[i].answer)
  {
    assert rows[i] in rows && rows[i] == Row(Some(h), rows[i].answer);
    if Row(Some(h), SaysDenied) in rows { NoneStronger(rows, h, i, SaysDenied); }
    if Row(Some(h), SaysOutdated) in rows { NoneStronger(rows, h, i, SaysOutdated); }
    if Row(Some(h), SaysApproved) in rows { NoneStronger(rows, h, i, SaysApproved); }
  }

  lemma NoneIsSilent(rows: seq<Row>, h: Hash)
    requires forall i: nat :: !Relevant(rows, h, i)
    ensures Strongest(rows, h).None?
  {
    if Strongest(rows, h).Some? {
      var a := if Row(Some(h), Strongest(rows, h).value) in rows then Strongest(rows, h).value else SaysOutdated;
      var j := InRows(rows, h, a);
    }
  }

  /** What a response does to one entry, given only which rows it contains. */
  ghost function Judged(cfg: Config, tokens: Tokens, rows: seq<Row>, e: Entry, now: nat): Entry {
    if e.txHash in tokens && tokens[e.txHash] == e.generation && Strongest(rows, e.txHash).Some?
    then OnAnswer(cfg, e, Strongest(rows, e.txHash).value, now)
    else e
  }

  lemma JudgedEntry(w: World, s: State, tokens: Tokens, rows: seq<Row>, chosen: Chosen, now: nat,
                    h: Hash)
    requires Keyed(s.entries) && Selection(tokens, rows, chosen) && h in s.entries
    ensures Evolve(w.cfg, QueryAnswers(chosen, now), s.entries[h]) ==
            Some(Judged(w.cfg, tokens, rows, s.entries[h], now))
  {
    assert Selected(tokens, rows, h, chosen);
    if h in chosen {
      var i: nat :| Wins(rows, h, i) && chosen[h].1 == rows[i].answer;
      WinnerIsStrongest(rows, h, i);
    } else if h in tokens {
      NoneIsSilent(rows, h);
    }
  }

  /** Applying a response: each in-flight hash follows the strongest word about it, rejection first; a hash
      outside the snapshot, or of another lifecycle, is untouched. */
  lemma ResponseApplied(w: World, s: State, tokens: Tokens, rows: seq<Row>, chosen: Chosen, now: nat)
    requires Keyed(s.entries) && Selection(tokens, rows, chosen)
    ensures Next(w, s, QueryAnswers(chosen, now)) ==
            State(map h | h in s.entries :: Judged(w.cfg, tokens, rows, s.entries[h], now), s.nextGeneration, s.rules)
  {
    forall h | h in s.entries
      ensures Evolve(w.cfg, QueryAnswers(chosen, now), s.entries[h]) ==
              Some(Judged(w.cfg, tokens, rows, s.entries[h], now))
    {
      JudgedEntry(w, s, tokens, rows, chosen, now, h);
    }
  }

  /** What a response in time does to an undecided or approved lifecycle of the snapshot, by the rows it contains:
      any rejection drops it; else an approval makes it approved if it was submitted or pending; else a pending row
      makes it pending if it was submitted; otherwise it stays as it was. */
  lemma ResponseMoves(w: World, s: State, tokens: Tokens, rows: seq<Row>, chosen: Chosen, now: nat, h: Hash)
    requires Keyed(s.entries) && Selection(tokens, rows, chosen)
    requires h in s.entries && h in tokens && tokens[h] == s.entries[h].generation
    requires !Late(w.cfg, s.entries[h], now) && s.entries[h].status !in {TimedOutAllow, Dropped}
    ensures var step, e := QueryAnswers(chosen, now), s.entries[h];
            Becomes(w, s, step, h,
                    if Row(Some(h), SaysDenied) in rows || Row(Some(h), SaysOutdated) in rows
                      then e.(status := Dropped, lastTransitionAt := now)
                    else if Row(Some(h), SaysApproved) in rows && e.status in {Submitted, Pending}
                      then e.(status := Approved, lastTransitionAt := now)
                    else if Row(Some(h), SaysApproved) !in rows && Row(Some(h), SaysPending) in rows
                            && e.status == Submitted
                      then e.(status := Pending, lastTransitionAt := now)
                    else e)
  {
    assert Selected(tokens, rows, h, chosen);
    if h in chosen {
      var i: nat :| Wins(rows, h, i) && chosen[h].1 == rows[i].answer;
      WinnerIsStrongest(rows, h, i);
      AnswerMoves(w, s, chosen, now, h);
    } else {
      NoneIsSilent(rows, h);
      OthersLeave(w, s, QueryAnswers(chosen, now), h);
    }
  }

  /** Any permutation or duplication of the rows leads to the same pool. */
  lemma RowOrderIrrelevant(w: World, s: State, tokens: Tokens, rows: seq<Row>, rows': seq<Row>,
                           chosen: Chosen, chosen': Chosen, now: nat)
    requires Keyed(s.entries) && Selection(tokens, rows, chosen) && Selection(tokens, rows', chosen')
    requires forall r :: r in rows <==> r in rows'
    ensures Next(w, s, QueryAnswers(chosen, now)) == Next(w, s, QueryAnswers(chosen', now))
  {
    ResponseApplied(w, s, tokens, rows, chosen, now);
    ResponseApplied(w, s, tokens, rows', chosen', now);
    forall h | h in s.entries
      ensures Judged(w.cfg, tokens, rows, s.entries[h], now) == Judged(w.cfg, tokens, rows', s.entries[h], now)
    {
    }
  }

  // ---------------------------------------------------------------------------------------------
  // The announced reason does depend on row order
  // ---------------------------------------------------------------------------------------------

  ghost predicate BothRejections(rows: seq<Row>, h: Hash) {
    Row(Some(h), SaysDenied) in rows && Row(Some(h), SaysOutdated) in rows
  }

  /** The events of two orders of the same rows agree for entry `e`. */
  ghost predicate SameEvent(cfg: Config, tokens: Tokens, rows: seq<Row>, rows': seq<Row>, e: Entry, now: nat) {
    forall chosen, chosen' :: Selection(tokens, rows, chosen) && Selection(tokens, rows', chosen') ==>
      EventOn(cfg, QueryAnswers(chosen, now), e) == EventOn(cfg, QueryAnswers(chosen', now), e)
  }

  ghost predicate SameRows(rows: seq<Row>, rows': seq<Row>) {
    forall r :: r in rows <==> r in rows'
  }

  lemma SameAnswer(tokens: Tokens, rows: seq<Row>, rows': seq<Row>, chosen: Chosen,
                   chosen': Chosen, h: Hash)
    requires Selection(tokens, rows, chosen) && Selection(tokens, rows', chosen') && SameRows(rows, rows')
    requires !BothRejections(rows, h)
    ensures h in chosen <==> h in chosen'
    ensures h in chosen ==> chosen[h] == chosen'[h]
  {
    assert Selected(tokens, rows, h, chosen) && Selected(tokens, rows', h, chosen');
    assert Strongest(rows, h) == Strongest(rows', h);
    if h in chosen {
      var i: nat :| Wins(rows, h, i) && chosen[h].1 == rows[i].answer;
      WinnerIsStrongest(rows, h, i);
      assert rows[i] in rows;
    } else if h in tokens {
      NoneIsSilent(rows, h);
    }
    if h in chosen' {
      var i: nat :| Wins(rows', h, i) && chosen'[h].1 == rows'[i].answer;
      WinnerIsStrongest(rows', h, i);
      assert rows'[i] in rows';
    } else if h in tokens {
      NoneIsSilent(rows', h);
    }
  }

  /** A rejecting first row decides. */
  lemma FirstRejectionWins(tokens: Tokens, rows: seq<Row>, h: Hash, a: Answer, chosen: Chosen)
    requires Selection(tokens, [Row(Some(h), a)] + rows, chosen) && h in tokens && (a.SaysDenied? || a.SaysOutdated?)
    ensures h in chosen && chosen[h] == (tokens[h], a)
  {
    var all := [Row(Some(h), a)] + rows;
    assert Selected(tokens, all, h, chosen);
    assert Relevant(all, h, 0);
    var i: nat :| Wins(all, h, i) && chosen[h].1 == all[i].answer;
    assert i == 0;
  }

  lemma {:induction false} SelectionExists(tokens: Tokens, rows: seq<Row>) returns (chosen: Chosen)
    ensures Selection(tokens, rows, chosen)
    ensures forall h :: h in chosen ==> !chosen[h].1.SaysOther?
    decreases |rows|
  {
    if rows == [] {
      chosen := map[];
      NothingSelected(tokens);
    } else {
      var front, row := rows[..|rows| - 1], rows[|rows| - 1];
      var before := SelectionExists(tokens, front);
      assert rows == front + [row];
      chosen := before;
      if row.hash.Some? && row.hash.value in tokens && !row.answer.SaysOther?
         && (row.hash.value in before ==> Priority(row.answer) > Priority(before[row.hash.value].1))
      {
        chosen := before[row.hash.value := (tokens[row.hash.value], row.answer)];
      }
      SelectionSnoc(tokens, front, row, before, chosen);
    }
  }

  /** Two rows, one denied and one outdated, in either order: the announced reasons differ. */
  lemma ReasonDependsOnOrder(cfg: Config, e: Entry, now: nat, chosen: Chosen, chosen': Chosen)
    requires InFlight(e.status) && !Expired(cfg, e, now)
    requires Selection(map[e.txHash := e.generation],
                       [Row(Some(e.txHash), SaysDenied), Row(Some(e.txHash), SaysOutdated)], chosen)
    requires Selection(map[e.txHash := e.generation],
                       [Row(Some(e.txHash), SaysOutdated), Row(Some(e.txHash), SaysDenied)], chosen')
    ensures EventOn(cfg, QueryAnswers(chosen, now), e) == Some(Event(e.txHash, e.generation, DeniedByRcs))
    ensures EventOn(cfg, QueryAnswers(chosen', now), e) == Some(Event(e.txHash, e.generation, OutdatedAtRcs))
  {
    var denied, outdated := Row(Some(e.txHash), SaysDenied), Row(Some(e.txHash), SaysOutdated);
    assert [denied] + [outdated] == [denied, outdated] && [outdated] + [denied] == [outdated, denied];
    FirstRejectionEvent(cfg, map[e.txHash := e.generation], [outdated], e, SaysDenied, chosen, now);
    FirstRejectionEvent(cfg, map[e.txHash := e.generation], [denied], e, SaysOutdated, chosen', now);
  }

  ghost predicate Reordered(rows: seq<Row>, rows': seq<Row>) {
    multiset(rows) == multiset(rows')
  }

  /** The rows with one of them moved to the front. */
  lemma MovedToFront(rows: seq<Row>, row: Row) returns (rest: seq<Row>)
    requires row in rows
    ensures Reordered(rows, [row] + rest)
  {
    var j: nat :| j < |rows| && rows[j] == row;
    rest := rows[..j] + rows[j + 1..];
    assert rows == rows[..j] + [row] + rows[j + 1..];
  }

  /** The reason announced for a current, undecided, unexpired lifecycle is the same for every order of the
      rows exactly when the response does not call it both denied and outdated. */
  lemma ReasonNeedsOneRejection(cfg: Config, tokens: Tokens, rows: seq<Row>, e: Entry, now: nat)
    requires e.txHash in tokens && tokens[e.txHash] == e.generation && !Terminal(e.status) && !Expired(cfg, e, now)
    ensures (forall rows' :: Reordered(rows, rows') ==> SameEvent(cfg, tokens, rows, rows', e, now)) <==>
            !BothRejections(rows, e.txHash)
  {
    if BothRejections(rows, e.txHash) {
      DifferentReasons(cfg, tokens, rows, e, now);
    } else {
      forall rows' | Reordered(rows, rows') ensures SameEvent(cfg, tokens, rows, rows', e, now) {
        SameMembers(rows, rows');
        OneRejectionOneReason(cfg, tokens, rows, rows', e, now);
      }
    }
  }

  /** With at most one kind of rejection, duplicates do not matter either. */
  lemma OneRejectionOneReason(cfg: Config, tokens: Tokens, rows: seq<Row>, rows': seq<Row>, e: Entry, now: nat)
    requires SameRows(rows, rows') && !BothRejections(rows, e.txHash)
    ensures SameEvent(cfg, tokens, rows, rows', e, now)
  {
    forall chosen, chosen' | Selection(tokens, rows, chosen) && Selection(tokens, rows', chosen')
      ensures EventOn(cfg, QueryAnswers(chosen, now), e) == EventOn(cfg, QueryAnswers(chosen', now), e)
    {
      SameAnswer(tokens, rows, rows', chosen, chosen', e.txHash);
    }
  }

  lemma DifferentReasons(cfg: Config, tokens: Tokens, rows: seq<Row>, e: Entry, now: nat)
    requires e.txHash in tokens && tokens[e.txHash] == e.generation && !Terminal(e.status) && !Expired(cfg, e, now)
    requires BothRejections(rows, e.txHash)
    ensures exists rows' :: Reordered(rows, rows') && !SameEvent(cfg, tokens, rows, rows', e, now)
  {
    var denied, outdated := Row(Some(e.txHash), SaysDenied), Row(Some(e.txHash), SaysOutdated);
    var afterDenied := MovedToFront(rows, denied);
    var afterOutdated := MovedToFront(rows, outdated);
    var c := SelectionExists(tokens, rows);
    var d := SelectionExists(tokens, [denied] + afterDenied);
    var o := SelectionExists(tokens, [outdated] + afterOutdated);
    FirstRejectionEvent(cfg, tokens, afterDenied, e, SaysDenied, d, now);
    FirstRejectionEvent(cfg, tokens, afterOutdated, e, SaysOutdated, o, now);
    if EventOn(cfg, QueryAnswers(c, now), e) == EventOn(cfg, QueryAnswers(d, now), e) {
      assert !SameEvent(cfg, tokens, rows, [outdated] + afterOutdated, e, now);
    } else {
      assert !SameEvent(cfg, tokens, rows, [denied] + afterDenied, e, now);
    }
  }

  lemma FirstRejectionEvent(cfg: Config, tokens: Tokens, rows: seq<Row>, e: Entry, a: Answer, chosen: Chosen, now: nat)
    requires e.txHash in tokens && tokens[e.txHash] == e.generation && !Terminal(e.status) && !Expired(cfg, e, now)
    requires a.SaysDenied? || a.SaysOutdated?
    requires Selection(tokens, [Row(Some(e.txHash), a)] + rows, chosen)
    ensures EventOn(cfg, QueryAnswers(chosen, now), e) ==
            Some(Event(e.txHash, e.generation, if a.SaysDenied? then DeniedByRcs else OutdatedAtRcs))
  {
    FirstRejectionWins(tokens, rows, e.txHash, a, chosen);
  }

  // ---------------------------------------------------------------------------------------------
  // The whole poll
  // ---------------------------------------------------------------------------------------------

  /** A failed request, as the client reports it. */
  type QueryError = nat

  /** One status query: what the other threads do during the await, the reply, and the clock afterwards. */
  datatype Round = Round(gap: seq<Step>, reply: Result<seq<Row>, QueryError>, now: nat)

  /** A failed query only checks deadlines; an answered one applies its selected rows. */
  ghost predicate RoundStep(tokens: Tokens, round: Round, step: Step) {
    match round.reply
    case Err(_) => step == ResolveTotals(round.now)
    case Ok(rows) => step.QueryAnswers? && step.now == round.now && Selection(tokens, rows, step.answers)
  }

  ghost predicate RoundSteps(tokens: Tokens, rounds: seq<Round>, steps: seq<Step>) {
    |steps| <= |rounds| && forall k :: 0 <= k < |steps| ==> RoundStep(tokens, rounds[k], steps[k])
  }

  ghost function PollTrace(rounds: seq<Round>, steps: seq<Step>): seq<Step>
    requires |rounds| == |steps|
  {
    if rounds == [] then []
    else
      var n := |rounds| - 1;
      PollTrace(rounds[..n], steps[..n]) + (rounds[n].gap + [steps[n]])
  }

  /** The error of the first failed query among the first `n`. */
  ghost predicate IsFirstError(rounds: seq<Round>, n: nat, error: Option<QueryError>)
    requires n <= |rounds|
  {
    match error
    case None => forall k :: 0 <= k < n ==> rounds[k].reply.Ok?
    case Some(e) =>
      exists k :: 0 <= k < n && rounds[k].reply == Err(e) && forall j :: 0 <= j < k ==> rounds[j].reply.Ok?
  }

  /** One status query under its own lock; what that section owes is sent before the next query. */
  method QueryRound(shared: Shared, expected: Tokens, round: Round) returns (step: Step)
    requires shared.Valid()
    modifies shared, shared.pool
    ensures shared.Valid() && RoundStep(expected, round, step)
    ensures shared.history == old(shared.history) + (round.gap + [step])
  {
    shared.Others(round.gap);
    match round.reply {
      case Err(_) =>
        step := ResolveTotals(round.now);
        shared.ResolveTotals(round.now);
      case Ok(rows) =>
        var chosen := SelectRows(expected, rows);
        step := QueryAnswers(chosen, round.now);
        shared.ApplyAnswers(chosen, round.now);
    }
    Assoc(old(shared.history), round.gap, [step]);
  }

  /** One query per status, one after another; every reply is fenced by the same snapshot. */
  method QueryRounds(shared: Shared, expected: Tokens, rounds: seq<Round>)
    returns (error: Option<QueryError>, ghost steps: seq<Step>)
    requires shared.Valid()
    modifies shared, shared.pool
    ensures shared.Valid() && |steps| == |rounds| && RoundSteps(expected, rounds, steps)
    ensures shared.history == old(shared.history) + PollTrace(rounds, steps)
    ensures IsFirstError(rounds, |rounds|, error)
  {
    steps, error := [], None;
    for n := 0 to |rounds|
      invariant shared.Valid() && |steps| == n
      invariant Polled(old(shared.history), shared.history, expected, rounds, steps, error)
    {
      ghost var before := shared.history;
      var step := QueryRound(shared, expected, rounds[n]);
      PolledSnoc(old(shared.history), before, expected, rounds, steps, error, step);
      steps := steps + [step];
      if rounds[n].reply.Err? && error.None? { error := Some(rounds[n].reply.error); }
    }
    assert rounds[..|rounds|] == rounds;
    FirstErrorIs(rounds, |rounds|);
  }

  /** The state of a poll after the queries whose steps are `steps`. */
  ghost predicate Polled(past: seq<Step>, history: seq<Step>, tokens: Tokens, rounds: seq<Round>, steps: seq<Step>,
                         error: Option<QueryError>) {
    && RoundSteps(tokens, rounds, steps)
    && history == past + PollTrace(rounds[..|steps|], steps)
    && error == FirstError(rounds, |steps|)
  }

  lemma PolledSnoc(past: seq<Step>, history: seq<Step>, tokens: Tokens, rounds: seq<Round>, steps: seq<Step>,
                   error: Option<QueryError>, step: Step)
    requires Polled(past, history, tokens, rounds, steps, error)
    requires |steps| < |rounds| && RoundStep(tokens, rounds[|steps|], step)
    ensures var round := rounds[|steps|];
            Polled(past, history + (round.gap + [step]), tokens, rounds, steps + [step],
                   if round.reply.Err? && error.None? then Some(round.reply.error) else error)
  {
    PollTraceSnoc(past, rounds, |steps|, steps, step);
    RoundStepsSnoc(tokens, rounds, steps, step);
  }

  lemma RoundStepsSnoc(tokens: Tokens, rounds: seq<Round>, steps: seq<Step>, step: Step)
    requires RoundSteps(tokens, rounds, steps) && |steps| < |rounds| && RoundStep(tokens, rounds[|steps|], step)
    ensures RoundSteps(tokens, rounds, steps + [step])
  {
  }

  function FirstError(rounds: seq<Round>, n: nat): Option<QueryError>
    requires n <= |rounds|
  {
    if n == 0 then None
    else if FirstError(rounds, n - 1).Some? then FirstError(rounds, n - 1)
    else if rounds[n - 1].reply.Err? then Some(rounds[n - 1].reply.error)
    else None
  }

  lemma {:induction false} FirstErrorIs(rounds: seq<Round>, n: nat)
    requires n <= |rounds|
    ensures IsFirstError(rounds, n, FirstError(rounds, n))
  {
    if n > 0 { FirstErrorIs(rounds, n - 1); }
  }

  lemma PollTraceSnoc(past: seq<Step>, rounds: seq<Round>, n: nat, steps: seq<Step>, step: Step)
    requires n < |rounds| && |steps| == n
    ensures past + PollTrace(rounds[..n + 1], steps + [step]) ==
            past + PollTrace(rounds[..n], steps) + (rounds[n].gap + [step])
  {
    assert rounds[..n + 1][..n] == rounds[..n] && (steps + [step])[..n] == steps;
    Assoc(past, PollTrace(rounds[..n], steps), rounds[n].gap + [step]);
  }

  /** The snapshot a poll works from: exactly the lifecycles in flight. */
  ghost predicate InFlightTokens(s: State, tokens: Tokens) {
    && (forall h :: h in tokens <==> h in s.entries && s.entries[h].status in {Submitted, Pending, Approved})
    && (forall h :: h in tokens ==> tokens[h] == s.entries[h].generation)
  }

  /** One poll: deadlines first, then the snapshot, then the queries if anything is in flight. The history says
      which locked sections it went through, and the object stays valid: what they owe has been sent. */
  method QueryOnce(shared: Shared, now: nat, rounds: seq<Round>)
    returns (error: Option<QueryError>, ghost tokens: Tokens, ghost steps: seq<Step>)
    requires shared.Valid()
    modifies shared, shared.pool
    ensures shared.Valid() && InFlightTokens(Next(shared.world, old(shared.Now()), ResolveTotals(now)), tokens)
    ensures tokens == map[] ==> shared.history == old(shared.history) + [ResolveTotals(now)] && error == None
    ensures tokens != map[] ==>
              && |steps| == |rounds| && RoundSteps(tokens, rounds, steps)
              && shared.history == old(shared.history) + [ResolveTotals(now)] + PollTrace(rounds, steps)
              && IsFirstError(rounds, |rounds|, error)
  {
    shared.ResolveTotals(now);
    var expected := shared.pool.InFlightGenerations();
    assert InFlightTokens(shared.Now(), expected);
    tokens, steps, error := expected, [], None;
    if expected == map[] { return; }
    error, steps := QueryRounds(shared, expected, rounds);
  }
}
