/** What the matcher decides, stated over the whole Cartesian product of bindings and without order. */
module MatcherSpec {
  import opened Prelude
  import opened Wire
  import opened Matcher
  import opened LogMatching

  // ---------------------------------------------------------------------------------------------
  // Declarative reading of a rule set
  // ---------------------------------------------------------------------------------------------

  /** A rule concerns every recipient and every sender, or just the one it names. */
  ghost predicate Concerns(rule: Rule, input: Input) {
    rule.contractAddress in {None, input.txTo} && rule.origin in {None, Some(input.origin)}
  }

  /** Some choice of logs for the rule's events satisfies its condition. */
  ghost predicate Satisfies(lib: Library, rule: Rule, input: Input, b: Binding) {
    && Concerns(rule, input) && Binds(lib, rule, input.logs, b)
    && lib.holds(rule, TxVars(contractAddress := input.txTo, origin := input.origin, value := input.value,
                              nonce := input.nonce), b)
  }

  ghost predicate Denies(lib: Library, rule: Rule, input: Input) {
    rule.action.Deny? && exists b :: Satisfies(lib, rule, input, b)
  }

  /** A satisfying binding of an audit rule that rests on at least one physical log. */
  ghost predicate AuditHit(lib: Library, rule: Rule, input: Input, b: Binding) {
    && rule.action.Audit? && Satisfies(lib, rule, input, b)
    && exists q: nat, l: nat :: ReadsLog(lib, rule, input.logs, b, q, l)
  }

  ghost predicate Audits(lib: Library, rule: Rule, input: Input) {
    exists b :: AuditHit(lib, rule, input, b)
  }

  ghost predicate AnyDenies(lib: Library, rules: seq<Rule>, input: Input) {
    exists rule :: rule in rules && Denies(lib, rule, input)
  }

  ghost predicate AnyAudits(lib: Library, rules: seq<Rule>, input: Input) {
    exists rule :: rule in rules && Audits(lib, rule, input)
  }

  ghost predicate AnyAuditFailsClosed(lib: Library, rules: seq<Rule>, input: Input) {
    exists rule :: rule in rules && Audits(lib, rule, input) && rule.timeoutAction.DenyOnTimeout?
  }

  // ---------------------------------------------------------------------------------------------
  // Hits in visiting order
  // ---------------------------------------------------------------------------------------------

  type Hit = (Rule, Binding)

  ghost predicate IsHit(lib: Library, rule: Rule, input: Input, b: Binding) {
    rule.action.Audit? && HasPhysical(b) && lib.holds(rule, VarsOf(input), b)
  }

  ghost function HitsIn(lib: Library, rule: Rule, input: Input, bs: seq<Binding>): seq<Hit> {
    if bs == [] then []
    else (if IsHit(lib, rule, input, bs[0]) then [(rule, bs[0])] else []) + HitsIn(lib, rule, input, bs[1..])
  }

  /** The audit hits of the first `n` rules in the order they are visited. */
  ghost function Hits(lib: Library, rules: seq<Rule>, input: Input, n: nat): seq<Hit>
    requires n <= |rules|
  {
    if n == 0 then []
    else
      var rule := rules[n - 1];
      Hits(lib, rules, input, n - 1)
      + if Applies(rule, input) then HitsIn(lib, rule, input, RuleBindings(lib, rule, input.logs)) else []
  }

  ghost function Accumulate(acc: Acc, hits: seq<Hit>): Acc {
    if hits == [] then acc
    else Merge(Accumulate(acc, hits[..|hits| - 1]), hits[|hits| - 1].0, hits[|hits| - 1].1)
  }

  lemma {:induction false} AccumulateConcat(acc: Acc, xs: seq<Hit>, ys: seq<Hit>)
    ensures Accumulate(acc, xs + ys) == Accumulate(Accumulate(acc, xs), ys)
    decreases |ys|
  {
    if ys == [] {
      assert xs + ys == xs;
    } else {
      assert (xs + ys)[..|xs + ys| - 1] == xs + ys[..|ys| - 1];
      AccumulateConcat(acc, xs, ys[..|ys| - 1]);
    }
  }

  ghost predicate SomeHolds(lib: Library, rule: Rule, input: Input, bs: seq<Binding>) {
    exists i :: 0 <= i < |bs| && lib.holds(rule, VarsOf(input), bs[i])
  }

  /** Visiting stops with a deny exactly when a deny rule is satisfied; otherwise it merges the hits. */
  lemma {:induction false} VisitAllIs(lib: Library, rule: Rule, input: Input, acc: Acc, bs: seq<Binding>)
    ensures VisitAll(lib, rule, input, acc, bs) ==
            if rule.action.Deny? && SomeHolds(lib, rule, input, bs) then None
            else Some(Accumulate(acc, HitsIn(lib, rule, input, bs)))
    decreases |bs|
  {
    if bs != [] {
      var rest := bs[1..];
      assert SomeHolds(lib, rule, input, bs) <==>
             lib.holds(rule, VarsOf(input), bs[0]) || SomeHolds(lib, rule, input, rest) by {
        if i :| 0 <= i < |rest| && lib.holds(rule, VarsOf(input), rest[i]) { assert bs[i + 1] == rest[i]; }
        if i :| 0 <= i < |bs| && lib.holds(rule, VarsOf(input), bs[i]) { assert i > 0 ==> rest[i - 1] == bs[i]; }
      }
      var first := Visit(lib, rule, input, acc, bs[0]);
      if first.Some? {
        VisitAllIs(lib, rule, input, first.value, rest);
        var head := if IsHit(lib, rule, input, bs[0]) then [(rule, bs[0])] else [];
        AccumulateConcat(acc, head, HitsIn(lib, rule, input, rest));
        assert Accumulate(acc, head) == first.value by {
          if head != [] { assert head[..0] == []; }
        }
      }
    }
  }

  lemma SatisfiesIff(lib: Library, rule: Rule, input: Input, b: Binding)
    ensures Satisfies(lib, rule, input, b) <==>
            Applies(rule, input) && BindingOf(lib, rule, input.logs, b) && lib.holds(rule, VarsOf(input), b)
  {
    BindsIff(lib, rule, input.logs, b);
  }

  lemma AuditHitIff(lib: Library, rule: Rule, input: Input, b: Binding)
    ensures AuditHit(lib, rule, input, b) <==>
            Applies(rule, input) && BindingOf(lib, rule, input.logs, b) && IsHit(lib, rule, input, b)
  {
    SatisfiesIff(lib, rule, input, b);
    if Satisfies(lib, rule, input, b) { PhysicalIff(lib, rule, input.logs, b); }
  }

  lemma RuleDenies(lib: Library, rule: Rule, input: Input)
    requires Applies(rule, input)
    ensures rule.action.Deny? && SomeHolds(lib, rule, input, RuleBindings(lib, rule, input.logs)) <==>
            Denies(lib, rule, input)
  {
    var bs := RuleBindings(lib, rule, input.logs);
    RuleBindingsAreAll(lib, rule, input.logs);
    if Denies(lib, rule, input) {
      var b :| Satisfies(lib, rule, input, b);
      SatisfiesIff(lib, rule, input, b);
      assert b in bs;
    }
    if i :| 0 <= i < |bs| && lib.holds(rule, VarsOf(input), bs[i]) {
      assert bs[i] in bs;
      SatisfiesIff(lib, rule, input, bs[i]);
      assert rule.action.Deny? ==> Satisfies(lib, rule, input, bs[i]);
    }
  }

  // ---------------------------------------------------------------------------------------------
  // Evaluation against the declarative reading
  // ---------------------------------------------------------------------------------------------

  lemma {:induction false} TotalMonotone(lib: Library, rules: seq<Rule>, input: Input, i: nat, j: nat)
    requires i <= j <= |rules|
    ensures Total(lib, rules, input, i) <= Total(lib, rules, input, j)
  {
    if i < j { TotalMonotone(lib, rules, input, i, j - 1); }
  }

  /** A satisfied deny rule that is reached within the budget. */
  ghost predicate DenyReached(lib: Library, rules: seq<Rule>, input: Input, limit: nat, i: nat) {
    exists k :: i <= k < |rules| && Denies(lib, rules[k], input) && Total(lib, rules, input, k + 1) <= limit
  }

  /** Rule `k` is the one at which the bindings outgrow the budget; the error names it and how many there were. */
  ghost predicate OverrunsAt(lib: Library, rules: seq<Rule>, input: Input, limit: nat, k: nat, error: MatchError) {
    && k < |rules| && Total(lib, rules, input, k) <= limit < Total(lib, rules, input, k + 1)
    && error == if Total(lib, rules, input, k + 1) < U64_BOUND
                then BudgetExceeded(rules[k].id, Total(lib, rules, input, k + 1), limit)
                else CountOverflow(rules[k].id)
  }

  ghost predicate Overruns(lib: Library, rules: seq<Rule>, input: Input, limit: nat, error: MatchError) {
    exists k: nat :: OverrunsAt(lib, rules, input, limit, k, error)
  }

  /** The result of evaluating from rule `i` on, when no earlier rule denied and the budget held so far. */
  ghost predicate Explained(lib: Library, rules: seq<Rule>, input: Input, limit: nat, i: nat,
                            r: Result<MatchOutcome, MatchError>) {
    if DenyReached(lib, rules, input, limit, i) then r == Ok(Denied)
    else if Total(lib, rules, input, |rules|) > limit then r.Err? && Overruns(lib, rules, input, limit, r.error)
    else r == Ok(Conclude(Accumulate(NOTHING_YET, Hits(lib, rules, input, |rules|))))
  }

  lemma {:induction false} EvaluateFromIs(lib: Library, rules: seq<Rule>, input: Input, limit: nat, i: nat)
    requires i <= |rules| && limit < U64_BOUND && Total(lib, rules, input, i) <= limit
    ensures Explained(lib, rules, input, limit, i,
                      EvaluateFrom(lib, rules, input, limit, i, Total(lib, rules, input, i),
                                   Accumulate(NOTHING_YET, Hits(lib, rules, input, i))))
    decreases |rules| - i
  {
    if i < |rules| {
      var rule := rules[i];
      TotalMonotone(lib, rules, input, i + 1, |rules|);
      if !Applies(rule, input) {
        SkipRule(lib, rules, input, limit, i);
        EvaluateFromIs(lib, rules, input, limit, i + 1);
        NoDenyHere(lib, rules, input, limit, i);
      } else if Total(lib, rules, input, i + 1) > limit {
        OverBudgetHere(lib, rules, input, limit, i, Accumulate(NOTHING_YET, Hits(lib, rules, input, i)));
      } else {
        VisitRule(lib, rules, input, limit, i);
        if Denies(lib, rule, input) {
          assert DenyReached(lib, rules, input, limit, i);
        } else {
          EvaluateFromIs(lib, rules, input, limit, i + 1);
          NoDenyHere(lib, rules, input, limit, i);
        }
      }
    }
  }

  lemma SkipRule(lib: Library, rules: seq<Rule>, input: Input, limit: nat, i: nat)
    requires i < |rules| && !Applies(rules[i], input)
    ensures Total(lib, rules, input, i + 1) == Total(lib, rules, input, i) && !Denies(lib, rules[i], input)
    ensures var acc := Accumulate(NOTHING_YET, Hits(lib, rules, input, i));
            && acc == Accumulate(NOTHING_YET, Hits(lib, rules, input, i + 1))
            && EvaluateFrom(lib, rules, input, limit, i, Total(lib, rules, input, i), acc) ==
               EvaluateFrom(lib, rules, input, limit, i + 1, Total(lib, rules, input, i + 1), acc)
  {
    assert Hits(lib, rules, input, i + 1) == Hits(lib, rules, input, i);
  }

  lemma NoDenyHere(lib: Library, rules: seq<Rule>, input: Input, limit: nat, i: nat)
    requires i < |rules| && !Denies(lib, rules[i], input)
    ensures DenyReached(lib, rules, input, limit, i) <==> DenyReached(lib, rules, input, limit, i + 1)
  {
  }

  lemma OverBudgetErr(lib: Library, rules: seq<Rule>, input: Input, limit: nat, i: nat, acc: Acc)
    requires i < |rules| && limit < U64_BOUND && Applies(rules[i], input)
    requires Total(lib, rules, input, i) <= limit < Total(lib, rules, input, i + 1)
    ensures var r := EvaluateFrom(lib, rules, input, limit, i, Total(lib, rules, input, i), acc);
            r.Err? && OverrunsAt(lib, rules, input, limit, i, r.error)
  {
    CheckedProductExact(1, Candidates(lib, rules[i], input.logs));
  }

  lemma OverBudgetHere(lib: Library, rules: seq<Rule>, input: Input, limit: nat, i: nat, acc: Acc)
    requires i < |rules| && limit < U64_BOUND && Applies(rules[i], input)
    requires Total(lib, rules, input, i) <= limit < Total(lib, rules, input, i + 1)
    ensures !DenyReached(lib, rules, input, limit, i)
    ensures var r := EvaluateFrom(lib, rules, input, limit, i, Total(lib, rules, input, i), acc);
            r.Err? && OverrunsAt(lib, rules, input, limit, i, r.error)
  {
    OverBudgetErr(lib, rules, input, limit, i, acc);
    NoDenyPastBudget(lib, rules, input, limit, i);
  }

  lemma NoDenyPastBudget(lib: Library, rules: seq<Rule>, input: Input, limit: nat, i: nat)
    requires i < |rules| && limit < Total(lib, rules, input, i + 1)
    ensures !DenyReached(lib, rules, input, limit, i)
  {
    if DenyReached(lib, rules, input, limit, i) {
      var k :| i <= k < |rules| && Denies(lib, rules[k], input) && Total(lib, rules, input, k + 1) <= limit;
      TotalMonotone(lib, rules, input, i + 1, k + 1);
    }
  }

  lemma VisitRule(lib: Library, rules: seq<Rule>, input: Input, limit: nat, i: nat)
    requires i < |rules| && limit < U64_BOUND && Applies(rules[i], input)
    requires Total(lib, rules, input, i + 1) <= limit
    ensures var acc := Accumulate(NOTHING_YET, Hits(lib, rules, input, i));
            EvaluateFrom(lib, rules, input, limit, i, Total(lib, rules, input, i), acc) ==
            if Denies(lib, rules[i], input) then Ok(Denied)
            else EvaluateFrom(lib, rules, input, limit, i + 1, Total(lib, rules, input, i + 1),
                              Accumulate(NOTHING_YET, Hits(lib, rules, input, i + 1)))
  {
    RuleStep(lib, rules, input, limit, i, Accumulate(NOTHING_YET, Hits(lib, rules, input, i)));
    RuleMerges(lib, rules, input, i);
  }

  /** A rule within the budget: what visiting its bindings gives decides how to go on. */
  lemma RuleStep(lib: Library, rules: seq<Rule>, input: Input, limit: nat, i: nat, acc: Acc)
    requires i < |rules| && limit < U64_BOUND && Applies(rules[i], input)
    requires Total(lib, rules, input, i + 1) <= limit
    ensures EvaluateFrom(lib, rules, input, limit, i, Total(lib, rules, input, i), acc) ==
            match VisitAll(lib, rules[i], input, acc, RuleBindings(lib, rules[i], input.logs))
            case None => Ok(Denied)
            case Some(acc') => EvaluateFrom(lib, rules, input, limit, i + 1, Total(lib, rules, input, i + 1), acc')
  {
    CheckedProductExact(1, Candidates(lib, rules[i], input.logs));
  }

  lemma RuleMerges(lib: Library, rules: seq<Rule>, input: Input, i: nat)
    requires i < |rules| && Applies(rules[i], input)
    ensures VisitAll(lib, rules[i], input, Accumulate(NOTHING_YET, Hits(lib, rules, input, i)),
                     RuleBindings(lib, rules[i], input.logs)) ==
            if Denies(lib, rules[i], input) then None
            else Some(Accumulate(NOTHING_YET, Hits(lib, rules, input, i + 1)))
  {
    var rule, bs := rules[i], RuleBindings(lib, rules[i], input.logs);
    VisitAllIs(lib, rule, input, Accumulate(NOTHING_YET, Hits(lib, rules, input, i)), bs);
    RuleDenies(lib, rule, input);
    AccumulateConcat(NOTHING_YET, Hits(lib, rules, input, i), HitsIn(lib, rule, input, bs));
  }

  /** The exact result, errors included: a deny within the budget, else an error naming the rule at which the
      budget was exceeded, else the merge. */
  lemma TryEvaluateIs(lib: Library, rules: seq<Rule>, input: Input, limit: nat)
    requires limit < U64_BOUND
    ensures Explained(lib, rules, input, limit, 0, TryEvaluate(lib, rules, input, limit))
  {
    EvaluateFromIs(lib, rules, input, limit, 0);
  }

  // ---------------------------------------------------------------------------------------------
  // What evaluation reads
  // ---------------------------------------------------------------------------------------------

  /** Two inputs the matcher cannot tell apart: same transaction variables, same logs. The transaction may
      well be executed at another block height. */
  ghost predicate SameToMatcher(a: Input, b: Input) {
    a.txTo == b.txTo && a.origin == b.origin && a.value == b.value && a.nonce == b.nonce && a.logs == b.logs
  }

  lemma {:induction false} VisitAllReads(lib: Library, rule: Rule, a: Input, b: Input, acc: Acc, bs: seq<Binding>)
    requires SameToMatcher(a, b)
    ensures VisitAll(lib, rule, a, acc, bs) == VisitAll(lib, rule, b, acc, bs)
    decreases |bs|
  {
    if bs != [] && Visit(lib, rule, a, acc, bs[0]).Some? {
      VisitAllReads(lib, rule, a, b, Visit(lib, rule, a, acc, bs[0]).value, bs[1..]);
    }
  }

  lemma RuleReads(lib: Library, rule: Rule, a: Input, b: Input, limit: nat, count: nat, acc: Acc)
    requires SameToMatcher(a, b)
    ensures EvaluateOne(lib, rule, a, limit, count, acc) == EvaluateOne(lib, rule, b, limit, count, acc)
  {
    VisitAllReads(lib, rule, a, b, acc, AllFrom(Candidates(lib, rule, a.logs), []));
  }

  lemma {:induction false} EvaluateFromReads(lib: Library, rules: seq<Rule>, a: Input, b: Input, limit: nat, i: nat,
                                             count: nat, acc: Acc)
    requires SameToMatcher(a, b) && i <= |rules|
    ensures EvaluateFrom(lib, rules, a, limit, i, count, acc) == EvaluateFrom(lib, rules, b, limit, i, count, acc)
    decreases |rules| - i
  {
    if i < |rules| {
      RuleReads(lib, rules[i], a, b, limit, count, acc);
      var r := EvaluateOne(lib, rules[i], a, limit, count, acc);
      if r.GoOn? { EvaluateFromReads(lib, rules, a, b, limit, i + 1, r.count, r.acc); }
    }
  }

  /** The result depends on the transaction variables and the logs alone. */
  lemma TryEvaluateReads(lib: Library, rules: seq<Rule>, a: Input, b: Input, limit: nat)
    requires SameToMatcher(a, b)
    ensures TryEvaluate(lib, rules, a, limit) == TryEvaluate(lib, rules, b, limit)
  {
    EvaluateFromReads(lib, rules, a, b, limit, 0, 0, NOTHING_YET);
  }

  // ---------------------------------------------------------------------------------------------
  // Which hits there are
  // ---------------------------------------------------------------------------------------------

  lemma {:induction false} HitsInMembers(lib: Library, rule: Rule, input: Input, bs: seq<Binding>, hit: Hit)
    ensures hit in HitsIn(lib, rule, input, bs) <==> hit.0 == rule && hit.1 in bs && IsHit(lib, rule, input, hit.1)
    decreases |bs|
  {
    if bs != [] {
      HitsInMembers(lib, rule, input, bs[1..], hit);
      assert bs == [bs[0]] + bs[1..];
    }
  }

  /** The hits are exactly the audit hits of the product. */
  lemma {:induction false} HitsMembers(lib: Library, rules: seq<Rule>, input: Input, n: nat, hit: Hit)
    requires n <= |rules|
    ensures hit in Hits(lib, rules, input, n) <==> hit.0 in rules[..n] && AuditHit(lib, hit.0, input, hit.1)
  {
    if n > 0 {
      HitsMembers(lib, rules, input, n - 1, hit);
      assert rules[..n] == rules[..n - 1] + [rules[n - 1]];
      RuleHits(lib, rules[n - 1], input, hit);
    }
  }

  lemma RuleHits(lib: Library, rule: Rule, input: Input, hit: Hit)
    ensures Applies(rule, input) && hit in HitsIn(lib, rule, input, RuleBindings(lib, rule, input.logs)) <==>
            hit.0 == rule && AuditHit(lib, rule, input, hit.1)
  {
    RuleBindingsAreAll(lib, rule, input.logs);
    HitsInMembers(lib, rule, input, RuleBindings(lib, rule, input.logs), hit);
    AuditHitIff(lib, rule, input, hit.1);
  }

  lemma HitsEmpty(lib: Library, rules: seq<Rule>, input: Input)
    ensures Hits(lib, rules, input, |rules|) == [] <==> !AnyAudits(lib, rules, input)
  {
    var hits := Hits(lib, rules, input, |rules|);
    assert rules[..|rules|] == rules;
    if hits != [] {
      HitsMembers(lib, rules, input, |rules|, hits[0]);
      assert hits[0].0 in rules && Audits(lib, hits[0].0, input);
    }
    if rule, b :| rule in rules && AuditHit(lib, rule, input, b) {
      HitsMembers(lib, rules, input, |rules|, (rule, b));
    }
  }

  lemma {:induction false} AccumulateFlags(hits: seq<Hit>)
    ensures Accumulate(NOTHING_YET, hits).hasAudit <==> hits != []
    ensures Accumulate(NOTHING_YET, hits).timeoutAction.DenyOnTimeout? <==>
            exists p :: 0 <= p < |hits| && hits[p].0.timeoutAction.DenyOnTimeout?
  {
    if hits != [] {
      AccumulateFlags(hits[..|hits| - 1]);
    }
  }

  lemma HitsFailClosed(lib: Library, rules: seq<Rule>, input: Input)
    ensures (exists p ::
             0 <= p < |Hits(lib, rules, input, |rules|)|
               && Hits(lib, rules, input, |rules|)[p].0.timeoutAction.DenyOnTimeout?)
       <==> AnyAuditFailsClosed(lib, rules, input)
  {
    var hits := Hits(lib, rules, input, |rules|);
    assert rules[..|rules|] == rules;
    if p :| 0 <= p < |hits| && hits[p].0.timeoutAction.DenyOnTimeout? {
      HitsMembers(lib, rules, input, |rules|, hits[p]);
      assert hits[p].0 in rules && Audits(lib, hits[p].0, input);
    }
    if rule, b :| rule in rules && AuditHit(lib, rule, input, b) && rule.timeoutAction.DenyOnTimeout? {
      HitsMembers(lib, rules, input, |rules|, (rule, b));
    }
  }

  // ---------------------------------------------------------------------------------------------
  // Main results on the verdict
  // ---------------------------------------------------------------------------------------------

  /** The verdict over the whole product: deny if a deny rule is satisfied anywhere or the product exceeds
      the budget; otherwise audit if an audit rule is satisfied on a physical log; otherwise allow. */
  lemma VerdictIs(lib: Library, rules: seq<Rule>, input: Input, limit: nat)
    requires limit < U64_BOUND
    ensures var verdict := Evaluate(lib, rules, input, limit);
            var denied := AnyDenies(lib, rules, input) || Total(lib, rules, input, |rules|) > limit;
            && (verdict.Denied? <==> denied)
            && (verdict.Audited? <==> !denied && AnyAudits(lib, rules, input))
            && (verdict.Audited? ==> (verdict.timeoutAction.DenyOnTimeout? <==> AnyAuditFailsClosed(lib, rules, input)))
  {
    TryEvaluateIs(lib, rules, input, limit);
    HitsEmpty(lib, rules, input);
    AccumulateFlags(Hits(lib, rules, input, |rules|));
    HitsFailClosed(lib, rules, input);
    if Total(lib, rules, input, |rules|) <= limit && AnyDenies(lib, rules, input) {
      var rule :| rule in rules && Denies(lib, rule, input);
      var k :| 0 <= k < |rules| && rules[k] == rule;
      TotalMonotone(lib, rules, input, k + 1, |rules|);
      assert DenyReached(lib, rules, input, limit, 0);
    }
    if DenyReached(lib, rules, input, limit, 0) {
      var k :| 0 <= k < |rules| && Denies(lib, rules[k], input) && Total(lib, rules, input, k + 1) <= limit;
      assert rules[k] in rules;
    }
  }

  ghost function Weight(lib: Library, rule: Rule, input: Input): nat {
    if Applies(rule, input) then Product(Candidates(lib, rule, input.logs)) else 0
  }

  ghost function Sum(lib: Library, rules: seq<Rule>, input: Input): nat {
    if rules == [] then 0 else Sum(lib, rules[..|rules| - 1], input) + Weight(lib, rules[|rules| - 1], input)
  }

  lemma {:induction false} TotalIsSum(lib: Library, rules: seq<Rule>, input: Input, n: nat)
    requires n <= |rules|
    ensures Total(lib, rules, input, n) == Sum(lib, rules[..n], input)
  {
    if n > 0 {
      assert rules[..n][..n - 1] == rules[..n - 1];
      TotalIsSum(lib, rules, input, n - 1);
    }
  }

  lemma {:induction false} SumConcat(lib: Library, xs: seq<Rule>, ys: seq<Rule>, input: Input)
    ensures Sum(lib, xs + ys, input) == Sum(lib, xs, input) + Sum(lib, ys, input)
    decreases |ys|
  {
    if ys == [] {
      assert xs + ys == xs;
    } else {
      assert (xs + ys)[..|xs + ys| - 1] == xs + ys[..|ys| - 1];
      SumConcat(lib, xs, ys[..|ys| - 1], input);
    }
  }

  lemma SumWithout(lib: Library, ys: seq<Rule>, j: nat, input: Input)
    requires j < |ys|
    ensures Sum(lib, ys, input) == Sum(lib, ys[..j] + ys[j + 1..], input) + Weight(lib, ys[j], input)
  {
    var front, back := ys[..j], ys[j + 1..];
    assert ys == front + [ys[j]] + back;
    SumConcat(lib, front, back, input);
    SumConcat(lib, front + [ys[j]], back, input);
    assert (front + [ys[j]])[..j] == front;
  }

  lemma {:induction false} SumPermutation(lib: Library, xs: seq<Rule>, ys: seq<Rule>, input: Input)
    requires multiset(xs) == multiset(ys)
    ensures Sum(lib, xs, input) == Sum(lib, ys, input)
    decreases |xs|
  {
    if xs == [] {
      assert |ys| == |multiset(ys)| == 0;
    } else {
      assert xs[|xs| - 1] in multiset(ys);
      var j: nat :| j < |ys| && ys[j] == xs[|xs| - 1];
      SameWithout(xs, ys, j);
      SumPermutation(lib, xs[..|xs| - 1], ys[..j] + ys[j + 1..], input);
      SumWithout(lib, ys, j, input);
    }
  }

  /** The order of the rules does not matter for the verdict or for the merged timeout action. */
  lemma VerdictIgnoresRuleOrder(lib: Library, rules: seq<Rule>, other: seq<Rule>, input: Input, limit: nat)
    requires limit < U64_BOUND && multiset(rules) == multiset(other)
    ensures var a, b := Evaluate(lib, rules, input, limit), Evaluate(lib, other, input, limit);
            && (a.Denied? <==> b.Denied?)
            && (a.Audited? <==> b.Audited?)
            && (a.Audited? ==> a.timeoutAction == b.timeoutAction)
  {
    VerdictIs(lib, rules, input, limit);
    VerdictIs(lib, other, input, limit);
    TotalIsSum(lib, rules, input, |rules|);
    TotalIsSum(lib, other, input, |other|);
    assert rules[..|rules|] == rules && other[..|other|] == other;
    SumPermutation(lib, rules, other, input);
    SameMembers(rules, other);
  }

  // ---------------------------------------------------------------------------------------------
  // Main results on the emitted actions
  // ---------------------------------------------------------------------------------------------

  /** Event `q` of hit `p` contributes log `l` to audit type `t`. */
  ghost predicate Carries(hits: seq<Hit>, t: Text, l: nat, p: nat, q: nat) {
    && p < |hits| && t in hits[p].0.auditTypes
    && CarriesLog(hits[p].0, hits[p].1, l, q)
  }

  ghost predicate CarriesLog(rule: Rule, b: Binding, l: nat, q: nat) {
    q < |b| && q < |rule.events| && b[q].Some? && b[q].value.logIndex == l
  }

  ghost function ItemAt(rule: Rule, b: Binding, q: nat): ActionItem
    requires q < |b| && q < |rule.events| && b[q].Some?
  {
    ActionItem(rule.events[q].varName, b[q].value.address, b[q].value.params)
  }

  ghost predicate Earlier(p: nat, q: nat, p': nat, q': nat) {
    p < p' || (p == p' && q < q')
  }

  /** `item` comes from the first contribution of log `l` to type `t` in visiting order. */
  ghost predicate IsFirstItem(hits: seq<Hit>, t: Text, l: nat, p: nat, q: nat, item: ActionItem) {
    && Carries(hits, t, l, p, q)
    && item == ItemAt(hits[p].0, hits[p].1, q)
    && forall p': nat, q': nat :: Carries(hits, t, l, p', q') ==> !Earlier(p', q', p, q)
  }

  ghost predicate CarriedBefore(rule: Rule, b: Binding, n: nat, l: nat) {
    exists q: nat :: q < n && CarriesLog(rule, b, l, q)
  }

  lemma CarriedBeforeSnoc(rule: Rule, b: Binding, n: nat, l: nat)
    requires n > 0
    ensures CarriedBefore(rule, b, n, l) <==> CarriedBefore(rule, b, n - 1, l) || CarriesLog(rule, b, l, n - 1)
  {
    if q: nat :| q < n && CarriesLog(rule, b, l, q) { assert q < n - 1 || q == n - 1; }
  }

  lemma {:induction false} ItemsOfMentions(rule: Rule, b: Binding, n: nat, l: nat)
    requires n <= |b| && n <= |rule.events|
    ensures Mentions(ItemsOf(rule, b, n), l) <==> CarriedBefore(rule, b, n, l)
  {
    if n > 0 {
      var front, all := ItemsOf(rule, b, n - 1), ItemsOf(rule, b, n);
      ItemsOfMentions(rule, b, n - 1, l);
      CarriedBeforeSnoc(rule, b, n, l);
      if b[n - 1].Some? {
        assert all[..|all| - 1] == front;
        MentionsSnoc(all, l);
      } else {
        assert all == front;
      }
    }
  }

  /** Adding a binding's items: known logs keep their item, a new log gets the item of its first event. */
  lemma {:induction false} AddItemsOf(byLog: ByLog, rule: Rule, b: Binding, n: nat, l: nat)
    requires n <= |b| && n <= |rule.events|
    ensures l in byLog ==>
            l in AddFirst(byLog, ItemsOf(rule, b, n)) && AddFirst(byLog, ItemsOf(rule, b, n))[l] == byLog[l]
    ensures l in AddFirst(byLog, ItemsOf(rule, b, n)) && l !in byLog ==>
              FirstWithin(rule, b, n, l, AddFirst(byLog, ItemsOf(rule, b, n))[l])
  {
    AddFirstKeys(byLog, ItemsOf(rule, b, n), l);
    if n > 0 {
      var front, all := ItemsOf(rule, b, n - 1), ItemsOf(rule, b, n);
      AddItemsOf(byLog, rule, b, n - 1, l);
      if b[n - 1].Some? {
        assert all[..|all| - 1] == front;
        if l in AddFirst(byLog, all) && l !in AddFirst(byLog, front) {
          NewlyCarried(byLog, rule, b, n, l);
        }
      } else {
        assert all == front;
      }
    }
  }

  /** `item` is the one of the first event, among the first `n`, bound to log `l`. */
  ghost predicate FirstWithin(rule: Rule, b: Binding, n: nat, l: nat, item: ActionItem) {
    exists q: nat :: q < n && CarriesFirst(rule, b, l, q) && item == ItemAt(rule, b, q)
  }

  ghost predicate CarriesFirst(rule: Rule, b: Binding, l: nat, q: nat) {
    CarriesLog(rule, b, l, q) && !CarriedBefore(rule, b, q, l)
  }

  lemma NewlyCarried(byLog: ByLog, rule: Rule, b: Binding, n: nat, l: nat)
    requires 0 < n <= |b| && n <= |rule.events| && b[n - 1].Some?
    requires l in AddFirst(byLog, ItemsOf(rule, b, n)) && l !in AddFirst(byLog, ItemsOf(rule, b, n - 1))
    ensures FirstWithin(rule, b, n, l, AddFirst(byLog, ItemsOf(rule, b, n))[l])
  {
    var front, all := ItemsOf(rule, b, n - 1), ItemsOf(rule, b, n);
    assert all[..|all| - 1] == front;
    AddFirstKeys(byLog, front, l);
    ItemsOfMentions(rule, b, n - 1, l);
    assert CarriesFirst(rule, b, l, n - 1);
  }

  ghost predicate HasFirst(hits: seq<Hit>, t: Text, l: nat, item: ActionItem) {
    exists p: nat, q: nat :: IsFirstItem(hits, t, l, p, q, item)
  }

  ghost predicate Carried(hits: seq<Hit>, t: Text, l: nat) {
    exists p: nat, q: nat :: Carries(hits, t, l, p, q)
  }

  /** A log is kept exactly when some hit contributes it, and then with its first contribution. */
  ghost predicate KeepsFirst(hits: seq<Hit>, t: Text, l: nat, byLog: ByLog) {
    && (l in byLog <==> Carried(hits, t, l))
    && (l in byLog ==> HasFirst(hits, t, l, byLog[l]))
  }

  lemma {:induction false} AccumulatedLogs(hits: seq<Hit>, t: Text, l: nat)
    ensures KeepsFirst(hits, t, l, LogsFor(Accumulate(NOTHING_YET, hits), t))
    decreases |hits|
  {
    if hits != [] {
      var front, last := hits[..|hits| - 1], hits[|hits| - 1];
      var before := LogsFor(Accumulate(NOTHING_YET, front), t);
      var byLog := LogsFor(Accumulate(NOTHING_YET, hits), t);
      AccumulatedLogs(front, t, l);
      if t in last.0.auditTypes {
        assert byLog == AddFirst(before, BindingItems(last.0, last.1));
        if l in before { KeptLog(hits, t, l, before, byLog); } else { NewLog(hits, t, l, before, byLog); }
      } else {
        KeptIfUntyped(hits, t, l, before);
      }
    }
  }

  lemma CarriesFront(hits: seq<Hit>, t: Text, l: nat, p: nat, q: nat)
    requires hits != [] && p < |hits| - 1
    ensures Carries(hits, t, l, p, q) <==> Carries(hits[..|hits| - 1], t, l, p, q)
  {
  }

  lemma StillFirst(hits: seq<Hit>, t: Text, l: nat, p: nat, q: nat, item: ActionItem)
    requires hits != [] && IsFirstItem(hits[..|hits| - 1], t, l, p, q, item)
    ensures IsFirstItem(hits, t, l, p, q, item)
  {
    CarriesFront(hits, t, l, p, q);
    forall p': nat, q': nat | Carries(hits, t, l, p', q') ensures !Earlier(p', q', p, q) {
      if p' < |hits| - 1 { CarriesFront(hits, t, l, p', q'); }
    }
  }

  lemma KeptLog(hits: seq<Hit>, t: Text, l: nat, before: ByLog, byLog: ByLog)
    requires hits != [] && KeepsFirst(hits[..|hits| - 1], t, l, before) && l in before
    requires byLog == AddFirst(before, BindingItems(hits[|hits| - 1].0, hits[|hits| - 1].1))
    ensures KeepsFirst(hits, t, l, byLog)
  {
    AddFirstKeys(before, BindingItems(hits[|hits| - 1].0, hits[|hits| - 1].1), l);
    var p: nat, q: nat :| IsFirstItem(hits[..|hits| - 1], t, l, p, q, before[l]);
    StillFirst(hits, t, l, p, q, byLog[l]);
  }

  lemma NewLog(hits: seq<Hit>, t: Text, l: nat, before: ByLog, byLog: ByLog)
    requires hits != [] && KeepsFirst(hits[..|hits| - 1], t, l, before) && l !in before
    requires t in hits[|hits| - 1].0.auditTypes
    requires byLog == AddFirst(before, BindingItems(hits[|hits| - 1].0, hits[|hits| - 1].1))
    ensures KeepsFirst(hits, t, l, byLog)
  {
    var n := |hits| - 1;
    var rule, b := hits[n].0, hits[n].1;
    var m := Min(|b|, |rule.events|);
    AddFirstKeys(before, ItemsOf(rule, b, m), l);
    ItemsOfMentions(rule, b, m, l);
    AddItemsOf(before, rule, b, m, l);
    forall p: nat, q: nat | Carries(hits, t, l, p, q) ensures p == n && q < m && CarriesLog(rule, b, l, q) {
      if p < n { CarriesFront(hits, t, l, p, q); }
    }
    if l in byLog {
      var q: nat :| q < m && CarriesFirst(rule, b, l, q) && byLog[l] == ItemAt(rule, b, q);
      assert Carries(hits, t, l, n, q);
      assert IsFirstItem(hits, t, l, n, q, byLog[l]);
    }
  }

  lemma KeptIfUntyped(hits: seq<Hit>, t: Text, l: nat, before: ByLog)
    requires hits != [] && KeepsFirst(hits[..|hits| - 1], t, l, before) && t !in hits[|hits| - 1].0.auditTypes
    ensures KeepsFirst(hits, t, l, before)
  {
    if l in before {
      var p: nat, q: nat :| IsFirstItem(hits[..|hits| - 1], t, l, p, q, before[l]);
      StillFirst(hits, t, l, p, q, before[l]);
    } else if p: nat, q: nat :| Carries(hits, t, l, p, q) {
      CarriesFront(hits, t, l, p, q);
    }
  }

  lemma {:induction false} AccumulatedTypes(hits: seq<Hit>, t: Text)
    ensures t in Accumulate(NOTHING_YET, hits).actions <==> exists p :: 0 <= p < |hits| && t in hits[p].0.auditTypes
  {
    if hits != [] {
      AccumulatedTypes(hits[..|hits| - 1], t);
    }
  }

  /** An event of a satisfying binding of an audit rule carrying `t` is read from the log at position `l`. */
  ghost predicate UsedFor(lib: Library, rules: seq<Rule>, input: Input, t: Text, l: nat) {
    exists rule, b, q: nat ::
      rule in rules && t in rule.auditTypes && AuditHit(lib, rule, input, b) && ReadsLog(lib, rule, input.logs, b, q, l)
  }

  lemma CarriesIff(lib: Library, rule: Rule, input: Input, b: Binding, q: nat, l: nat)
    requires AuditHit(lib, rule, input, b)
    ensures CarriesLog(rule, b, l, q) <==> ReadsLog(lib, rule, input.logs, b, q, l)
  {
    if CarriesLog(rule, b, l, q) { assert Picks(lib, rule.events[q], input.logs, b[q]); }
  }

  ghost predicate TypeEmitted(lib: Library, rules: seq<Rule>, input: Input, t: Text) {
    exists rule :: rule in rules && t in rule.auditTypes && Audits(lib, rule, input)
  }

  lemma CarriedIsUsed(lib: Library, rules: seq<Rule>, input: Input, t: Text, l: nat)
    ensures Carried(Hits(lib, rules, input, |rules|), t, l) <==> UsedFor(lib, rules, input, t, l)
  {
    var hits := Hits(lib, rules, input, |rules|);
    assert rules[..|rules|] == rules;
    if p: nat, q: nat :| Carries(hits, t, l, p, q) {
      HitsMembers(lib, rules, input, |rules|, hits[p]);
      CarriesIff(lib, hits[p].0, input, hits[p].1, q, l);
      assert hits[p].0 in rules && ReadsLog(lib, hits[p].0, input.logs, hits[p].1, q, l);
    }
    if rule, b, q: nat :|
      rule in rules && t in rule.auditTypes && AuditHit(lib, rule, input, b)
        && ReadsLog(lib, rule, input.logs, b, q, l) {
      CarriesIff(lib, rule, input, b, q, l);
      HitsMembers(lib, rules, input, |rules|, (rule, b));
      var p: nat :| p < |hits| && hits[p] == (rule, b);
      assert Carries(hits, t, l, p, q);
    }
  }

  lemma TypesAreEmitted(lib: Library, rules: seq<Rule>, input: Input, t: Text)
    ensures t in Accumulate(NOTHING_YET, Hits(lib, rules, input, |rules|)).actions <==>
            TypeEmitted(lib, rules, input, t)
  {
    var hits := Hits(lib, rules, input, |rules|);
    assert rules[..|rules|] == rules;
    AccumulatedTypes(hits, t);
    if p :| 0 <= p < |hits| && t in hits[p].0.auditTypes {
      HitsMembers(lib, rules, input, |rules|, hits[p]);
      assert hits[p].0 in rules && Audits(lib, hits[p].0, input);
    }
    if rule, b :| rule in rules && t in rule.auditTypes && AuditHit(lib, rule, input, b) {
      HitsMembers(lib, rules, input, |rules|, (rule, b));
    }
  }

  /** `logs` lists, strictly ascending, exactly the positions of the logs used for `t`. */
  ghost predicate ListsUsedLogs(lib: Library, rules: seq<Rule>, input: Input, t: Text, logs: seq<nat>) {
    && (forall i, j :: 0 <= i < j < |logs| ==> logs[i] < logs[j])
    && (forall l: nat :: l in logs <==> UsedFor(lib, rules, input, t, l))
  }

  /** One item per listed log, each from the first contributing event of the first contributing binding. */
  ghost predicate ItemsAreFirst(hits: seq<Hit>, t: Text, logs: seq<nat>, items: seq<ActionItem>) {
    && |items| == |logs|
    && forall k :: 0 <= k < |logs| ==> HasFirst(hits, t, logs[k], items[k])
  }

  /** The item is an event of a hit rule carrying `t`, read from the log at position `l`. */
  ghost predicate ReadItem(lib: Library, rules: seq<Rule>, input: Input, t: Text, l: nat, item: ActionItem) {
    && l < |input.logs| && Spells(item.address, input.logs[l].address)
    && exists rule, q: nat ::
         && rule in rules && t in rule.auditTypes && Audits(lib, rule, input)
         && NamesEvent(lib, rule, q, input.logs[l], item)
  }

  ghost predicate NamesEvent(lib: Library, rule: Rule, q: nat, log: Log, item: ActionItem) {
    && q < |rule.events| && item.name == rule.events[q].varName
    && HasShape(rule.events[q], log) && lib.decode(rule.events[q], log) == Some(item.params)
  }

  ghost predicate ItemsAreRead(lib: Library, rules: seq<Rule>, input: Input, t: Text, logs: seq<nat>,
                               items: seq<ActionItem>)
  {
    |items| == |logs| && forall k :: 0 <= k < |logs| ==> ReadItem(lib, rules, input, t, logs[k], items[k])
  }

  lemma FirstIsRead(lib: Library, rules: seq<Rule>, input: Input, t: Text, l: nat, item: ActionItem)
    requires HasFirst(Hits(lib, rules, input, |rules|), t, l, item)
    ensures ReadItem(lib, rules, input, t, l, item)
  {
    var hits := Hits(lib, rules, input, |rules|);
    var p: nat, q: nat :| IsFirstItem(hits, t, l, p, q, item);
    var rule, b := hits[p].0, hits[p].1;
    assert rules[..|rules|] == rules;
    HitsMembers(lib, rules, input, |rules|, hits[p]);
    CarriesIff(lib, rule, input, b, q, l);
    assert Audits(lib, rule, input) && NamesEvent(lib, rule, q, input.logs[l], item);
  }

  /** The emitted actions: a type appears exactly when a hit rule carries it, with one item per physical log in
      strictly ascending log order, covering exactly the positions used, each read from that very log and the
      first contribution of it in visiting order. */
  ghost predicate Emits(lib: Library, rules: seq<Rule>, input: Input, t: Text, actions: Actions) {
    && (t in actions <==> TypeEmitted(lib, rules, input, t))
    && (t in actions ==>
          exists logs :: ListsUsedLogs(lib, rules, input, t, logs)
                      && ItemsAreRead(lib, rules, input, t, logs, actions[t])
                      && ItemsAreFirst(Hits(lib, rules, input, |rules|), t, logs, actions[t]))
  }

  /** What an audit verdict carries, for every audit type. */
  lemma EmittedActions(lib: Library, rules: seq<Rule>, input: Input, limit: nat, t: Text)
    requires limit < U64_BOUND && Evaluate(lib, rules, input, limit).Audited?
    ensures Emits(lib, rules, input, t, Evaluate(lib, rules, input, limit).actions)
  {
    TryEvaluateIs(lib, rules, input, limit);
    TypesAreEmitted(lib, rules, input, t);
    var hits := Hits(lib, rules, input, |rules|);
    var acc := Accumulate(NOTHING_YET, hits);
    if t in acc.actions {
      var byLog := acc.actions[t];
      var logs := InOrder(byLog.Keys);
      forall l: nat ensures (l in logs <==> UsedFor(lib, rules, input, t, l)) && KeepsFirst(hits, t, l, byLog) {
        AccumulatedLogs(hits, t, l);
        CarriedIsUsed(lib, rules, input, t, l);
      }
      assert ListsUsedLogs(lib, rules, input, t, logs);
      ItemsFirst(hits, t, byLog);
      forall k | 0 <= k < |logs| ensures ReadItem(lib, rules, input, t, logs[k], ItemsInOrder(byLog)[k]) {
        FirstIsRead(lib, rules, input, t, logs[k], ItemsInOrder(byLog)[k]);
      }
    }
  }

  lemma ItemsFirst(hits: seq<Hit>, t: Text, byLog: ByLog)
    requires forall l: nat :: KeepsFirst(hits, t, l, byLog)
    ensures ItemsAreFirst(hits, t, InOrder(byLog.Keys), ItemsInOrder(byLog))
  {
    var logs, items := InOrder(byLog.Keys), ItemsInOrder(byLog);
    forall k | 0 <= k < |logs| ensures HasFirst(hits, t, logs[k], items[k]) {
      assert logs[k] in byLog && KeepsFirst(hits, t, logs[k], byLog);
    }
  }
}
