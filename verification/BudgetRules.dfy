/** Attribute budgets (src/x402-budget-attributes.ts) under concurrent payments (src/x402-client.ts).

    A payment reads the recorded spend of the rule that matches it, is decided on that reading, and
    is recorded only after the facilitator accepted it, against the rule that matches *then*. */
module BudgetRules {
  import opened Prelude

  datatype Window = Window(startHour: Option<nat>, endHour: Option<nat>, days: Option<seq<nat>>)

  datatype Rule = Rule(merchant: string, category: Option<string>, maxAmount: int,
                       window: Option<Window>, periodMax: Option<int>)

  datatype Request = Request(merchant: string, category: Option<string>, amount: nat)

  const HOUR := 3_600_000
  const DAY := 24 * HOUR
  const WEEK := 7 * DAY

  /** `getUTCHours` and `getUTCDay` of a time in milliseconds since 1970 (a Thursday). */
  function HourOf(at: int): nat { at / HOUR % 24 }

  function DayOf(at: int): nat { (at / DAY + 4) % 7 }

  predicate InWindow(window: Option<Window>, at: int) {
    match window
    case None => true
    case Some(Window(start, end, days)) =>
      if days.Some? && DayOf(at) !in days.value then false
      else if start.None? || end.None? then true
      else if start.value <= end.value then start.value <= HourOf(at) <= end.value
      else HourOf(at) >= start.value || HourOf(at) <= end.value
  }

  predicate Matches(rule: Rule, request: Request, at: int) {
    && (rule.merchant == "*" || rule.merchant == request.merchant)
    && (rule.category == None || rule.category == Some("*") || rule.category == request.category)
    && InWindow(rule.window, at)
  }

  /** `matchingBudgetRule`: the position of the first rule that matches. */
  function MatchingRule(rules: seq<Rule>, request: Request, at: int): (r: Option<nat>)
    ensures r.Some? ==> r.value < |rules| && Matches(rules[r.value], request, at)
    ensures forall i :: 0 <= i < |rules| && (r.Some? ==> i < r.value) ==> !Matches(rules[i], request, at)
  {
    if rules == [] then None
    else if Matches(rules[0], request, at) then Some(0)
    else match MatchingRule(rules[1..], request, at)
      case None => None
      case Some(i) => Some(i + 1)
  }

  // ----- What matching means -----

  /** The clock: a time is so many days, hours and a rest after the start of 1970, a Thursday (day 4). */
  lemma ClockMeans(days: int, hours: nat, rest: nat)
    requires hours < 24 && rest < HOUR
    ensures var at := days * DAY + hours * HOUR + rest;
      HourOf(at) == hours && DayOf(at) == (days + 4) % 7 && DayOf(at + DAY) == (DayOf(at) + 1) % 7
  {
    var at := days * DAY + hours * HOUR + rest;
    assert at / HOUR == days * 24 + hours && at / DAY == days && (at + DAY) / DAY == days + 1;
  }

  /** Hours are hours of a day, as `assertValidWindow` demands. */
  predicate ValidHours(rule: Rule) {
    rule.window.Some? ==>
      && (rule.window.value.startHour.Some? ==> rule.window.value.startHour.value < 24)
      && (rule.window.value.endHour.Some? ==> rule.window.value.endHour.value < 24)
  }

  /** The rule is meant for the request.  Going round the clock from the start hour, one comes to the hour
      of the request no later than to the end hour; so a window may pass midnight. */
  ghost predicate Covers(rule: Rule, request: Request, at: int) {
    && rule.merchant in {"*", request.merchant}
    && (rule.category in {None, Some("*")} || (request.category.Some? && rule.category == request.category))
    && (rule.window.Some? ==>
          var w := rule.window.value;
          && (w.days.Some? ==> DayOf(at) in w.days.value)
          && (w.startHour.Some? && w.endHour.Some? ==>
                (HourOf(at) - w.startHour.value) % 24 <= (w.endHour.value - w.startHour.value) % 24))
  }

  lemma MatchesMeans(rule: Rule, request: Request, at: int)
    requires ValidHours(rule)
    ensures Matches(rule, request, at) <==> Covers(rule, request, at)
  {
    if rule.window.Some? && rule.window.value.startHour.Some? && rule.window.value.endHour.Some? {
      RoundTheClock(HourOf(at), rule.window.value.startHour.value, rule.window.value.endHour.value);
    }
  }

  lemma RoundTheClock(hour: nat, start: nat, end: nat)
    requires hour < 24 && start < 24 && end < 24
    ensures (hour - start) % 24 <= (end - start) % 24 <==>
      if start <= end then start <= hour <= end else hour >= start || hour <= end
  {
    assert (hour - start) % 24 == if hour >= start then hour - start else hour - start + 24;
    assert (end - start) % 24 == if end >= start then end - start else end - start + 24;
  }

  /** `assertValidBudgetAttributeRules`, amounts only. */
  predicate ValidAmounts(rules: seq<Rule>) {
    forall rule <- rules :: rule.maxAmount > 0 && (rule.periodMax.Some? ==> rule.periodMax.value > 0)
  }

  /** The first rule that is meant for the request. */
  ghost predicate FirstCover(rules: seq<Rule>, request: Request, at: int, r: nat) {
    r < |rules| && Covers(rules[r], request, at) && forall i :: 0 <= i < r ==> !Covers(rules[i], request, at)
  }

  lemma MatchingRuleMeans(rules: seq<Rule>, request: Request, at: int)
    ensures (forall rule <- rules :: ValidHours(rule)) ==>
      match MatchingRule(rules, request, at)
      case None =>
        && (forall rule <- rules :: !Covers(rule, request, at))
        && forall i: nat :: !FirstCover(rules, request, at, i)
      case Some(r) => FirstCover(rules, request, at, r) && forall i: nat :: FirstCover(rules, request, at, i) ==> i == r
  {
    if forall rule <- rules :: ValidHours(rule) {
      forall i | 0 <= i < |rules| ensures Matches(rules[i], request, at) <==> Covers(rules[i], request, at) {
        assert rules[i] in rules;
        MatchesMeans(rules[i], request, at);
      }
      forall rule <- rules ensures Matches(rule, request, at) <==> Covers(rule, request, at) {
        MatchesMeans(rule, request, at);
      }
    }
  }

  lemma ValidAmountsMeans(rules: seq<Rule>)
    ensures ValidAmounts(rules) <==> forall i :: 0 <= i < |rules| ==>
      1 <= rules[i].maxAmount && (rules[i].periodMax.Some? ==> 1 <= rules[i].periodMax.value)
  {
    assert forall i :: 0 <= i < |rules| ==> rules[i] in rules;
  }

  // ----- Payments in flight -----

  /** A payment between its reading of the spend and its end. */
  datatype Payment = Payment(request: Request, at: int, rule: nat, reading: int, cleared: bool)

  /** `spent` is the in-memory tracker, one total for each rule. */
  datatype State = State(spent: seq<int>, inFlight: seq<Payment>)

  datatype Step =
    | Begin(request: Request, at: int)   // matching, per-payment ceiling, `await tracker.spent(rule)`
    | Decide(i: nat)                     // the comparison with the period ceiling
    | Accept(i: nat, at: int)            // accepted by the facilitator: match again and record
    | Drop(i: nat)                       // anything that failed on the way

  predicate Fits(rules: seq<Rule>, p: Payment) {
    && p.rule < |rules|
    && (rules[p.rule].periodMax.Some? ==> p.reading + p.request.amount <= rules[p.rule].periodMax.value)
  }

  /** One step; a step that is not enabled changes nothing. */
  function Apply(rules: seq<Rule>, s: State, step: Step): (s': State)
    requires |s.spent| == |rules|
    ensures |s'.spent| == |rules|
  {
    match step
    case Begin(request, at) =>
      (match MatchingRule(rules, request, at)
       case None => s
       case Some(r) =>
         if request.amount > rules[r].maxAmount then s
         else s.(inFlight := s.inFlight + [Payment(request, at, r, s.spent[r], false)]))
    case Decide(i) =>
      if i >= |s.inFlight| then s
      else if Fits(rules, s.inFlight[i]) then s.(inFlight := s.inFlight[i := s.inFlight[i].(cleared := true)])
      else s.(inFlight := Without(s.inFlight, i))
    case Accept(i, at) =>
      if i >= |s.inFlight| || !s.inFlight[i].cleared then s
      else
        var p := s.inFlight[i];
        (match MatchingRule(rules, p.request, at)
         case Some(r) =>
           if rules[r].periodMax.Some? then State(s.spent[r := s.spent[r] + p.request.amount], Without(s.inFlight, i))
           else s.(inFlight := Without(s.inFlight, i))
         case None => s.(inFlight := Without(s.inFlight, i)))
    case Drop(i) =>
      if i >= |s.inFlight| then s else s.(inFlight := Without(s.inFlight, i))
  }

  function Start(rules: seq<Rule>): State { State(seq(|rules|, _ => 0), []) }

  /** The state after a run: any interleaving of the steps of any payments. */
  function After(rules: seq<Rule>, steps: seq<Step>): (s: State)
    ensures |s.spent| == |rules|
  {
    if steps == [] then Start(rules)
    else Apply(rules, After(rules, steps[..|steps| - 1]), steps[|steps| - 1])
  }

  datatype Denial = NoMatchingRule | OverPaymentCeiling | OverPeriodCeiling

  /** The client with its in-memory tracker, cut at its awaits.  With no rules there is nothing to check
      or to record, and a payment leaves no trace here. */
  class BudgetedClient {
    const rules: seq<Rule>
    var spent: seq<int>
    var inFlight: seq<Payment>

    predicate Valid()
      reads this
    {
      |spent| == |rules|
    }

    function Contents(): State
      reads this
    {
      State(spent, inFlight)
    }

    constructor (rules: seq<Rule>)
      ensures Valid() && this.rules == rules && Contents() == Start(rules)
    {
      this.rules := rules;
      spent, inFlight := seq(|rules|, _ => 0), [];
    }

    /** `assertBudgetAttributes` up to `await tracker.spent(rule)`. */
    method BeginPayment(request: Request, at: int) returns (denial: Option<Denial>)
      requires Valid()
      modifies this`inFlight
      ensures Valid() && Contents() == Apply(rules, old(Contents()), Begin(request, at))
      ensures denial.None? && rules != [] <==> |inFlight| == |old(inFlight)| + 1
      // denied without a rule for the request, or above the ceiling of the first one there is
      ensures (forall rule <- rules :: ValidHours(rule)) ==>
                && (denial == Some(NoMatchingRule) <==>
                    rules != [] && forall rule <- rules :: !Covers(rule, request, at))
                && (denial == Some(OverPaymentCeiling) <==>
                    exists r: nat :: FirstCover(rules, request, at, r) && request.amount > rules[r].maxAmount)
                && (denial.None? && rules != [] ==>
                    FirstCover(rules, request, at, inFlight[|inFlight| - 1].rule))
    {
      MatchingRuleMeans(rules, request, at);
      if rules == [] {
        return None;
      }
      var rule := MatchingRule(rules, request, at);
      if rule.None? {
        return Some(NoMatchingRule);
      }
      assert rules[rule.value] in rules;
      if request.amount > rules[rule.value].maxAmount {
        return Some(OverPaymentCeiling);
      }
      inFlight := inFlight + [Payment(request, at, rule.value, spent[rule.value], false)];
      return None;
    }

    /** The rest of it, on the spend read. */
    method DecidePayment(i: nat) returns (denial: Option<Denial>)
      requires Valid() && i < |inFlight|
      modifies this`inFlight
      ensures Valid() && Contents() == Apply(rules, old(Contents()), Decide(i))
      ensures denial == if Fits(rules, old(inFlight[i])) then None else Some(OverPeriodCeiling)
    {
      if !Fits(rules, inFlight[i]) {
        inFlight := Without(inFlight, i);
        return Some(OverPeriodCeiling);
      }
      inFlight := inFlight[i := inFlight[i].(cleared := true)];
      return None;
    }

    /** The facilitator has accepted: match again, and record. */
    method AcceptPayment(i: nat, at: int)
      requires Valid() && i < |inFlight| && inFlight[i].cleared
      modifies this
      ensures Valid() && Contents() == Apply(rules, old(Contents()), Accept(i, at))
    {
      var p := inFlight[i];
      inFlight := Without(inFlight, i);
      var rule := MatchingRule(rules, p.request, at);
      if rule.Some? && rules[rule.value].periodMax.Some? {
        spent := spent[rule.value := spent[rule.value] + p.request.amount];
      }
    }

    method DropPayment(i: nat)
      requires Valid() && i < |inFlight|
      modifies this`inFlight
      ensures Valid() && Contents() == Apply(rules, old(Contents()), Drop(i))
    {
      inFlight := Without(inFlight, i);
    }
  }

  // ----- The bound -----

  /** Amounts of the payments on rule `r` that are cleared, or will be. */
  function Pending(rules: seq<Rule>, ps: seq<Payment>, r: nat): nat {
    if ps == [] then 0
    else (if ps[0].rule == r && Fits(rules, ps[0]) then ps[0].request.amount else 0) + Pending(rules, ps[1..], r)
  }

  function CountOn(ps: seq<Payment>, r: nat): nat {
    if ps == [] then 0 else (if ps[0].rule == r then 1 else 0) + CountOn(ps[1..], r)
  }

  /** The largest payment that a rule can let through. */
  function Largest(rule: Rule): int {
    if rule.periodMax.Some? then Min(rule.maxAmount, rule.periodMax.value) else rule.maxAmount
  }

  /** The period ceiling and `k - 1` payments more. */
  function Bound(rule: Rule, k: nat): int
    requires rule.periodMax.Some?
  {
    rule.periodMax.value + (k - 1) * Largest(rule)
  }

  /** Never more than `k` payments on rule `r` at once. */
  ghost predicate AtMost(rules: seq<Rule>, steps: seq<Step>, r: nat, k: nat) {
    forall n :: 0 <= n <= |steps| ==> CountOn(After(rules, steps[..n]).inFlight, r) <= k
  }

  /** Recording finds rule `r` exactly for the payments that were checked against it. */
  predicate RecordsOnCheckedRule(rules: seq<Rule>, s: State, step: Step, r: nat) {
    step.Accept? && step.i < |s.inFlight| ==>
      (MatchingRule(rules, s.inFlight[step.i].request, step.at) == Some(r) <==> s.inFlight[step.i].rule == r)
  }

  ghost predicate Consistent(rules: seq<Rule>, steps: seq<Step>, r: nat) {
    forall n :: 0 <= n < |steps| ==> RecordsOnCheckedRule(rules, After(rules, steps[..n]), steps[n], r)
  }

  /** What a step adds to the payments accepted that were checked against rule `r`. */
  function AcceptedBy(s: State, step: Step, r: nat): nat {
    if step.Accept? && step.i < |s.inFlight| && s.inFlight[step.i].cleared && s.inFlight[step.i].rule == r
    then s.inFlight[step.i].request.amount else 0
  }

  /** The payments accepted that were checked against rule `r`, recorded or not. */
  function AcceptedOn(rules: seq<Rule>, steps: seq<Step>, r: nat): nat {
    if steps == [] then 0
    else
      var before := steps[..|steps| - 1];
      AcceptedOn(rules, before, r) + AcceptedBy(After(rules, before), steps[|steps| - 1], r)
  }

  lemma {:induction false} PendingAppend(rules: seq<Rule>, ps: seq<Payment>, qs: seq<Payment>, r: nat)
    ensures Pending(rules, ps + qs, r) == Pending(rules, ps, r) + Pending(rules, qs, r)
    ensures CountOn(ps + qs, r) == CountOn(ps, r) + CountOn(qs, r)
  {
    if ps == [] {
      assert ps + qs == qs;
    } else {
      assert (ps + qs)[1..] == ps[1..] + qs;
      PendingAppend(rules, ps[1..], qs, r);
    }
  }

  lemma {:induction false} PendingSplit(rules: seq<Rule>, ps: seq<Payment>, i: nat, r: nat)
    requires i < |ps|
    ensures Pending(rules, ps, r) == Pending(rules, Without(ps, i), r) + Pending(rules, [ps[i]], r)
  {
    assert ps == ps[..i] + ([ps[i]] + ps[i + 1..]);
    PendingAppend(rules, ps[..i], [ps[i]] + ps[i + 1..], r);
    PendingAppend(rules, [ps[i]], ps[i + 1..], r);
    PendingAppend(rules, ps[..i], ps[i + 1..], r);
  }

  ghost predicate WithinLimits(rules: seq<Rule>, ps: seq<Payment>) {
    forall p <- ps :: p.rule < |rules| && p.request.amount <= rules[p.rule].maxAmount && p.reading >= 0
                   && (p.cleared ==> Fits(rules, p))
  }

  lemma {:induction false} PendingBound(rules: seq<Rule>, ps: seq<Payment>, r: nat)
    requires WithinLimits(rules, ps) && r < |rules| && Largest(rules[r]) > 0
    ensures Pending(rules, ps, r) <= CountOn(ps, r) * Largest(rules[r])
  {
    if ps != [] {
      assert ps[0] in ps;
      assert forall p <- ps[1..] :: p in ps;
      PendingBound(rules, ps[1..], r);
      var n, max := CountOn(ps[1..], r), Largest(rules[r]);
      assert (n + 1) * max == n * max + max;
    }
  }

  lemma {:induction false} RunWithinLimits(rules: seq<Rule>, steps: seq<Step>)
    ensures WithinLimits(rules, After(rules, steps).inFlight)
    ensures forall i :: 0 <= i < |rules| ==> After(rules, steps).spent[i] >= 0
  {
    if steps != [] {
      RunWithinLimits(rules, steps[..|steps| - 1]);
    }
  }

  /** With at most `k` payments on a period rule in flight, what is recorded and what is committed
      together exceed the period ceiling by at most `k - 1` payments, in every interleaving. */
  lemma {:induction false} CommittedSpendIsBounded(rules: seq<Rule>, steps: seq<Step>, r: nat, k: nat)
    requires ValidAmounts(rules) && r < |rules| && rules[r].periodMax.Some? && k > 0
    requires Consistent(rules, steps, r) && AtMost(rules, steps, r, k)
    ensures var s := After(rules, steps);
      s.spent[r] + Pending(rules, s.inFlight, r) <= Bound(rules[r], k)
    ensures AcceptedOn(rules, steps, r) == After(rules, steps).spent[r]
  {
    assert rules[r] in rules;
    if steps == [] {
      MultiplyMonotone(0, k - 1, Largest(rules[r]));
    } else {
      var before, step := steps[..|steps| - 1], steps[|steps| - 1];
      assert forall n :: 0 <= n <= |before| ==> before[..n] == steps[..n];
      assert Consistent(rules, before, r) by {
        forall n | 0 <= n < |before| ensures RecordsOnCheckedRule(rules, After(rules, before[..n]), before[n], r) {
          assert RecordsOnCheckedRule(rules, After(rules, steps[..n]), steps[n], r);
        }
      }
      CommittedSpendIsBounded(rules, before, r, k);
      assert steps[..|steps|] == steps;
      RunWithinLimits(rules, before);
      RunWithinLimits(rules, steps);
      assert RecordsOnCheckedRule(rules, After(rules, before), step, r);
      CommitStep(rules, After(rules, before), step, r, k);
      AcceptedIsRecorded(rules, After(rules, before), step, r);
    }
  }

  lemma AcceptedIsRecorded(rules: seq<Rule>, s: State, step: Step, r: nat)
    requires r < |rules| && rules[r].periodMax.Some? && |s.spent| == |rules| && RecordsOnCheckedRule(rules, s, step, r)
    ensures Apply(rules, s, step).spent[r] == s.spent[r] + AcceptedBy(s, step, r)
  {
  }

  lemma {:induction false} CommitStep(rules: seq<Rule>, s: State, step: Step, r: nat, k: nat)
    requires ValidAmounts(rules) && r < |rules| && rules[r].periodMax.Some? && k > 0 && |s.spent| == |rules|
    requires WithinLimits(rules, s.inFlight) && RecordsOnCheckedRule(rules, s, step, r)
    requires CountOn(Apply(rules, s, step).inFlight, r) <= k
    requires s.spent[r] + Pending(rules, s.inFlight, r) <= Bound(rules[r], k)
    ensures var s' := Apply(rules, s, step);
      s'.spent[r] + Pending(rules, s'.inFlight, r) <= Bound(rules[r], k)
  {
    if step.Begin? && MatchingRule(rules, step.request, step.at) == Some(r)
      && step.request.amount <= rules[r].maxAmount {
      BeginStep(rules, s, Payment(step.request, step.at, r, s.spent[r], false), r, k);
    } else {
      match step
      case Begin(request, at) => BeginElsewhere(rules, s, request, at, r);
      case Decide(i) => DecideStep(rules, s, i, r);
      case Accept(i, at) => AcceptStep(rules, s, i, at, r);
      case Drop(i) =>
        if i < |s.inFlight| {
          PendingSplit(rules, s.inFlight, i, r);
        }
    }
  }

  lemma {:induction false} BeginElsewhere(rules: seq<Rule>, s: State, request: Request, at: int, r: nat)
    requires r < |rules| && |s.spent| == |rules|
    requires MatchingRule(rules, request, at) != Some(r) || request.amount > rules[r].maxAmount
    ensures var s' := Apply(rules, s, Begin(request, at));
      s'.spent == s.spent && Pending(rules, s'.inFlight, r) == Pending(rules, s.inFlight, r)
  {
    var a := MatchingRule(rules, request, at);
    if a.Some? && request.amount <= rules[a.value].maxAmount {
      var p := Payment(request, at, a.value, s.spent[a.value], false);
      PendingAppend(rules, s.inFlight, [p], r);
      assert [p][1..] == [];
    }
  }

  lemma {:induction false} DecideStep(rules: seq<Rule>, s: State, i: nat, r: nat)
    requires r < |rules| && |s.spent| == |rules|
    ensures var s' := Apply(rules, s, Decide(i));
      s'.spent == s.spent && Pending(rules, s'.inFlight, r) <= Pending(rules, s.inFlight, r)
  {
    if i < |s.inFlight| {
      PendingSplit(rules, s.inFlight, i, r);
      if Fits(rules, s.inFlight[i]) {
        var p := s.inFlight[i].(cleared := true);
        var ps := s.inFlight[i := p];
        PendingSplit(rules, ps, i, r);
        assert Without(ps, i) == Without(s.inFlight, i);
        assert [p][1..] == [s.inFlight[i]][1..] == [];
      }
    }
  }

  lemma {:induction false} AcceptStep(rules: seq<Rule>, s: State, i: nat, at: int, r: nat)
    requires r < |rules| && |s.spent| == |rules| && WithinLimits(rules, s.inFlight)
    requires RecordsOnCheckedRule(rules, s, Accept(i, at), r)
    ensures var s' := Apply(rules, s, Accept(i, at));
      s'.spent[r] + Pending(rules, s'.inFlight, r) <= s.spent[r] + Pending(rules, s.inFlight, r)
  {
    if i < |s.inFlight| && s.inFlight[i].cleared {
      PendingSplit(rules, s.inFlight, i, r);
      assert s.inFlight[i] in s.inFlight && [s.inFlight[i]][1..] == [];
    }
  }

  /** The only step that commits more: the others in flight are at most `k - 1`. */
  lemma {:induction false} BeginStep(rules: seq<Rule>, s: State, p: Payment, r: nat, k: nat)
    requires ValidAmounts(rules) && r < |rules| && rules[r].periodMax.Some? && |s.spent| == |rules|
    requires WithinLimits(rules, s.inFlight) && p.rule == r && p.reading == s.spent[r]
    requires CountOn(s.inFlight + [p], r) <= k
    requires s.spent[r] + Pending(rules, s.inFlight, r) <= Bound(rules[r], k)
    ensures s.spent[r] + Pending(rules, s.inFlight + [p], r) <= Bound(rules[r], k)
  {
    PendingAppend(rules, s.inFlight, [p], r);
    if Fits(rules, p) {
      assert rules[r] in rules;
      PendingBound(rules, s.inFlight, r);
      assert CountOn([p], r) == 1 by { assert [p][1..] == []; }
      MultiplyMonotone(CountOn(s.inFlight, r), k - 1, Largest(rules[r]));
      assert Pending(rules, [p], r) == p.request.amount by { assert [p][1..] == []; }
    }
  }

  // ----- When sequential use is safe -----

  ghost predicate MatchedWhenChecked(rules: seq<Rule>, ps: seq<Payment>) {
    forall p <- ps :: MatchingRule(rules, p.request, p.at) == Some(p.rule)
  }

  lemma {:induction false} RunMatchedWhenChecked(rules: seq<Rule>, steps: seq<Step>)
    ensures MatchedWhenChecked(rules, After(rules, steps).inFlight)
  {
    if steps != [] {
      RunMatchedWhenChecked(rules, steps[..|steps| - 1]);
    }
  }

  /** One payment at a time. */
  ghost predicate Sequential(rules: seq<Rule>, steps: seq<Step>) {
    forall n :: 0 <= n <= |steps| ==> |After(rules, steps[..n]).inFlight| <= 1
  }

  function StepTime(step: Step, before: int): int {
    if step.Begin? || step.Accept? then step.at else before
  }

  function Clock(steps: seq<Step>, origin: int): int {
    if steps == [] then origin else StepTime(steps[|steps| - 1], Clock(steps[..|steps| - 1], origin))
  }

  /** The clock does not run backwards. */
  predicate Chronological(steps: seq<Step>, origin: int) {
    steps == [] ||
    (Chronological(steps[..|steps| - 1], origin) && Clock(steps[..|steps| - 1], origin) <= Clock(steps, origin))
  }

  predicate Timed(step: Step) { step.Begin? || step.Accept? }

  function TimeOf(step: Step): int
    requires Timed(step)
  {
    match step
    case Begin(_, at) => at
    case Accept(_, at) => at
  }

  /** That is, matching and recording happen in order, none of them before the origin. */
  lemma {:induction false} ChronologicalMeans(steps: seq<Step>, origin: int)
    ensures Chronological(steps, origin) <==>
      && (forall i :: 0 <= i < |steps| && Timed(steps[i]) ==> origin <= TimeOf(steps[i]))
      && (forall i, j :: 0 <= i < j < |steps| && Timed(steps[i]) && Timed(steps[j]) ==>
            TimeOf(steps[i]) <= TimeOf(steps[j]))
    ensures Chronological(steps, origin) ==>
      && origin <= Clock(steps, origin)
      && (forall i :: 0 <= i < |steps| && Timed(steps[i]) ==> TimeOf(steps[i]) <= Clock(steps, origin))
    ensures Clock(steps, origin) == origin
            || exists i :: 0 <= i < |steps| && Timed(steps[i]) && Clock(steps, origin) == TimeOf(steps[i])
  {
    if steps != [] {
      var before := steps[..|steps| - 1];
      ChronologicalMeans(before, origin);
      assert forall i :: 0 <= i < |before| ==> before[i] == steps[i];
    }
  }

  /** For every rule with a period ceiling, the payments accepted under it exceed the ceiling by at most
      `k - 1` payments. */
  ghost predicate AcceptsWithin(rules: seq<Rule>, steps: seq<Step>, k: nat) {
    forall r :: 0 <= r < |rules| && rules[r].periodMax.Some? ==>
      AcceptedOn(rules, steps, r) <= Bound(rules[r], k)
  }

  ghost predicate AtMostEach(rules: seq<Rule>, steps: seq<Step>, k: nat) {
    forall r :: 0 <= r < |rules| ==> AtMost(rules, steps, r, k)
  }

  /** A request that matches a rule with a period ceiling matches it at all times. */
  ghost predicate Steady(rules: seq<Rule>) {
    forall request: Request, t: int, u: int ::
      var checked, later := MatchingRule(rules, request, t), MatchingRule(rules, request, u);
      checked.Some? && rules[checked.value].periodMax.Some? ==> later == checked
  }

  /** With at most `k` payments in flight on each rule, every run keeps the payments accepted under each
      rule within its period ceiling and `k - 1` payments more, exactly when time windows cannot move a
      request between a rule with a ceiling and anything else, no rule included. */
  lemma ConcurrentUseIsBoundedIffSteady(rules: seq<Rule>, origin: int, k: nat)
    requires ValidAmounts(rules) && k > 0
    ensures Steady(rules) <==>
      forall steps :: AtMostEach(rules, steps, k) && Chronological(steps, origin) ==> AcceptsWithin(rules, steps, k)
  {
    if Steady(rules) {
      forall steps | AtMostEach(rules, steps, k) ensures AcceptsWithin(rules, steps, k) {
        SteadyBound(rules, steps, k);
      }
    } else {
      var steps := Overrun(rules, origin, k);
      SequentialIsAtMostEach(rules, steps, k);
    }
  }

  /** In particular, one payment at a time stays within every period ceiling for ever, exactly then. */
  lemma SequentialUseIsSafeIffSteady(rules: seq<Rule>, origin: int)
    requires ValidAmounts(rules)
    ensures Steady(rules) <==>
      forall steps :: Sequential(rules, steps) && Chronological(steps, origin) ==> AcceptsWithin(rules, steps, 1)
  {
    if Steady(rules) {
      forall steps | Sequential(rules, steps) ensures AcceptsWithin(rules, steps, 1) {
        SequentialIsAtMostEach(rules, steps, 1);
        SteadyBound(rules, steps, 1);
      }
    } else {
      var steps := Overrun(rules, origin, 1);
    }
  }

  lemma {:induction false} SequentialIsAtMostEach(rules: seq<Rule>, steps: seq<Step>, k: nat)
    requires Sequential(rules, steps) && k > 0
    ensures AtMostEach(rules, steps, k)
  {
    forall r, n | 0 <= r < |rules| && 0 <= n <= |steps| ensures CountOn(After(rules, steps[..n]).inFlight, r) <= k {
      CountIsBounded(After(rules, steps[..n]).inFlight, r);
    }
  }

  lemma {:induction false} CountIsBounded(ps: seq<Payment>, r: nat)
    ensures CountOn(ps, r) <= |ps|
    ensures (forall p <- ps :: p.rule == r) ==> CountOn(ps, r) == |ps|
    ensures (forall p <- ps :: p.rule != r) ==> CountOn(ps, r) == 0
  {
    if ps != [] {
      assert ps[0] in ps && forall p <- ps[1..] :: p in ps;
      CountIsBounded(ps[1..], r);
    }
  }

  lemma {:induction false} SteadyBound(rules: seq<Rule>, steps: seq<Step>, k: nat)
    requires ValidAmounts(rules) && k > 0 && Steady(rules) && AtMostEach(rules, steps, k)
    ensures AcceptsWithin(rules, steps, k)
  {
    forall r | 0 <= r < |rules| && rules[r].periodMax.Some?
      ensures AcceptedOn(rules, steps, r) <= Bound(rules[r], k)
    {
      forall n | 0 <= n < |steps| ensures RecordsOnCheckedRule(rules, After(rules, steps[..n]), steps[n], r) {
        RunMatchedWhenChecked(rules, steps[..n]);
        SteadyStep(rules, After(rules, steps[..n]), steps[n], r);
      }
      assert AtMost(rules, steps, r, k);
      CommittedSpendIsBounded(rules, steps, r, k);
    }
  }

  lemma {:induction false} SteadyStep(rules: seq<Rule>, s: State, step: Step, r: nat)
    requires Steady(rules) && MatchedWhenChecked(rules, s.inFlight) && r < |rules| && rules[r].periodMax.Some?
    ensures RecordsOnCheckedRule(rules, s, step, r)
  {
    if step.Accept? && step.i < |s.inFlight| {
      var p := s.inFlight[step.i];
      assert p in s.inFlight;
    }
  }

  ghost predicate KeepsCeilings(rules: seq<Rule>, steps: seq<Step>) {
    forall r :: 0 <= r < |rules| && rules[r].periodMax.Some? ==>
      After(rules, steps).spent[r] <= rules[r].periodMax.value
  }

  /** No request is checked under one rule and, later, recorded under another rule with a period
      ceiling. */
  ghost predicate ClockStable(rules: seq<Rule>) {
    forall request: Request, t: int, u: int ::
      var checked, recorded := MatchingRule(rules, request, t), MatchingRule(rules, request, u);
      checked.Some? && recorded.Some? && rules[recorded.value].periodMax.Some? ==> checked == recorded
  }

  /** The recorded totals alone stay within the ceilings under a weaker condition: payments that are
      accepted and not recorded do not show in them. */
  lemma RecordedTotalsAreSafeIffClockStable(rules: seq<Rule>, origin: int)
    requires ValidAmounts(rules)
    ensures ClockStable(rules) <==>
      forall steps :: Sequential(rules, steps) && Chronological(steps, origin) ==> KeepsCeilings(rules, steps)
  {
    if ClockStable(rules) {
      forall steps | Sequential(rules, steps) ensures KeepsCeilings(rules, steps) {
        SequentialBound(rules, steps);
      }
    } else {
      var request: Request, t: int, u: int :|
        var checked, recorded := MatchingRule(rules, request, t), MatchingRule(rules, request, u);
        checked.Some? && recorded.Some? && rules[recorded.value].periodMax.Some? && checked != recorded;
      var steps := Overspend(rules, request, t, u, origin);
    }
  }

  lemma {:induction false} SequentialBound(rules: seq<Rule>, steps: seq<Step>)
    requires ValidAmounts(rules) && ClockStable(rules) && Sequential(rules, steps)
    ensures forall r :: 0 <= r < |rules| && rules[r].periodMax.Some? ==>
      After(rules, steps).spent[r] + Pending(rules, After(rules, steps).inFlight, r) <= rules[r].periodMax.value
  {
    assert forall rule <- rules :: rule.periodMax.Some? ==> rule.periodMax.value > 0;
    if steps != [] {
      var before, step := steps[..|steps| - 1], steps[|steps| - 1];
      assert forall n :: 0 <= n <= |before| ==> before[..n] == steps[..n];
      SequentialBound(rules, before);
      assert steps[..|steps|] == steps && |After(rules, steps).inFlight| <= 1 && |After(rules, before).inFlight| <= 1;
      RunWithinLimits(rules, before);
      RunMatchedWhenChecked(rules, before);
      forall r | 0 <= r < |rules| && rules[r].periodMax.Some?
        ensures After(rules, steps).spent[r] + Pending(rules, After(rules, steps).inFlight, r)
             <= rules[r].periodMax.value
      {
        SequentialStep(rules, After(rules, before), step, r);
      }
    }
  }

  lemma {:induction false} SequentialStep(rules: seq<Rule>, s: State, step: Step, r: nat)
    requires ClockStable(rules) && |s.spent| == |rules| && r < |rules| && rules[r].periodMax.Some?
    requires WithinLimits(rules, s.inFlight) && MatchedWhenChecked(rules, s.inFlight)
    requires |s.inFlight| <= 1 && |Apply(rules, s, step).inFlight| <= 1
    requires s.spent[r] + Pending(rules, s.inFlight, r) <= rules[r].periodMax.value
    ensures var s' := Apply(rules, s, step); s'.spent[r] + Pending(rules, s'.inFlight, r) <= rules[r].periodMax.value
  {
    if !step.Begin? && s.inFlight != [] && step.i == 0 {
      var p := s.inFlight[0];
      assert s.inFlight == [p] && Without(s.inFlight, 0) == [] && s.inFlight[1..] == [];
      assert p in s.inFlight;
      if step.Accept? {
        ClearedOnMatchedRule(rules, s, step, p, r);
      } else {
        assert s.inFlight[0 := p.(cleared := true)] == [p.(cleared := true)];
        assert [p.(cleared := true)][1..] == [];
      }
    } else if step.Begin? && Apply(rules, s, step) != s {
      var s' := Apply(rules, s, step);
      assert s.inFlight == [] && s'.inFlight == [s'.inFlight[0]] && s'.inFlight[1..] == [];
    }
  }

  /** A recorded payment goes to the rule it was checked under, if that rule counts at all. */
  lemma {:induction false} ClearedOnMatchedRule(rules: seq<Rule>, s: State, step: Step, p: Payment, r: nat)
    requires ClockStable(rules) && |s.spent| == |rules| && r < |rules| && rules[r].periodMax.Some?
    requires s.inFlight == [p] && step.Accept? && step.i == 0
    requires WithinLimits(rules, s.inFlight) && MatchedWhenChecked(rules, s.inFlight)
    requires s.spent[r] + Pending(rules, s.inFlight, r) <= rules[r].periodMax.value
    ensures var s' := Apply(rules, s, step); s'.spent[r] + Pending(rules, s'.inFlight, r) <= rules[r].periodMax.value
  {
  }

  /** The first time that looks like `t` to every rule and is not before `now`. */
  function Later(t: int, now: int): (l: int)
    ensures l >= now
  {
    t + WEEK * (if now < t then t - now else now - t)
  }

  lemma {:induction false} WeeksLookAlike(rules: seq<Rule>, request: Request, t: int, now: int)
    ensures MatchingRule(rules, request, Later(t, now)) == MatchingRule(rules, request, t)
  {
    ShiftByWeeks(t, if now < t then t - now else now - t);
    if rules != [] {
      WeeksLookAlike(rules[1..], request, t, now);
    }
  }

  lemma ShiftByWeeks(t: int, k: nat)
    ensures HourOf(t + WEEK * k) == HourOf(t) && DayOf(t + WEEK * k) == DayOf(t)
  {
    ShiftHours(t, k);
    ShiftDays(t, k);
    ShiftCycle(t / HOUR, 7 * k, t / DAY + 4, k);
  }

  lemma ShiftHours(t: int, k: nat)
    ensures (t + WEEK * k) / HOUR == t / HOUR + 24 * (7 * k)
  {
  }

  lemma ShiftDays(t: int, k: nat)
    ensures (t + WEEK * k) / DAY == t / DAY + 7 * k
  {
  }

  lemma ShiftCycle(hours: int, m: int, days: int, n: int)
    ensures (hours + 24 * m) % 24 == hours % 24 && (days + 7 * n) % 7 == days % 7
  {
  }

  lemma {:induction false} Snoc(rules: seq<Rule>, steps: seq<Step>, step: Step, origin: int)
    requires Sequential(rules, steps) && Chronological(steps, origin)
    requires Clock(steps, origin) <= StepTime(step, Clock(steps, origin))
    requires |Apply(rules, After(rules, steps), step).inFlight| <= 1
    ensures var more := steps + [step];
      && Sequential(rules, more) && Chronological(more, origin)
      && Clock(more, origin) == StepTime(step, Clock(steps, origin))
  {
    var more := steps + [step];
    assert more[..|more| - 1] == steps && more[..|more|] == more;
    AfterSnoc(rules, steps, step);
    forall n | 0 <= n <= |more| ensures |After(rules, more[..n]).inFlight| <= 1 {
      if n <= |steps| {
        assert more[..n] == steps[..n];
      } else {
        assert more[..n] == more;
      }
    }
  }

  lemma AfterSnoc(rules: seq<Rule>, steps: seq<Step>, step: Step)
    ensures After(rules, steps + [step]) == Apply(rules, After(rules, steps), step)
    ensures forall r: nat ::
      AcceptedOn(rules, steps + [step], r) == AcceptedOn(rules, steps, r) + AcceptedBy(After(rules, steps), step, r)
  {
    assert (steps + [step])[..|steps|] == steps;
  }

  /** The totals after recording a payment on the rule that matches at time `u`. */
  function RecordedAt(rules: seq<Rule>, spent: seq<int>, q: Request, u: int): (spent': seq<int>)
    requires |spent| == |rules|
    ensures |spent'| == |rules|
  {
    var b := MatchingRule(rules, q, u);
    if b.Some? && rules[b.value].periodMax.Some? then spent[b.value := spent[b.value] + q.amount] else spent
  }

  /** A payment checked at time `t`, under rule `a`, and recorded at time `u`. */
  function OnePayment(q: Request, t: int, u: int): seq<Step> { [Begin(q, t), Decide(0), Accept(0, u)] }

  /** Rule `a` leaves room for the payment at time `t`. */
  predicate HasRoom(rules: seq<Rule>, spent: seq<int>, q: Request, t: int, a: nat) {
    && |spent| == |rules| && MatchingRule(rules, q, t) == Some(a) && q.amount <= rules[a].maxAmount
    && (rules[a].periodMax.Some? ==> spent[a] + q.amount <= rules[a].periodMax.value)
  }

  lemma {:induction false} PaymentSteps(rules: seq<Rule>, spent: seq<int>, q: Request, t: int, u: int, a: nat)
    requires HasRoom(rules, spent, q, t, a)
    ensures var p := Payment(q, t, a, spent[a], false);
      var cleared := p.(cleared := true);
      && Apply(rules, State(spent, []), Begin(q, t)) == State(spent, [p])
      && Apply(rules, State(spent, [p]), Decide(0)) == State(spent, [cleared])
      && Apply(rules, State(spent, [cleared]), Accept(0, u)) == State(RecordedAt(rules, spent, q, u), [])
      && AcceptedBy(State(spent, [cleared]), Accept(0, u), a) == q.amount
  {
    var p := Payment(q, t, a, spent[a], false);
    var cleared := p.(cleared := true);
    assert [] + [p] == [p];
    assert Fits(rules, p) && [p][0 := cleared] == [cleared];
    assert Without([cleared], 0) == [];
  }

  lemma {:induction false} PayOne(rules: seq<Rule>, steps: seq<Step>, q: Request, t: int, u: int, a: nat)
    requires After(rules, steps).inFlight == [] && HasRoom(rules, After(rules, steps).spent, q, t, a)
    ensures var more := steps + OnePayment(q, t, u);
      && After(rules, more) == State(RecordedAt(rules, After(rules, steps).spent, q, u), [])
      && AcceptedOn(rules, more, a) == AcceptedOn(rules, steps, a) + q.amount
    ensures |After(rules, steps + [Begin(q, t)]).inFlight| == 1
    ensures |After(rules, steps + [Begin(q, t)] + [Decide(0)]).inFlight| == 1
    ensures steps + OnePayment(q, t, u) == steps + [Begin(q, t)] + [Decide(0)] + [Accept(0, u)]
  {
    var spent := After(rules, steps).spent;
    PaymentSteps(rules, spent, q, t, u, a);
    assert After(rules, steps) == State(spent, []);
    AfterSnoc(rules, steps, Begin(q, t));
    AfterSnoc(rules, steps + [Begin(q, t)], Decide(0));
    AfterSnoc(rules, steps + [Begin(q, t)] + [Decide(0)], Accept(0, u));
    assert steps + OnePayment(q, t, u) == steps + [Begin(q, t)] + [Decide(0)] + [Accept(0, u)];
  }

  lemma {:induction false} PayOneInTime(rules: seq<Rule>, steps: seq<Step>, q: Request, t: int, u: int, a: nat,
                                        origin: int)
    requires After(rules, steps).inFlight == [] && HasRoom(rules, After(rules, steps).spent, q, t, a)
    requires Sequential(rules, steps) && Chronological(steps, origin) && Clock(steps, origin) <= t <= u
    ensures var more := steps + OnePayment(q, t, u); Sequential(rules, more) && Chronological(more, origin)
  {
    PayOne(rules, steps, q, t, u, a);
    AfterSnoc(rules, steps, Begin(q, t));
    Snoc(rules, steps, Begin(q, t), origin);
    AfterSnoc(rules, steps + [Begin(q, t)], Decide(0));
    Snoc(rules, steps + [Begin(q, t)], Decide(0), origin);
    AfterSnoc(rules, steps + [Begin(q, t)] + [Decide(0)], Accept(0, u));
    Snoc(rules, steps + [Begin(q, t)] + [Decide(0)], Accept(0, u), origin);
  }

  /** `n` payments of 1, each checked under rule `a` and recorded, if at all, on rule `b`. */
  ghost predicate PaidElsewhere(rules: seq<Rule>, steps: seq<Step>, origin: int, a: nat, b: Option<nat>, n: nat)
    requires a < |rules| && (b.Some? ==> b.value < |rules|)
  {
    && Sequential(rules, steps) && Chronological(steps, origin) && After(rules, steps).inFlight == []
    && After(rules, steps).spent[a] == 0 && AcceptedOn(rules, steps, a) == n
    && (b.Some? && rules[b.value].periodMax.Some? ==> After(rules, steps).spent[b.value] == n)
  }

  /** Each is checked at a time like `t` and recorded at a time like `u`. */
  lemma {:induction false} PayOnes(rules: seq<Rule>, q: Request, t: int, u: int, a: nat, origin: int, n: nat)
    returns (steps: seq<Step>)
    requires ValidAmounts(rules) && q.amount == 1 && MatchingRule(rules, q, t) == Some(a)
      && MatchingRule(rules, q, u) != Some(a)
    ensures PaidElsewhere(rules, steps, origin, a, MatchingRule(rules, q, u), n)
  {
    if n == 0 {
      steps := [];
    } else {
      var before := PayOnes(rules, q, t, u, a, origin, n - 1);
      var checkAt, recordAt := NextTimes(rules, q, t, u, Clock(before, origin));
      assert rules[a] in rules;
      OneMorePaid(rules, before, q, checkAt, recordAt, a, origin, n - 1);
      steps := before + OnePayment(q, checkAt, recordAt);
    }
  }

  lemma {:induction false} OneMorePaid(rules: seq<Rule>, steps: seq<Step>, q: Request, t: int, u: int, a: nat,
                                       origin: int, n: nat)
    requires q.amount == 1 && MatchingRule(rules, q, t) == Some(a) && MatchingRule(rules, q, u) != Some(a)
    requires 1 <= rules[a].maxAmount && (rules[a].periodMax.Some? ==> 1 <= rules[a].periodMax.value)
    requires PaidElsewhere(rules, steps, origin, a, MatchingRule(rules, q, u), n) && Clock(steps, origin) <= t <= u
    ensures PaidElsewhere(rules, steps + OnePayment(q, t, u), origin, a, MatchingRule(rules, q, u), n + 1)
  {
    PayOne(rules, steps, q, t, u, a);
    PayOneInTime(rules, steps, q, t, u, a, origin);
  }

  lemma {:induction false} NextTimes(rules: seq<Rule>, q: Request, t: int, u: int, now: int)
    returns (checkAt: int, recordAt: int)
    ensures now <= checkAt <= recordAt
    ensures MatchingRule(rules, q, checkAt) == MatchingRule(rules, q, t)
    ensures MatchingRule(rules, q, recordAt) == MatchingRule(rules, q, u)
  {
    checkAt := Later(t, now);
    recordAt := Later(u, checkAt);
    WeeksLookAlike(rules, q, t, now);
    WeeksLookAlike(rules, q, u, checkAt);
  }

  lemma {:induction false} Overspend(rules: seq<Rule>, request: Request, t: int, u: int, origin: int)
    returns (steps: seq<Step>)
    requires ValidAmounts(rules)
    requires var checked, recorded := MatchingRule(rules, request, t), MatchingRule(rules, request, u);
      checked.Some? && recorded.Some? && rules[recorded.value].periodMax.Some? && checked != recorded
    ensures Sequential(rules, steps) && Chronological(steps, origin) && !KeepsCeilings(rules, steps)
  {
    var q := request.(amount := 1);
    AmountDoesNotMatch(rules, request, q, t);
    AmountDoesNotMatch(rules, request, q, u);
    var a, b := MatchingRule(rules, q, t).value, MatchingRule(rules, q, u).value;
    assert rules[b] in rules;
    steps := PayOnes(rules, q, t, u, a, origin, rules[b].periodMax.value + 1);
  }

  lemma {:induction false} Overrun(rules: seq<Rule>, origin: int, k: nat) returns (steps: seq<Step>)
    requires ValidAmounts(rules) && k > 0 && !Steady(rules)
    ensures Sequential(rules, steps) && Chronological(steps, origin) && !AcceptsWithin(rules, steps, k)
  {
    var request: Request, t: int, u: int :|
      var checked, later := MatchingRule(rules, request, t), MatchingRule(rules, request, u);
      checked.Some? && rules[checked.value].periodMax.Some? && later != checked;
    var q := request.(amount := 1);
    AmountDoesNotMatch(rules, request, q, t);
    AmountDoesNotMatch(rules, request, q, u);
    var a := MatchingRule(rules, q, t).value;
    assert rules[a] in rules;
    MultiplyMonotone(0, k - 1, Largest(rules[a]));
    steps := PayOnes(rules, q, t, u, a, origin, Bound(rules[a], k) + 1);
  }

  lemma {:induction false} AmountDoesNotMatch(rules: seq<Rule>, q: Request, q': Request, t: int)
    requires q' == q.(amount := q'.amount)
    ensures MatchingRule(rules, q, t) == MatchingRule(rules, q', t)
  {
    if rules != [] {
      AmountDoesNotMatch(rules[1..], q, q', t);
    }
  }

  // ----- The bound is reached -----

  ghost predicate Allowed(rules: seq<Rule>, steps: seq<Step>, r: nat, k: nat) {
    Consistent(rules, steps, r) && AtMost(rules, steps, r, k)
  }

  lemma {:induction false} AllowedSnoc(rules: seq<Rule>, steps: seq<Step>, step: Step, r: nat, k: nat)
    requires Allowed(rules, steps, r, k) && RecordsOnCheckedRule(rules, After(rules, steps), step, r)
    requires CountOn(Apply(rules, After(rules, steps), step).inFlight, r) <= k
    ensures Allowed(rules, steps + [step], r, k)
  {
    var more := steps + [step];
    AfterSnoc(rules, steps, step);
    forall n | 0 <= n <= |more| ensures CountOn(After(rules, more[..n]).inFlight, r) <= k {
      assert more[..n] == if n <= |steps| then steps[..n] else more;
    }
    forall n | 0 <= n < |more| ensures RecordsOnCheckedRule(rules, After(rules, more[..n]), more[n], r) {
      assert more[..n] == steps[..n];
      assert steps[..|steps|] == steps;
    }
  }

  /** `n` payments waiting that all read the spend before any of them is recorded. */
  function Waiting(p: Payment, n: nat): seq<Payment> { seq(n, _ => p) }

  lemma {:induction false} WaitingCount(p: Payment, n: nat)
    ensures CountOn(Waiting(p, n), p.rule) == n
    ensures n > 0 ==> Waiting(p, n) == Waiting(p, n - 1) + [p] == [p] + Waiting(p, n - 1)
  {
    if n > 0 {
      assert Waiting(p, n)[1..] == Waiting(p, n - 1);
      WaitingCount(p, n - 1);
    }
  }

  /** One payment of 1 after the other, until `n` are spent. */
  lemma {:induction false} FillUp(rules: seq<Rule>, q: Request, at: int, r: nat, k: nat, n: nat)
    returns (steps: seq<Step>)
    requires ValidAmounts(rules) && k > 0 && q.amount == 1 && MatchingRule(rules, q, at) == Some(r)
    requires rules[r].periodMax.Some? && n <= rules[r].periodMax.value
    ensures Allowed(rules, steps, r, k) && After(rules, steps).inFlight == [] && After(rules, steps).spent[r] == n
  {
    if n == 0 {
      steps := [];
    } else {
      var before := FillUp(rules, q, at, r, k, n - 1);
      assert rules[r] in rules;
      PayOne(rules, before, q, at, at, r);
      FillStep(rules, before, q, at, r, k);
      steps := before + OnePayment(q, at, at);
    }
  }

  lemma {:induction false} FillStep(rules: seq<Rule>, steps: seq<Step>, q: Request, at: int, r: nat, k: nat)
    requires k > 0 && Allowed(rules, steps, r, k) && rules != []
    requires After(rules, steps).inFlight == [] && HasRoom(rules, After(rules, steps).spent, q, at, r)
    ensures Allowed(rules, steps + OnePayment(q, at, at), r, k)
  {
    var spent := After(rules, steps).spent;
    PayOne(rules, steps, q, at, at, r);
    PaymentSteps(rules, spent, q, at, at, r);
    assert After(rules, steps) == State(spent, []);
    var one, two := steps + [Begin(q, at)], steps + [Begin(q, at)] + [Decide(0)];
    AfterSnoc(rules, steps, Begin(q, at));
    AfterSnoc(rules, one, Decide(0));
    AfterSnoc(rules, two, Accept(0, at));
    CountIsBounded(After(rules, one).inFlight, r);
    CountIsBounded(After(rules, two).inFlight, r);
    AllowedSnoc(rules, steps, Begin(q, at), r, k);
    AllowedSnoc(rules, one, Decide(0), r, k);
    AllowedSnoc(rules, two, Accept(0, at), r, k);
  }

  /** `n` payments begin before any of them is decided. */
  lemma {:induction false} Crowd(rules: seq<Rule>, start: seq<Step>, q: Request, at: int, r: nat, k: nat, n: nat)
    returns (steps: seq<Step>)
    requires Allowed(rules, start, r, k) && After(rules, start).inFlight == [] && n <= k
    requires MatchingRule(rules, q, at) == Some(r) && q.amount <= rules[r].maxAmount
    ensures Allowed(rules, steps, r, k)
    ensures var spent := After(rules, start).spent;
      After(rules, steps) == State(spent, Waiting(Payment(q, at, r, spent[r], false), n))
  {
    var spent := After(rules, start).spent;
    var p := Payment(q, at, r, spent[r], false);
    if n == 0 {
      steps := start;
    } else {
      var before := Crowd(rules, start, q, at, r, k, n - 1);
      WaitingCount(p, n);
      AfterSnoc(rules, before, Begin(q, at));
      AllowedSnoc(rules, before, Begin(q, at), r, k);
      steps := before + [Begin(q, at)];
    }
  }

  predicate Settleable(rules: seq<Rule>, p: Payment, at: int)
    requires p.rule < |rules|
  {
    !p.cleared && Fits(rules, p) && MatchingRule(rules, p.request, at) == Some(p.rule) && rules[p.rule].periodMax.Some?
  }

  /** Then each of them is cleared on its old reading, and recorded. */
  lemma {:induction false} Settle(rules: seq<Rule>, start: seq<Step>, p: Payment, at: int, k: nat, n: nat)
    returns (steps: seq<Step>)
    requires p.rule < |rules| && Settleable(rules, p, at)
    requires Allowed(rules, start, p.rule, k) && After(rules, start).inFlight == Waiting(p, n) && n <= k
    ensures Allowed(rules, steps, p.rule, k) && After(rules, steps).inFlight == []
    ensures After(rules, steps).spent[p.rule] == After(rules, start).spent[p.rule] + n * p.request.amount
    decreases n
  {
    if n == 0 {
      steps := start;
    } else {
      var next := SettleNext(rules, start, p, at, k, n);
      steps := Settle(rules, next, p, at, k, n - 1);
      OneMore(n, p.request.amount);
    }
  }

  lemma OneMore(n: nat, amount: nat)
    requires n > 0
    ensures n * amount == amount + (n - 1) * amount
  {
  }

  lemma {:induction false} SettleNext(rules: seq<Rule>, start: seq<Step>, p: Payment, at: int, k: nat, n: nat)
    returns (steps: seq<Step>)
    requires p.rule < |rules| && Settleable(rules, p, at)
    requires Allowed(rules, start, p.rule, k) && After(rules, start).inFlight == Waiting(p, n) && 0 < n <= k
    ensures Allowed(rules, steps, p.rule, k) && After(rules, steps).inFlight == Waiting(p, n - 1)
    ensures After(rules, steps).spent[p.rule] == After(rules, start).spent[p.rule] + p.request.amount
  {
    SettleOne(rules, After(rules, start), p, at, n);
    var cleared := start + [Decide(0)];
    AfterSnoc(rules, start, Decide(0));
    AllowedSnoc(rules, start, Decide(0), p.rule, k);
    AfterSnoc(rules, cleared, Accept(0, at));
    AllowedSnoc(rules, cleared, Accept(0, at), p.rule, k);
    steps := cleared + [Accept(0, at)];
  }

  lemma {:induction false} SettleOne(rules: seq<Rule>, s: State, p: Payment, at: int, n: nat)
    requires p.rule < |rules| && Settleable(rules, p, at)
    requires |s.spent| == |rules| && s.inFlight == Waiting(p, n) && n > 0
    ensures var cleared := p.(cleared := true);
      var s1 := State(s.spent, [cleared] + Waiting(p, n - 1));
      && Apply(rules, s, Decide(0)) == s1 && s1.inFlight[0].rule == p.rule && CountOn(s1.inFlight, p.rule) == n
      && Apply(rules, s1, Accept(0, at))
         == State(s.spent[p.rule := s.spent[p.rule] + p.request.amount], Waiting(p, n - 1))
      && CountOn(Waiting(p, n - 1), p.rule) == n - 1
  {
    var cleared := p.(cleared := true);
    WaitingCount(p, n);
    WaitingCount(p, n - 1);
    var ps := [cleared] + Waiting(p, n - 1);
    assert s.inFlight[0 := cleared] == ps;
    assert ps[1..] == Waiting(p, n - 1) && Without(ps, 0) == Waiting(p, n - 1);
  }

  /** `CommittedSpendIsBounded` cannot be improved: for any rules, every rule with a ceiling that some
      request matches, and every `k`, some run accepts and records exactly the bound. */
  lemma {:induction false} BoundIsReached(rules: seq<Rule>, request: Request, at: int, r: nat, k: nat)
    returns (steps: seq<Step>)
    requires ValidAmounts(rules) && k > 0 && MatchingRule(rules, request, at) == Some(r)
    requires rules[r].periodMax.Some?
    ensures Consistent(rules, steps, r) && AtMost(rules, steps, r, k) && After(rules, steps).inFlight == []
    ensures AcceptedOn(rules, steps, r) == After(rules, steps).spent[r]
         == Bound(rules[r], k)
  {
    assert rules[r] in rules;
    var max, ceiling := Largest(rules[r]), rules[r].periodMax.value;
    var one, full := request.(amount := 1), request.(amount := max);
    AmountDoesNotMatch(rules, request, one, at);
    AmountDoesNotMatch(rules, request, full, at);
    steps := FillUp(rules, one, at, r, k, ceiling - max);
    steps := Crowd(rules, steps, full, at, r, k, k);
    steps := Settle(rules, steps, Payment(full, at, r, ceiling - max, false), at, k, k);
    OneMore(k, max);
    CommittedSpendIsBounded(rules, steps, r, k);
  }
}
