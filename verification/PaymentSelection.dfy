/** Choosing the payment option of a 402 challenge (src/x402-guards.ts,
    contrib/x402-multi-asset/multi-asset-selector.ts). */
module PaymentSelection {
  import opened Prelude
  import opened Decimal

  /** `extra.areFeesSponsored`: true, false, or anything else. */
  datatype Sponsorship = Sponsored | NotSponsored | Undeclared

  datatype Requirements = Requirements(scheme: string, network: string, asset: string, amount: string,
                                       payTo: string, category: Option<string>, fees: Sponsorship)

  datatype PayOptions = PayOptions(maxAmount: int, allowedAssets: Option<seq<string>>)

  datatype Refusal =
    | NoUsableOption
    | FeesNotSponsored(declaredFalse: bool)
    | DisallowedAsset(asset: string)
    | MalformedAmount(amount: string)
    | MaxAmountExceeded(required: nat, asset: string)

  /** `parseAmount`: digits only. */
  function ParseAmount(amount: string): Result<nat, Refusal> {
    if amount == "" || !AllDigits(amount) then Failure(MalformedAmount(amount)) else Success(Value(amount))
  }

  predicate WellFormed(a: Requirements) { ParseAmount(a.amount).Success? }

  function Price(a: Requirements): nat
    requires WellFormed(a)
  {
    ParseAmount(a.amount).value
  }

  // ----- The filters -----

  predicate OnNetwork(a: Requirements, caip2: string) { a.scheme == "exact" && a.network == caip2 }

  predicate AssetAllowed(opts: PayOptions, asset: string) {
    opts.allowedAssets.Some? ==> asset in opts.allowedAssets.value
  }

  /** The options this client could pay for, the amount apart. */
  predicate Eligible(a: Requirements, opts: PayOptions, caip2: string) {
    && a.scheme == "exact" && a.network == caip2 && a.fees == Sponsored
    && (opts.allowedAssets.None? || a.asset in opts.allowedAssets.value)
  }

  function IsOnNetwork(caip2: string): Requirements -> bool { (a: Requirements) => OnNetwork(a, caip2) }

  function IsSponsored(): Requirements -> bool { (a: Requirements) => a.fees == Sponsored }

  function IsAllowed(opts: PayOptions): Requirements -> bool { (a: Requirements) => AssetAllowed(opts, a.asset) }

  function IsEligible(opts: PayOptions, caip2: string): Requirements -> bool {
    (a: Requirements) => Eligible(a, opts, caip2)
  }

  function Filter<T>(s: seq<T>, keep: T -> bool): seq<T> {
    if s == [] then []
    else (if keep(s[0]) then [s[0]] else []) + Filter(s[1..], keep)
  }

  // ----- The selection -----

  /** One step of the `reduce`: both amounts are parsed, the challenger wins only if cheaper. */
  function Cheaper(cheapest: Requirements, a: Requirements): Result<Requirements, Refusal> {
    var challenger, holder := ParseAmount(a.amount), ParseAmount(cheapest.amount);
    if challenger.Failure? then Failure(challenger.error)
    else if holder.Failure? then Failure(holder.error)
    else Success(if challenger.value < holder.value then a else cheapest)
  }

  function ReduceCheapest(cheapest: Requirements, rest: seq<Requirements>): Result<Requirements, Refusal>
    decreases |rest|
  {
    if rest == [] then Success(cheapest)
    else
      var next := Cheaper(cheapest, rest[0]);
      if next.Failure? then next else ReduceCheapest(next.value, rest[1..])
  }

  /** The limit of the caller, applied to the cheapest option. */
  function WithinLimit(usable: Result<Requirements, Refusal>, opts: PayOptions): Result<Requirements, Refusal> {
    if usable.Failure? then usable
    else
      var required := ParseAmount(usable.value.amount);
      if required.Failure? then Failure(required.error)
      else if required.value > opts.maxAmount then Failure(MaxAmountExceeded(required.value, usable.value.asset))
      else usable
  }

  /** The end of the selection, from the options left. */
  function Decide(allowed: seq<Requirements>, opts: PayOptions): Result<Requirements, Refusal>
    requires allowed != []
  {
    WithinLimit(ReduceCheapest(allowed[0], allowed[1..]), opts)
  }

  /** `selectRequirements`. */
  function Select(accepts: seq<Requirements>, opts: PayOptions, caip2: string): Result<Requirements, Refusal> {
    var onNetwork := Filter(accepts, IsOnNetwork(caip2));
    if onNetwork == [] then Failure(NoUsableOption)
    else
      var candidates := Filter(onNetwork, IsSponsored());
      if candidates == [] then Failure(FeesNotSponsored(exists a <- onNetwork :: a.fees == NotSponsored))
      else
        var allowed := Filter(candidates, IsAllowed(opts));
        if allowed == [] then Failure(DisallowedAsset(candidates[0].asset))
        else Decide(allowed, opts)
  }

  // ----- What the selection means -----

  /** `s[k]` is eligible, well formed and cheaper than every earlier and no dearer than every later
      eligible option. */
  ghost predicate FirstCheapest(s: seq<Requirements>, k: nat, keep: Requirements -> bool) {
    && k < |s| && keep(s[k]) && WellFormed(s[k])
    && (forall i :: 0 <= i < k && keep(s[i]) ==> WellFormed(s[i]) && Price(s[k]) < Price(s[i]))
    && (forall i :: k < i < |s| && keep(s[i]) ==> WellFormed(s[i]) && Price(s[k]) <= Price(s[i]))
  }

  lemma {:induction false} FilterFacts<T>(s: seq<T>, keep: T -> bool)
    ensures forall x :: x in Filter(s, keep) <==> x in s && keep(x)
  {
    if s != [] {
      FilterFacts(s[1..], keep);
      assert s == [s[0]] + s[1..];
    }
  }

  lemma {:induction false} FilterTwice<T>(s: seq<T>, p: T -> bool, q: T -> bool, both: T -> bool)
    requires forall x <- s :: both(x) <==> p(x) && q(x)
    ensures Filter(Filter(s, p), q) == Filter(s, both)
  {
    if s != [] {
      assert forall x <- s[1..] :: x in s;
      FilterTwice(s[1..], p, q, both);
      assert s[0] in s;
      var rest := Filter(s[1..], p);
      assert ([s[0]] + rest)[1..] == rest;
      assert [] + rest == rest;
      assert [] + Filter(s[1..], both) == Filter(s[1..], both);
    }
  }

  lemma {:induction false} FilterAppend<T>(s: seq<T>, t: seq<T>, keep: T -> bool)
    ensures Filter(s + t, keep) == Filter(s, keep) + Filter(t, keep)
  {
    if s == [] {
      assert s + t == t;
    } else {
      var head := if keep(s[0]) then [s[0]] else [];
      assert (s + t)[1..] == s[1..] + t && (s + t)[0] == s[0];
      FilterAppend(s[1..], t, keep);
      assert Filter(s + t, keep) == head + (Filter(s[1..], keep) + Filter(t, keep));
      Reassociate(head, Filter(s[1..], keep), Filter(t, keep));
    }
  }

  lemma Reassociate<T>(a: seq<T>, b: seq<T>, c: seq<T>)
    ensures a + (b + c) == (a + b) + c
  {
  }

  /** Where the elements kept come from: in order, with nothing kept in between. */
  lemma {:induction false} FilterIndex<T>(s: seq<T>, keep: T -> bool, k: nat) returns (m: nat)
    requires k < |Filter(s, keep)|
    ensures m < |s| && keep(s[m]) && s[m] == Filter(s, keep)[k]
    ensures Filter(s[..m], keep) == Filter(s, keep)[..k]
    ensures Filter(s[m + 1..], keep) == Filter(s, keep)[k + 1..]
  {
    var head := if keep(s[0]) then [s[0]] else [];
    assert Filter(s, keep) == head + Filter(s[1..], keep);
    if keep(s[0]) && k == 0 {
      m := 0;
      assert s[..0] == [];
    } else {
      var j := FilterIndex(s[1..], keep, k - |head|);
      m := j + 1;
      assert s[..m] == [s[0]] + s[1..][..j] && s[..m][1..] == s[1..][..j];
      assert s[m + 1..] == s[1..][j + 1..];
    }
  }

  /** The `reduce` yields the first cheapest element, or fails because one of several is malformed. */
  lemma {:induction false} ReduceFindsFirstCheapest(s: seq<Requirements>)
    requires s != []
    ensures var r := ReduceCheapest(s[0], s[1..]);
      && (r.Success? <==> |s| == 1 || forall a <- s :: WellFormed(a))
      && (r.Failure? ==> r.error.MalformedAmount?)
      && (r.Success? ==> r.value in s)
      && (r.Success? && WellFormed(r.value) ==> exists k: nat :: FirstCheapest(s, k, Any()) && s[k] == r.value)
    decreases |s|
  {
    if |s| == 1 {
      if WellFormed(s[0]) {
        assert FirstCheapest(s, 0, Any());
      }
    } else {
      var next := Cheaper(s[0], s[1]);
      assert s[1..][0] == s[1] && s[1..][1..] == s[2..];
      assert s[0] in s && s[1] in s;
      if next.Success? {
        var t := [next.value] + s[2..];
        assert t[1..] == s[2..];
        ReduceFindsFirstCheapest(t);
        assert forall a :: a in s <==> a == s[0] || a == s[1] || a in s[2..];
        var r := ReduceCheapest(t[0], t[1..]);
        if r.Success? {
          assert WellFormed(next.value);
          var k: nat :| FirstCheapest(t, k, Any()) && t[k] == r.value;
          CheapestStep(s, t, k);
        }
      }
    }
  }

  function Any(): Requirements -> bool { (_: Requirements) => true }

  lemma CheapestStep(s: seq<Requirements>, t: seq<Requirements>, k: nat)
    requires |s| >= 2 && Cheaper(s[0], s[1]).Success? && t == [Cheaper(s[0], s[1]).value] + s[2..]
    requires FirstCheapest(t, k, Any())
    ensures exists m: nat :: FirstCheapest(s, m, Any()) && s[m] == t[k]
  {
    assert forall i :: 2 <= i < |s| ==> s[i] == t[i - 1];
    var m := if k > 0 then k + 1 else if Price(s[1]) < Price(s[0]) then 1 else 0;
    if k > 0 {
      assert Any()(t[0]) && Price(t[k]) < Price(t[0]);
      forall i | 0 <= i < m ensures WellFormed(s[i]) && Price(s[m]) < Price(s[i]) {
        if i >= 2 { assert Any()(t[i - 1]); }
      }
    }
    assert FirstCheapest(s, m, Any()) && s[m] == t[k];
  }

  /** Only the eligible options decide, once there is one. */
  lemma SelectDependsOnEligible(accepts: seq<Requirements>, opts: PayOptions, caip2: string)
    ensures var eligible := Filter(accepts, IsEligible(opts, caip2));
      if eligible == [] then
        Select(accepts, opts, caip2).Failure? && !Select(accepts, opts, caip2).error.MaxAmountExceeded?
        && !Select(accepts, opts, caip2).error.MalformedAmount?
      else Select(accepts, opts, caip2) == Decide(eligible, opts)
    ensures Filter(Filter(Filter(accepts, IsOnNetwork(caip2)), IsSponsored()), IsAllowed(opts))
         == Filter(accepts, IsEligible(opts, caip2))
  {
    var netFees := (a: Requirements) => OnNetwork(a, caip2) && a.fees == Sponsored;
    FilterTwice(accepts, IsOnNetwork(caip2), IsSponsored(), netFees);
    FilterTwice(accepts, netFees, IsAllowed(opts), IsEligible(opts, caip2));
  }

  lemma {:induction false} DecideFacts(eligible: seq<Requirements>, opts: PayOptions)
    requires eligible != []
    ensures var r := Decide(eligible, opts);
      && (r.Success? ==> exists k: nat :: FirstCheapest(eligible, k, Any()) && eligible[k] == r.value
                                          && Price(r.value) <= opts.maxAmount)
      && (r.Failure? ==> r.error.MalformedAmount? || r.error.MaxAmountExceeded?)
      && (r.Failure? && r.error.MalformedAmount? <==> exists a <- eligible :: !WellFormed(a))
      && (r.Failure? && r.error.MaxAmountExceeded?
          <==> forall a <- eligible :: WellFormed(a) && Price(a) > opts.maxAmount)
  {
    ReduceFindsFirstCheapest(eligible);
    var r := ReduceCheapest(eligible[0], eligible[1..]);
    if r.Success? && WellFormed(r.value) {
      var k: nat :| FirstCheapest(eligible, k, Any()) && eligible[k] == r.value;
      assert forall i :: 0 <= i < |eligible| ==> WellFormed(eligible[i]) && Price(eligible[k]) <= Price(eligible[i]);
    } else if r.Success? {
      assert !WellFormed(eligible[0]);
    }
  }

  /** A selected option is the first cheapest eligible one and within the limit; and whenever such
      an option exists it is selected. */
  lemma SelectsFirstCheapest(accepts: seq<Requirements>, opts: PayOptions, caip2: string, a: Requirements)
    ensures Select(accepts, opts, caip2) == Success(a)
       <==> exists k: nat ::
         FirstCheapest(accepts, k, IsEligible(opts, caip2)) && accepts[k] == a && Price(a) <= opts.maxAmount
  {
    var keep := IsEligible(opts, caip2);
    var eligible := Filter(accepts, keep);
    SelectDependsOnEligible(accepts, opts, caip2);
    FilterFacts(accepts, keep);
    if eligible != [] {
      DecideFacts(eligible, opts);
      if Select(accepts, opts, caip2).Success? {
        var r := Select(accepts, opts, caip2).value;
        var k: nat :| FirstCheapest(eligible, k, Any()) && eligible[k] == r;
        var m := LiftFirstCheapest(accepts, keep, k);
        if exists n: nat :: FirstCheapest(accepts, n, keep) && accepts[n] == a && Price(a) <= opts.maxAmount {
          var n: nat :| FirstCheapest(accepts, n, keep) && accepts[n] == a;
          FirstCheapestIsUnique(accepts, m, n, keep);
        }
      } else if exists n: nat :: FirstCheapest(accepts, n, keep) && accepts[n] == a && Price(a) <= opts.maxAmount {
        var n: nat :| FirstCheapest(accepts, n, keep) && accepts[n] == a && Price(a) <= opts.maxAmount;
        assert a in eligible;
        EligibleWellFormed(accepts, n, keep);
      }
    }
  }

  lemma EligibleWellFormed(s: seq<Requirements>, n: nat, keep: Requirements -> bool)
    requires FirstCheapest(s, n, keep)
    ensures forall a <- Filter(s, keep) :: WellFormed(a)
  {
    FilterFacts(s, keep);
    forall a <- Filter(s, keep) ensures WellFormed(a) {
      var i :| 0 <= i < |s| && s[i] == a;
    }
  }

  lemma FirstCheapestIsUnique(s: seq<Requirements>, m: nat, n: nat, keep: Requirements -> bool)
    requires FirstCheapest(s, m, keep) && FirstCheapest(s, n, keep)
    ensures m == n
  {
    assert keep(s[m]) && keep(s[n]);
  }

  lemma LiftFirstCheapest(s: seq<Requirements>, keep: Requirements -> bool, k: nat) returns (m: nat)
    requires FirstCheapest(Filter(s, keep), k, Any())
    ensures FirstCheapest(s, m, keep) && s[m] == Filter(s, keep)[k]
  {
    var kept := Filter(s, keep);
    m := FilterIndex(s, keep, k);
    FilterFacts(s[..m], keep);
    FilterFacts(s[m + 1..], keep);
    forall i | 0 <= i < m && keep(s[i]) ensures WellFormed(s[i]) && Price(s[m]) < Price(s[i]) {
      assert s[..m][i] == s[i];
      assert s[i] in kept[..k];
      var j :| 0 <= j < k && kept[j] == s[i];
    }
    forall i | m < i < |s| && keep(s[i]) ensures WellFormed(s[i]) && Price(s[m]) <= Price(s[i]) {
      assert s[m + 1..][i - m - 1] == s[i];
      assert s[i] in kept[k + 1..];
      var j :| 0 <= j < |kept| - k - 1 && kept[k + 1..][j] == s[i];
      assert kept[k + 1 + j] == s[i];
    }
  }

  /** An over-limit refusal means exactly that there is an eligible option, all of them are well
      formed and all of them are dearer than the limit; a malformed-amount refusal means exactly
      that some eligible option is malformed. */
  lemma SelectFailsOnAmounts(accepts: seq<Requirements>, opts: PayOptions, caip2: string)
    ensures var r := Select(accepts, opts, caip2);
      && (r.Failure? && r.error.MaxAmountExceeded?
          <==> && (exists a <- accepts :: Eligible(a, opts, caip2))
               && (forall a <- accepts :: Eligible(a, opts, caip2) ==> WellFormed(a) && Price(a) > opts.maxAmount))
      && (r.Failure? && r.error.MalformedAmount?
          <==> exists a <- accepts :: Eligible(a, opts, caip2) && !WellFormed(a))
  {
    var eligible := Filter(accepts, IsEligible(opts, caip2));
    SelectDependsOnEligible(accepts, opts, caip2);
    FilterFacts(accepts, IsEligible(opts, caip2));
    FilterEmpty(accepts, IsEligible(opts, caip2));
    assert forall a <- accepts :: IsEligible(opts, caip2)(a) <==> Eligible(a, opts, caip2);
    if eligible != [] {
      DecideFacts(eligible, opts);
    }
  }

  /** The refusals that come before any amount is read. */
  lemma SelectFailsOnOptions(accepts: seq<Requirements>, opts: PayOptions, caip2: string)
    ensures var r := Select(accepts, opts, caip2);
      && (r == Failure(NoUsableOption) <==> forall a <- accepts :: !OnNetwork(a, caip2))
      && (r.Failure? && r.error.FeesNotSponsored?
          <==> && (exists a <- accepts :: OnNetwork(a, caip2))
               && (forall a <- accepts :: OnNetwork(a, caip2) ==> a.fees != Sponsored))
      && (r.Failure? && r.error.FeesNotSponsored? ==>
            (r.error.declaredFalse <==> exists a <- accepts :: OnNetwork(a, caip2) && a.fees == NotSponsored))
      && (r.Failure? && r.error.DisallowedAsset?
          <==> && (forall a <- accepts :: !Eligible(a, opts, caip2))
               && (exists a <- accepts :: OnNetwork(a, caip2) && a.fees == Sponsored))
  {
    var onNetwork := Filter(accepts, IsOnNetwork(caip2));
    SelectDependsOnEligible(accepts, opts, caip2);
    FilterFacts(accepts, IsOnNetwork(caip2));
    FilterEmpty(accepts, IsEligible(opts, caip2));
    FilterEmpty(accepts, IsOnNetwork(caip2));
    FilterEmpty(onNetwork, IsSponsored());
    assert forall a <- accepts :: IsEligible(opts, caip2)(a) <==> Eligible(a, opts, caip2);
    assert forall a <- accepts :: IsOnNetwork(caip2)(a) <==> OnNetwork(a, caip2);
    assert forall a <- onNetwork :: IsSponsored()(a) <==> a.fees == Sponsored;
    if onNetwork == [] {
      assert Select(accepts, opts, caip2) == Failure(NoUsableOption);
    } else if Filter(onNetwork, IsSponsored()) == [] {
      assert onNetwork[0] in accepts && OnNetwork(onNetwork[0], caip2);
      assert Select(accepts, opts, caip2).error.FeesNotSponsored?;
    } else {
      FilterFacts(onNetwork, IsSponsored());
      var payable := Filter(onNetwork, IsSponsored())[0];
      assert payable in accepts && OnNetwork(payable, caip2) && payable.fees == Sponsored;
      if Filter(accepts, IsEligible(opts, caip2)) != [] {
        DecideFacts(Filter(accepts, IsEligible(opts, caip2)), opts);
      }
    }
  }

  lemma FilterEmpty<T>(s: seq<T>, keep: T -> bool)
    ensures Filter(s, keep) == [] <==> forall x <- s :: !keep(x)
  {
    FilterFacts(s, keep);
    if Filter(s, keep) != [] {
      assert Filter(s, keep)[0] in Filter(s, keep);
    }
  }

  /** Options that are not eligible, anywhere in the challenge, never change a successful choice. */
  lemma IneligibleOptionsDoNotMatter(before: seq<Requirements>, extra: seq<Requirements>, after: seq<Requirements>,
                                     opts: PayOptions, caip2: string)
    requires forall a <- extra :: !Eligible(a, opts, caip2)
    requires Select(before + after, opts, caip2).Success?
    ensures Select(before + extra + after, opts, caip2) == Select(before + after, opts, caip2)
  {
    var keep := IsEligible(opts, caip2);
    FilterAppend(before, after, keep);
    FilterAppend(before + extra, after, keep);
    FilterAppend(before, extra, keep);
    FilterEmpty(extra, keep);
    assert Filter(before, keep) + [] == Filter(before, keep);
    SelectDependsOnEligible(before + after, opts, caip2);
    SelectDependsOnEligible(before + extra + after, opts, caip2);
  }

  // ----- createPayment -----

  /** The guards `createPayment` applies again before it signs. */
  function CreatePaymentGuard(a: Requirements, opts: PayOptions): Result<nat, Refusal> {
    if !AssetAllowed(opts, a.asset) then Failure(DisallowedAsset(a.asset))
    else
      var required := ParseAmount(a.amount);
      if required.Failure? then required
      else if required.value > opts.maxAmount then Failure(MaxAmountExceeded(required.value, a.asset))
      else required
  }

  /** They accept an allowed asset and digits within the limit, and refuse all else for the first reason. */
  lemma CreatePaymentGuardMeans(a: Requirements, opts: PayOptions)
    ensures var allowed := opts.allowedAssets.None? || a.asset in opts.allowedAssets.value;
      var readable := a.amount != "" && forall c <- a.amount :: '0' <= c <= '9';
      match CreatePaymentGuard(a, opts)
      case Success(n) => allowed && readable && ToDecimal(n) == StripLeadingZeros(a.amount) && n <= opts.maxAmount
      case Failure(DisallowedAsset(asset)) => !allowed && asset == a.asset
      case Failure(MalformedAmount(amount)) => allowed && !readable && amount == a.amount
      case Failure(MaxAmountExceeded(n, asset)) =>
        && allowed && readable && ToDecimal(n) == StripLeadingZeros(a.amount) && n > opts.maxAmount
        && asset == a.asset
      case _ => false
  {
    if forall c <- a.amount :: '0' <= c <= '9' {
      assert forall i :: 0 <= i < |a.amount| ==> a.amount[i] in a.amount;
    }
    if a.amount != "" && AllDigits(a.amount) {
      DecimalOfValue(a.amount);
    }
  }

  lemma CreatePaymentAcceptsSelection(accepts: seq<Requirements>, opts: PayOptions, caip2: string)
    requires Select(accepts, opts, caip2).Success?
    ensures CreatePaymentGuard(Select(accepts, opts, caip2).value, opts).Success?
  {
    SelectsFirstCheapest(accepts, opts, caip2, Select(accepts, opts, caip2).value);
  }

  // ----- selectWithAssetPreference -----

  function OfAsset(asset: string): Requirements -> bool {
    (a: Requirements) => a.asset == asset
  }

  /** The assets of a challenge. */
  function Assets(accepts: seq<Requirements>): set<string> {
    set a | a in accepts :: a.asset
  }

  ghost predicate Grouped(byAsset: map<string, seq<Requirements>>, s: seq<Requirements>) {
    && byAsset.Keys == Assets(s)
    && forall asset <- byAsset :: byAsset[asset] == Filter(s, OfAsset(asset)) && byAsset[asset] != []
  }

  method GroupByAsset(accepts: seq<Requirements>) returns (byAsset: map<string, seq<Requirements>>)
    ensures Grouped(byAsset, accepts)
  {
    byAsset := map[];
    for i := 0 to |accepts|
      invariant Grouped(byAsset, accepts[..i])
    {
      var req := accepts[i];
      var list := if req.asset in byAsset then byAsset[req.asset] else [];
      GroupedStep(byAsset, accepts, i, list);
      byAsset := byAsset[req.asset := list + [req]];
    }
    assert accepts[..|accepts|] == accepts;
  }

  lemma GroupedStep(byAsset: map<string, seq<Requirements>>, accepts: seq<Requirements>, i: nat,
                    list: seq<Requirements>)
    requires i < |accepts| && Grouped(byAsset, accepts[..i])
    requires list == if accepts[i].asset in byAsset then byAsset[accepts[i].asset] else []
    ensures Grouped(byAsset[accepts[i].asset := list + [accepts[i]]], accepts[..i + 1])
  {
    var req := accepts[i];
    var updated := byAsset[req.asset := list + [req]];
    AssetsStep(accepts, i);
    NoneOfAsset(accepts[..i], req.asset);
    forall asset <- updated
      ensures updated[asset] == Filter(accepts[..i + 1], OfAsset(asset)) && updated[asset] != []
    {
      GroupStep(accepts, i, asset);
      if asset != req.asset {
        assert asset in byAsset && updated[asset] == byAsset[asset];
      } else {
        assert updated[asset] == list + [req];
      }
    }
  }

  lemma AssetsStep(accepts: seq<Requirements>, i: nat)
    requires i < |accepts|
    ensures Assets(accepts[..i + 1]) == Assets(accepts[..i]) + {accepts[i].asset}
  {
    assert accepts[..i + 1] == accepts[..i] + [accepts[i]];
  }

  lemma GroupStep(accepts: seq<Requirements>, i: nat, asset: string)
    requires i < |accepts|
    ensures accepts[i].asset == asset ==>
      Filter(accepts[..i + 1], OfAsset(asset)) == Filter(accepts[..i], OfAsset(asset)) + [accepts[i]]
    ensures accepts[i].asset != asset ==>
      Filter(accepts[..i + 1], OfAsset(asset)) == Filter(accepts[..i], OfAsset(asset))
  {
    assert accepts[..i + 1] == accepts[..i] + [accepts[i]];
    FilterAppend(accepts[..i], [accepts[i]], OfAsset(asset));
    assert [accepts[i]][1..] == [];
  }

  lemma NoneOfAsset(s: seq<Requirements>, asset: string)
    ensures Filter(s, OfAsset(asset)) == [] <==> asset !in Assets(s)
  {
    FilterEmpty(s, OfAsset(asset));
  }

  /** The first preferred asset that is offered. */
  function ChosenAsset(accepts: seq<Requirements>, preferred: seq<string>): (asset: Option<string>)
    ensures asset.None? ==> forall i :: 0 <= i < |preferred| ==> preferred[i] !in Assets(accepts)
    ensures asset.Some? ==>
      exists i :: 0 <= i < |preferred| && preferred[i] == asset.value && asset.value in Assets(accepts)
                  && forall j :: 0 <= j < i ==> preferred[j] !in Assets(accepts)
  {
    if preferred == [] then None
    else if preferred[0] in Assets(accepts) then Some(preferred[0])
    else
      var later := ChosenAsset(accepts, preferred[1..]);
      assert forall i :: 1 <= i < |preferred| ==> preferred[i] == preferred[1..][i - 1];
      later
  }

  /** `pickCheapest` of the options in one asset. */
  function CheapestOf(accepts: seq<Requirements>, asset: string): Result<Requirements, Refusal>
    requires asset in Assets(accepts)
  {
    NoneOfAsset(accepts, asset);
    var offers := Filter(accepts, OfAsset(asset));
    ReduceCheapest(offers[0], offers[1..])
  }

  /** What the preference selector decides. */
  function Prefer(accepts: seq<Requirements>, preferred: seq<string>): Result<Requirements, Refusal> {
    if accepts == [] then Failure(NoUsableOption)
    else if |Assets(accepts)| == 1 then ReduceCheapest(accepts[0], accepts[1..])
    else match ChosenAsset(accepts, preferred)
      case None => Failure(NoUsableOption)
      case Some(asset) => CheapestOf(accepts, asset)
  }

  /** `selectWithAssetPreference`; no preference is an empty one. */
  method SelectWithAssetPreference(accepts: seq<Requirements>, preferred: Option<seq<string>>)
    returns (r: Result<Requirements, Refusal>)
    ensures r == Prefer(accepts, if preferred.Some? then preferred.value else [])
  {
    if accepts == [] {
      return Failure(NoUsableOption);
    }
    var byAsset := GroupByAsset(accepts);
    if |byAsset| == 1 {
      var only :| only in byAsset;
      SingleAsset(accepts, only);
      var list := byAsset[only];
      return ReduceCheapest(list[0], list[1..]);
    }
    if preferred.None? || preferred.value == [] {
      return Failure(NoUsableOption);
    }
    var wanted := preferred.value;
    for i := 0 to |wanted|
      invariant ChosenAsset(accepts, wanted) == ChosenAsset(accepts, wanted[i..])
    {
      assert wanted[i..][0] == wanted[i] && wanted[i..][1..] == wanted[i + 1..];
      if wanted[i] in byAsset {
        var list := byAsset[wanted[i]];
        return ReduceCheapest(list[0], list[1..]);
      }
    }
    return Failure(NoUsableOption);
  }

  lemma SingleAsset(accepts: seq<Requirements>, only: string)
    requires |Assets(accepts)| == 1 && only in Assets(accepts)
    ensures Filter(accepts, OfAsset(only)) == accepts
  {
    forall a <- accepts ensures a.asset == only {
      assert a.asset in Assets(accepts);
      if a.asset != only {
        TwoMembers(Assets(accepts), a.asset, only);
      }
    }
    FilterAll(accepts, OfAsset(only));
  }

  lemma TwoMembers<T>(s: set<T>, x: T, y: T)
    requires x in s && y in s && x != y
    ensures |s| >= 2
  {
    assert s == {x, y} + (s - {x, y});
  }

  lemma {:induction false} FilterAll<T>(s: seq<T>, keep: T -> bool)
    requires forall x <- s :: keep(x)
    ensures Filter(s, keep) == s
  {
    if s != [] {
      FilterAll(s[1..], keep);
    }
  }

  /** Where the eligible options lie in one asset, the selection is what the preference selector picks among
      them, whatever it prefers, under the limit of the caller. */
  lemma SelectorsAgree(accepts: seq<Requirements>, opts: PayOptions, caip2: string, preferred: seq<string>)
    requires |Assets(Filter(accepts, IsEligible(opts, caip2)))| == 1
    ensures Select(accepts, opts, caip2)
         == WithinLimit(Prefer(Filter(accepts, IsEligible(opts, caip2)), preferred), opts)
  {
    SelectDependsOnEligible(accepts, opts, caip2);
    assert Assets([]) == {};
  }

  /** Where well-formed eligible options lie in several assets, the selection compares amounts across assets.
      Under the limit of the caller, the two decide the same exactly when the first cheapest option of all
      happens to be in the preferred asset; also when both refuse. */
  lemma SelectorsAgreeAcrossAssetsIff(accepts: seq<Requirements>, opts: PayOptions, caip2: string,
                                      preferred: seq<string>, k: nat)
    requires var eligible := Filter(accepts, IsEligible(opts, caip2));
      |Assets(eligible)| != 1 && FirstCheapest(eligible, k, Any())
    ensures var eligible := Filter(accepts, IsEligible(opts, caip2));
      WithinLimit(Prefer(eligible, preferred), opts) == Select(accepts, opts, caip2)
      <==> ChosenAsset(eligible, preferred) == Some(eligible[k].asset)
  {
    var eligible := Filter(accepts, IsEligible(opts, caip2));
    SelectDependsOnEligible(accepts, opts, caip2);
    FirstCheapestIsReduced(eligible, k);
    CheapestInItsAsset(eligible, k);
    if ChosenAsset(eligible, preferred).Some? {
      CheapestElsewhere(eligible, k, ChosenAsset(eligible, preferred).value);
    }
  }

  /** The first cheapest option is what the reduce yields. */
  lemma FirstCheapestIsReduced(s: seq<Requirements>, k: nat)
    requires FirstCheapest(s, k, Any())
    ensures ReduceCheapest(s[0], s[1..]) == Success(s[k])
  {
    ReduceFindsFirstCheapest(s);
    forall a <- s ensures WellFormed(a) {
      var i :| 0 <= i < |s| && s[i] == a;
      assert Any()(s[i]);
    }
    var m: nat :| FirstCheapest(s, m, Any()) && s[m] == ReduceCheapest(s[0], s[1..]).value;
    FirstCheapestIsUnique(s, m, k, Any());
  }

  /** The cheapest option in an asset is not cheaper than the cheapest of all, and in that asset. */
  lemma CheapestElsewhere(s: seq<Requirements>, k: nat, asset: string)
    requires FirstCheapest(s, k, Any()) && asset in Assets(s)
    ensures CheapestOf(s, asset).Success? && CheapestOf(s, asset).value.asset == asset
    ensures WellFormed(CheapestOf(s, asset).value) && Price(CheapestOf(s, asset).value) >= Price(s[k])
  {
    var offers := Filter(s, OfAsset(asset));
    NoneOfAsset(s, asset);
    FilterFacts(s, OfAsset(asset));
    ReduceFindsFirstCheapest(offers);
    forall a <- offers ensures WellFormed(a) && Price(a) >= Price(s[k]) && a.asset == asset {
      var i :| 0 <= i < |s| && s[i] == a;
      assert Any()(s[i]) && OfAsset(asset)(a);
    }
  }

  /** A malformed eligible option, in whatever asset, makes the selection refuse; the preference selector
      refuses for that reason exactly if there is one in the preferred asset, and never looks at the others. */
  lemma SelectorsOnMalformed(accepts: seq<Requirements>, opts: PayOptions, caip2: string, preferred: seq<string>)
    requires var eligible := Filter(accepts, IsEligible(opts, caip2));
      |Assets(eligible)| != 1 && exists a <- eligible :: !WellFormed(a)
    ensures Select(accepts, opts, caip2).Failure? && Select(accepts, opts, caip2).error.MalformedAmount?
    ensures var eligible := Filter(accepts, IsEligible(opts, caip2));
      var r := WithinLimit(Prefer(eligible, preferred), opts);
      var asset := ChosenAsset(eligible, preferred);
      (r.Failure? && r.error.MalformedAmount?)
      <==> asset.Some? && exists a <- eligible :: a.asset == asset.value && !WellFormed(a)
  {
    var eligible := Filter(accepts, IsEligible(opts, caip2));
    var asset := ChosenAsset(eligible, preferred);
    SelectDependsOnEligible(accepts, opts, caip2);
    DecideFacts(eligible, opts);
    if asset.Some? {
      var offers := Filter(eligible, OfAsset(asset.value));
      NoneOfAsset(eligible, asset.value);
      FilterFacts(eligible, OfAsset(asset.value));
      assert forall a <- eligible :: OfAsset(asset.value)(a) <==> a.asset == asset.value;
      DecideFacts(offers, opts);
    }
  }

  /** The first cheapest option of all is the first cheapest in its asset. */
  lemma CheapestInItsAsset(s: seq<Requirements>, k: nat)
    requires FirstCheapest(s, k, Any())
    ensures s[k].asset in Assets(s) && CheapestOf(s, s[k].asset) == Success(s[k])
  {
    var keep := OfAsset(s[k].asset);
    var offers := Filter(s, keep);
    assert s[k] in s;
    NoneOfAsset(s, s[k].asset);
    FilterFacts(s, keep);
    AllFirstCheapest(s, k, keep);
    ReduceFindsFirstCheapest(offers);
    forall a <- offers ensures WellFormed(a) {
      var i :| 0 <= i < |s| && s[i] == a;
      assert Any()(s[i]);
    }
    var r := ReduceCheapest(offers[0], offers[1..]);
    assert r.Success? && r.value in offers;
    var j: nat :| FirstCheapest(offers, j, Any()) && offers[j] == r.value;
    var m := LiftFirstCheapest(s, keep, j);
    FirstCheapestIsUnique(s, m, k, keep);
  }

  lemma AllFirstCheapest(s: seq<Requirements>, k: nat, keep: Requirements -> bool)
    requires FirstCheapest(s, k, Any()) && keep(s[k])
    ensures FirstCheapest(s, k, keep)
  {
    assert forall i :: 0 <= i < |s| ==> Any()(s[i]);
  }
}
