/** What became of a payment (src/x402-guards.ts), and the payer that retries on that evidence under
    a session ceiling (packages/mcp-x402-payer/src/payer.ts, packages/mcp-x402-payer/src/ledger.ts).

    The payer takes one payment at a time (its mutex is the queue of module PromiseQueue), so a
    session is a sequence of calls.  Whatever the servers answer, `moved` is what the chain did. */
module PaymentSettlement {
  import opened Prelude
  import opened Decimal
  import opened PaymentSelection

  // ----- Classifying a settlement -----

  /** The facilitator's settle result. */
  datatype Settle = Settle(success: Option<bool>, transaction: Option<string>, payer: Option<string>)

  /** The decoded header, `None` if it is absent or malformed. */
  type SettleHeader = Option<Settle>

  datatype Settlement =
    | Settled(transaction: string, payer: Option<string>)
    | NotSpent
    | Indeterminate(raw: Option<string>)

  predicate IsHex(c: char) { IsDigit(c) || 'a' <= c <= 'f' || 'A' <= c <= 'F' }

  /** 32 bytes in hexadecimal. */
  predicate IsHash(tx: string) { |tx| == 64 && forall c <- tx :: IsHex(c) }

  function TransactionOf(settle: Settle): string {
    if settle.transaction.Some? then settle.transaction.value else ""
  }

  /** `classifySettlement`. */
  function Classify(header: SettleHeader): Settlement {
    if header.None? then Indeterminate(None)
    else
      var settle, tx := header.value, TransactionOf(header.value);
      if settle.success == Some(false) && tx == "" then NotSpent
      else if !IsHash(tx) then Indeterminate(if tx == "" then None else Some(tx))
      else if settle.success == Some(false) then Indeterminate(Some(tx))
      else Settled(tx, settle.payer)
  }

  /** `isRetryableSettleFailure`. */
  predicate IsRetryable(header: SettleHeader) {
    header.Some? && header.value.success == Some(false) && TransactionOf(header.value) == ""
  }

  /** The header says that the payment failed, with no transaction or an empty one. */
  predicate SaysNotSpent(header: SettleHeader) {
    match header
    case Some(Settle(Some(false), None, _)) => true
    case Some(Settle(Some(false), Some(tx), _)) => tx == ""
    case _ => false
  }

  /** A transaction hash in the header, and no word of failure. */
  predicate SaysSettled(header: SettleHeader, tx: string) {
    && header.Some? && header.value.transaction == Some(tx) && header.value.success in {None, Some(true)}
    && |tx| == 64 && forall c <- tx :: '0' <= c <= '9' || 'a' <= c <= 'f' || 'A' <= c <= 'F'
  }

  /** The three outcomes: not spent, and retryable, only on positive evidence; settled only with a hash; all
      else is in doubt, no header at all included. */
  lemma ClassificationMeans(header: SettleHeader)
    ensures IsRetryable(header) <==> SaysNotSpent(header)
    ensures Classify(header) == NotSpent <==> SaysNotSpent(header)
    ensures forall tx, payer :: Classify(header) == Settled(tx, payer) <==>
      SaysSettled(header, tx) && payer == header.value.payer
    ensures forall raw :: Classify(header) == Indeterminate(raw) <==>
      && !SaysNotSpent(header) && (forall tx :: !SaysSettled(header, tx))
      && raw == if header.None? || header.value.transaction == Some("") then None else header.value.transaction
    ensures header.None? ==> Classify(header) == Indeterminate(None) && DecodeSettlement(header) == None
    ensures header.Some? ==>
      DecodeSettlement(header) == if header.value.transaction == Some("") then None else header.value.transaction
  {
    if header.Some? && header.value.transaction.Some? {
      HexDigits(header.value.transaction.value);
    }
  }

  lemma HexDigits(tx: string)
    ensures IsHash(tx) <==>
      |tx| == 64 && forall c <- tx :: '0' <= c <= '9' || 'a' <= c <= 'f' || 'A' <= c <= 'F'
  {
  }

  /** `decodeSettlementHeader`, which `fetch` reports as the settlement of a paid response. */
  function DecodeSettlement(header: SettleHeader): Option<string> {
    if header.None? || TransactionOf(header.value) == "" then None else Some(TransactionOf(header.value))
  }

  /** A reported settlement is a confirmed one exactly unless its hash is malformed or the facilitator
      said that it failed; a confirmed settlement is always reported, with its own hash. */
  lemma ReportedSettlementIsConfirmed(header: SettleHeader)
    ensures Classify(header).Settled? ==> DecodeSettlement(header) == Some(Classify(header).transaction)
    ensures DecodeSettlement(header).Some? ==>
      (Classify(header).Settled? <==> IsHash(DecodeSettlement(header).value) && header.value.success != Some(false))
    ensures DecodeSettlement(header).Some? ==> !IsRetryable(header)
  {
  }

  // ----- One call of the payer -----

  const MAX_ATTEMPTS := 3

  datatype Response = Response(status: int, settle: SettleHeader)

  /** The end of one signed attempt (`None` if signing or the request threw), and what the chain moved
      on the strength of its signature. */
  datatype Attempt = Attempt(response: Option<Response>, moved: nat)

  /** The answer to the unpaid request; a challenge that does not decode is `None`. */
  datatype Probe = NoAnswer | Free(status: int) | Challenged(accepts: Option<seq<Requirements>>)

  datatype PayCall = PayCall(maxAmount: string, probe: Probe, attempt: nat -> Attempt)

  datatype PayError =
    | Unreachable
    | BadChallenge
    | Refused(refusal: Refusal)
    | OverCeiling
    | NoResponse
    | Rejected(status: int)
    | Uncertain(asset: string, amount: nat)
    | NeverSettled

  datatype PayResult =
    | Content(status: int)
    | Paid(transaction: string, asset: string, amount: nat, attempts: nat)
    | Failed(error: PayError)

  datatype Config = Config(ceilings: map<string, int>, allowedAssets: seq<string>, caip2: string)

  type Spent = map<string, int>

  function SpentFor(spent: Spent, asset: string): int { if asset in spent then spent[asset] else 0 }

  /** `assertWithinCeiling` does not throw. */
  predicate WithinCeiling(c: Config, spent: Spent, asset: string, amount: nat) {
    asset in c.ceilings && SpentFor(spent, asset) + amount <= c.ceilings[asset]
  }

  function Choice(c: Config, call: PayCall): Result<Requirements, Refusal>
    requires call.probe.Challenged? && call.probe.accepts.Some?
  {
    var limit := ParseAmount(call.maxAmount);
    if limit.Failure? then Failure(limit.error)
    else Select(call.probe.accepts.value, PayOptions(limit.value, Some(c.allowedAssets)), c.caip2)
  }

  /** The option a call gets to sign for, if any. */
  function Cleared(c: Config, spent: Spent, call: PayCall): Option<Requirements> {
    if !call.probe.Challenged? || call.probe.accepts.None? then None
    else
      var choice := Choice(c, call);
      if choice.Success? && WellFormed(choice.value) && WithinCeiling(c, spent, choice.value.asset, Price(choice.value))
      then Some(choice.value) else None
  }

  /** Positive evidence that nothing was spent: the only end that is retried. */
  predicate Benign(a: Attempt) { a.response.Some? && SaysNotSpent(a.response.value.settle) }

  predicate Answered(a: Attempt) { a.response.Some? && a.response.value.status < 400 }

  /** The attempt with which a call that is at its `n`-th attempt ends. */
  function LastFrom(call: PayCall, n: nat): (last: nat)
    requires n <= MAX_ATTEMPTS
    ensures n <= last <= MAX_ATTEMPTS && (last == MAX_ATTEMPTS || !Benign(call.attempt(last)))
    ensures forall k :: n <= k < last ==> Benign(call.attempt(k))
    decreases MAX_ATTEMPTS - n
  {
    if n == MAX_ATTEMPTS || !Benign(call.attempt(n)) then n else LastFrom(call, n + 1)
  }

  function Last(call: PayCall): Attempt { call.attempt(LastFrom(call, 1)) }

  /** Settled or in doubt: the amount is recorded. */
  predicate Debits(a: Attempt) { Answered(a) && !Benign(a) }

  function Recorded(c: Config, spent: Spent, call: PayCall): Option<(string, nat)> {
    var option := Cleared(c, spent, call);
    if option.Some? && Debits(Last(call)) then Some((option.value.asset, Price(option.value))) else None
  }

  function Record(spent: Spent, entry: Option<(string, nat)>): Spent {
    match entry
    case None => spent
    case Some((asset, amount)) => spent[asset := SpentFor(spent, asset) + amount]
  }

  /** The ledger after a call. */
  function Book(c: Config, spent: Spent, call: PayCall): Spent { Record(spent, Recorded(c, spent, call)) }

  function SpentAfter(c: Config, calls: seq<PayCall>): Spent {
    if calls == [] then map[] else Book(c, SpentAfter(c, calls[..|calls| - 1]), calls[|calls| - 1])
  }

  lemma SpentSnoc(c: Config, calls: seq<PayCall>, call: PayCall)
    ensures SpentAfter(c, calls + [call]) == Book(c, SpentAfter(c, calls), call)
  {
    assert (calls + [call])[..|calls|] == calls;
  }

  /** The payer with its session ledger. */
  class Payer {
    const config: Config
    var spent: Spent
    ghost var calls: seq<PayCall>

    ghost predicate Valid()
      reads this
    {
      spent == SpentAfter(config, calls)
    }

    constructor (config: Config)
      ensures Valid() && this.config == config && calls == []
    {
      this.config := config;
      spent, calls := map[], [];
    }

    /** `payExclusively`; `signed` counts the payments signed. */
    method Pay(call: PayCall) returns (result: PayResult, signed: nat)
      requires Valid()
      modifies this
      ensures Valid() && calls == old(calls) + [call]
      ensures Reports(config, old(spent), call, result, signed)
      ensures var option := Cleared(config, old(spent), call);
        if option.None? then signed == 0 && spent == old(spent)
        else FollowsEvidence(call, option.value, old(spent), spent, result, signed)
    {
      if Cleared(config, spent, call).Some? {
        EvidenceOfLast(config, spent, call);
      }
      SpentSnoc(config, calls, call);
      result, signed := Attempts(call);
      calls := calls + [call];
    }

    method Attempts(call: PayCall) returns (result: PayResult, signed: nat)
      modifies this`spent
      ensures Reports(config, old(spent), call, result, signed)
      ensures spent == Book(config, old(spent), call)
    {
      signed := 0;
      var limit := ParseAmount(call.maxAmount);
      if limit.Failure? {
        return Failed(Refused(limit.error)), signed;
      }
      match call.probe {
        case NoAnswer => return Failed(Unreachable), signed;
        case Free(status) => return Content(status), signed;
        case Challenged(accepts) =>
          if accepts.None? {
            return Failed(BadChallenge), signed;
          }
          var choice := Select(accepts.value, PayOptions(limit.value, Some(config.allowedAssets)), config.caip2);
          if choice.Failure? {
            return Failed(Refused(choice.error)), signed;
          }
          CreatePaymentAcceptsSelection(accepts.value, PayOptions(limit.value, Some(config.allowedAssets)),
                                        config.caip2);
          result, signed := Retry(call, choice.value);
      }
    }

    /** The loop over the attempts. */
    method Retry(call: PayCall, chosen: Requirements) returns (result: PayResult, signed: nat)
      requires WellFormed(chosen)
      modifies this`spent
      ensures !WithinCeiling(config, old(spent), chosen.asset, Price(chosen)) ==>
                result == Failed(OverCeiling) && signed == 0 && spent == old(spent)
      ensures WithinCeiling(config, old(spent), chosen.asset, Price(chosen)) ==>
                && result == Verdict(call, chosen) && signed == LastFrom(call, 1)
                && spent == if Debits(Last(call))
                            then old(spent)[chosen.asset := SpentFor(old(spent), chosen.asset) + Price(chosen)]
                            else old(spent)
    {
      var amount := Price(chosen);
      signed := 0;
      for n := 1 to MAX_ATTEMPTS + 1
        invariant signed == n - 1 && spent == old(spent)
        invariant n <= MAX_ATTEMPTS ==> LastFrom(call, 1) == LastFrom(call, n)
        invariant n > 1 ==> Benign(call.attempt(n - 1)) && WithinCeiling(config, spent, chosen.asset, amount)
        invariant n > MAX_ATTEMPTS ==> LastFrom(call, 1) == MAX_ATTEMPTS
      {
        if !WithinCeiling(config, spent, chosen.asset, amount) {
          return Failed(OverCeiling), signed;
        }
        signed := n;
        var response := call.attempt(n).response;
        if response.None? {
          return Failed(NoResponse), signed;
        }
        var res := response.value;
        ClassificationMeans(res.settle);
        if res.status == 402 || res.status >= 400 {
          if IsRetryable(res.settle) {
            continue;
          }
          return Failed(Rejected(res.status)), signed;
        }
        match Classify(res.settle) {
          case NotSpent =>
          case Indeterminate(_) =>
            spent := spent[chosen.asset := SpentFor(spent, chosen.asset) + amount];
            return Failed(Uncertain(chosen.asset, amount)), signed;
          case Settled(transaction, _) =>
            spent := spent[chosen.asset := SpentFor(spent, chosen.asset) + amount];
            return Paid(transaction, chosen.asset, amount, n), signed;
        }
      }
      return Failed(NeverSettled), signed;
    }
  }

  /** What a call that signs does on the answers it gets, the settle header spelled out. */
  ghost predicate FollowsEvidence(call: PayCall, option: Requirements, before: Spent, after: Spent,
                                  result: PayResult, signed: nat)
    requires WellFormed(option)
  {
    var last := call.attempt(signed);
    var debited := before[option.asset := SpentFor(before, option.asset) + Price(option)];
    // it signs again exactly after a header with `success: false` and no transaction, up to three times
    && 1 <= signed <= 3
    && (forall k :: 1 <= k < signed ==> NothingSpent(call.attempt(k).response))
    && (signed < 3 ==> !NothingSpent(last.response))
    // after the last answer it debits unless there is none, or an error status, or nothing was spent
    && match last.response
       case None => result == Failed(NoResponse) && after == before
       case Some(Response(status, settle)) =>
         if NothingSpent(last.response) then result == Failed(NeverSettled) && after == before
         else if status >= 400 then result == Failed(Rejected(status)) && after == before
         else
           && after == debited
           && (result == Failed(Uncertain(option.asset, Price(option)))
               || (settle.Some? && settle.value.transaction.Some?
                   && result == Paid(settle.value.transaction.value, option.asset, Price(option), signed)))
           && (result.Paid? <==> settle.Some? && settle.value.transaction.Some?
                                 && SaysSettled(settle, settle.value.transaction.value))
  }

  /** An answer with a settle header that says `success: false`, and without a transaction. */
  ghost predicate NothingSpent(response: Option<Response>) {
    && response.Some? && response.value.settle.Some? && response.value.settle.value.success == Some(false)
    && (response.value.settle.value.transaction.Some? ==> response.value.settle.value.transaction.value == "")
  }

  lemma EvidenceOfLast(c: Config, spent: Spent, call: PayCall)
    requires Cleared(c, spent, call).Some?
    ensures var option := Cleared(c, spent, call).value;
      FollowsEvidence(call, option, spent, Book(c, spent, call), Verdict(call, option), LastFrom(call, 1))
  {
    var last := Last(call);
    forall n: nat ensures Benign(call.attempt(n)) <==> NothingSpent(call.attempt(n).response) {
    }
    if last.response.Some? {
      ClassificationMeans(last.response.value.settle);
    }
  }

  /** A call that signs stops at the first attempt it may not repeat, and reports the evidence of that
      one; a call that signs nothing says why. */
  predicate Reports(c: Config, spent: Spent, call: PayCall, result: PayResult, signed: nat) {
    match Cleared(c, spent, call)
    case None => signed == 0 && result == Unsigned(c, call)
    case Some(option) => signed == LastFrom(call, 1) && result == Verdict(call, option)
  }

  /** Why a call signs nothing: the limit is read first, then the answer, then the options, and the
      session ceiling last. */
  function Unsigned(c: Config, call: PayCall): PayResult {
    var limit := ParseAmount(call.maxAmount);
    if limit.Failure? then Failed(Refused(limit.error))
    else match call.probe
      case NoAnswer => Failed(Unreachable)
      case Free(status) => Content(status)
      case Challenged(None) => Failed(BadChallenge)
      case Challenged(Some(accepts)) =>
        var choice := Choice(c, call);
        if choice.Failure? then Failed(Refused(choice.error)) else Failed(OverCeiling)
  }

  /** A call that signs nothing: the limit is not digits, there is no answer, the content is free, the challenge
      is unreadable, the selection refuses, or the option selected does not fit under the ceiling of its asset. */
  lemma UnsignedMeans(c: Config, spent: Spent, call: PayCall)
    requires Cleared(c, spent, call).None?
    ensures var result := Unsigned(c, call);
      if call.maxAmount == "" || exists ch <- call.maxAmount :: !('0' <= ch <= '9') then
        result == Failed(Refused(MalformedAmount(call.maxAmount)))
      else match call.probe
        case NoAnswer => result == Failed(Unreachable)
        case Free(status) => result == Content(status)
        case Challenged(None) => result == Failed(BadChallenge)
        case Challenged(Some(accepts)) =>
          AllDigits(call.maxAmount)
          && match Select(accepts, PayOptions(Value(call.maxAmount), Some(c.allowedAssets)), c.caip2)
             case Failure(refusal) => result == Failed(Refused(refusal))
             case Success(a) =>
               && WellFormed(a) && result == Failed(OverCeiling)
               && (a.asset !in c.ceilings || SpentFor(spent, a.asset) + Price(a) > c.ceilings[a.asset])
  {
    if forall ch <- call.maxAmount :: '0' <= ch <= '9' {
      assert forall i :: 0 <= i < |call.maxAmount| ==> call.maxAmount[i] in call.maxAmount;
      if call.maxAmount != "" && call.probe.Challenged? && call.probe.accepts.Some? {
        var opts := PayOptions(Value(call.maxAmount), Some(c.allowedAssets));
        if Select(call.probe.accepts.value, opts, c.caip2).Success? {
          CreatePaymentAcceptsSelection(call.probe.accepts.value, opts, c.caip2);
        }
      }
    }
  }

  /** What a call that signs reports: the evidence of its last attempt. */
  function Verdict(call: PayCall, option: Requirements): PayResult
    requires WellFormed(option)
  {
    var last := Last(call);
    if Benign(last) then Failed(NeverSettled)
    else if last.response.None? then Failed(NoResponse)
    else if !Answered(last) then Failed(Rejected(last.response.value.status))
    else match Classify(last.response.value.settle)
      case Settled(transaction, _) => Paid(transaction, option.asset, Price(option), LastFrom(call, 1))
      case _ => Failed(Uncertain(option.asset, Price(option)))
  }

  // ----- What one call costs -----

  /** The facilitator tells the truth where it says that nothing was spent, and the chain moves no
      more than was signed for. */
  ghost predicate Truthful(c: Config, spent: Spent, call: PayCall) {
    && (forall n: nat :: call.attempt(n).response.Some? && call.attempt(n).response.value.settle.Some? ==>
          var settle := call.attempt(n).response.value.settle.value;
          settle.success == Some(false) && (settle.transaction.Some? ==> settle.transaction.value == "") ==>
            call.attempt(n).moved == 0)
    && (Cleared(c, spent, call).Some? ==>
          forall n: nat :: call.attempt(n).moved <= Price(Cleared(c, spent, call).value))
  }

  function MovedUpTo(call: PayCall, n: nat): nat {
    if n == 0 then 0 else MovedUpTo(call, n - 1) + call.attempt(n).moved
  }

  /** What the attempts made in a call moved, all together. */
  function Moved(c: Config, spent: Spent, call: PayCall, asset: string): nat {
    var option := Cleared(c, spent, call);
    if option.Some? && option.value.asset == asset then MovedUpTo(call, LastFrom(call, 1)) else 0
  }

  lemma {:induction false} NothingMovedBefore(call: PayCall, n: nat)
    requires forall k :: 1 <= k <= n ==> call.attempt(k).moved == 0
    ensures MovedUpTo(call, n) == 0
  {
    if n > 0 {
      NothingMovedBefore(call, n - 1);
    }
  }

  /** No call pays twice: of up to three signed payments only the last can move anything, and at most
      the limit of the caller. */
  lemma PaysAtMostOnce(c: Config, spent: Spent, call: PayCall, asset: string)
    requires Truthful(c, spent, call)
    ensures forall n :: 1 <= n < LastFrom(call, 1) ==> call.attempt(n).moved == 0
    ensures Moved(c, spent, call, asset) > 0 ==>
      && Cleared(c, spent, call).Some? && Cleared(c, spent, call).value.asset == asset
      && Moved(c, spent, call, asset) == Last(call).moved <= Price(Cleared(c, spent, call).value)
      && ParseAmount(call.maxAmount).Success? && Moved(c, spent, call, asset) <= ParseAmount(call.maxAmount).value
  {
    var last := LastFrom(call, 1);
    NothingMovedBefore(call, last - 1);
    if Cleared(c, spent, call).Some? {
      var limit := ParseAmount(call.maxAmount).value;
      CreatePaymentAcceptsSelection(call.probe.accepts.value, PayOptions(limit, Some(c.allowedAssets)), c.caip2);
    }
  }

  /** The call ended on an error status or without a response, and yet money moved. */
  predicate MovedSilently(c: Config, spent: Spent, call: PayCall) {
    Cleared(c, spent, call).Some? && !Answered(Last(call)) && Last(call).moved > 0
  }

  /** What a call adds to the ledger. */
  function RecordedFor(c: Config, spent: Spent, call: PayCall, asset: string): int {
    SpentFor(Book(c, spent, call), asset) - SpentFor(spent, asset)
  }

  /** The ledger counts at least what a call moved exactly unless it moved silently. */
  lemma LedgerCoversUnlessSilent(c: Config, spent: Spent, call: PayCall)
    requires Truthful(c, spent, call)
    ensures (forall asset: string :: Moved(c, spent, call, asset) <= RecordedFor(c, spent, call, asset))
       <==> !MovedSilently(c, spent, call)
  {
    forall asset: string
      ensures !MovedSilently(c, spent, call) ==> Moved(c, spent, call, asset) <= RecordedFor(c, spent, call, asset)
    {
      PaysAtMostOnce(c, spent, call, asset);
    }
    if MovedSilently(c, spent, call) {
      var asset := Cleared(c, spent, call).value.asset;
      assert MovedUpTo(call, LastFrom(call, 1)) >= Last(call).moved;
      assert Moved(c, spent, call, asset) > RecordedFor(c, spent, call, asset);
    }
  }

  /** What a call moved silently. */
  function Silent(c: Config, spent: Spent, call: PayCall, asset: string): nat {
    if MovedSilently(c, spent, call) && Cleared(c, spent, call).value.asset == asset then Last(call).moved else 0
  }

  // ----- Sessions -----

  ghost predicate TruthfulSession(c: Config, calls: seq<PayCall>) {
    forall n :: 0 <= n < |calls| ==> TruthfulAt(c, calls, n)
  }

  ghost predicate TruthfulAt(c: Config, calls: seq<PayCall>, n: nat)
    requires n < |calls|
  {
    Truthful(c, SpentAfter(c, calls[..n]), calls[n])
  }

  lemma TruthfulPrefix(c: Config, calls: seq<PayCall>, more: seq<PayCall>)
    requires calls <= more
    ensures forall n :: 0 <= n < |calls| ==> (TruthfulAt(c, calls, n) <==> TruthfulAt(c, more, n))
  {
    forall n | 0 <= n < |calls| ensures TruthfulAt(c, calls, n) <==> TruthfulAt(c, more, n) {
      assert calls[..n] == more[..n] && calls[n] == more[n];
    }
  }

  ghost predicate NeverSilent(c: Config, calls: seq<PayCall>) {
    forall n :: 0 <= n < |calls| ==> !MovedSilently(c, SpentAfter(c, calls[..n]), calls[n])
  }

  function MovedTotal(c: Config, calls: seq<PayCall>, asset: string): nat {
    if calls == [] then 0
    else
      var before := calls[..|calls| - 1];
      MovedTotal(c, before, asset) + Moved(c, SpentAfter(c, before), calls[|calls| - 1], asset)
  }

  function SilentTotal(c: Config, calls: seq<PayCall>, asset: string): nat {
    if calls == [] then 0
    else
      var before := calls[..|calls| - 1];
      SilentTotal(c, before, asset) + Silent(c, SpentAfter(c, before), calls[|calls| - 1], asset)
  }

  /** After one more call, ledger and silent payments still cover the chain. */
  lemma CoversStep(c: Config, spent: Spent, call: PayCall, asset: string, moved: nat, silent: nat)
    requires Truthful(c, spent, call) && moved <= SpentFor(spent, asset) + silent
    ensures moved + Moved(c, spent, call, asset)
         <= SpentFor(Book(c, spent, call), asset) + silent + Silent(c, spent, call, asset)
  {
    PaysAtMostOnce(c, spent, call, asset);
  }

  /** The recorded spend of every asset stays within its ceiling, whatever the servers answer. */
  lemma {:induction false} LedgerWithinCeilings(c: Config, calls: seq<PayCall>, asset: string)
    ensures 0 <= SpentFor(SpentAfter(c, calls), asset) <= if asset in c.ceilings then Max(0, c.ceilings[asset]) else 0
  {
    if calls != [] {
      LedgerWithinCeilings(c, calls[..|calls| - 1], asset);
    }
  }

  /** In every session of a truthful facilitator, the chain has moved no more than the ledger says and
      what moved silently. */
  lemma {:induction false} LedgerCoversTheChain(c: Config, calls: seq<PayCall>, asset: string)
    requires TruthfulSession(c, calls)
    ensures MovedTotal(c, calls, asset) <= SpentFor(SpentAfter(c, calls), asset) + SilentTotal(c, calls, asset)
    ensures NeverSilent(c, calls) ==> SilentTotal(c, calls, asset) == 0
  {
    if calls != [] {
      var before, call := calls[..|calls| - 1], calls[|calls| - 1];
      assert forall n :: 0 <= n < |before| ==> before[..n] == calls[..n] && before[n] == calls[n];
      TruthfulPrefix(c, before, calls);
      LedgerCoversTheChain(c, before, asset);
      assert TruthfulAt(c, calls, |before|);
      CoversStep(c, SpentAfter(c, before), call, asset, MovedTotal(c, before, asset), SilentTotal(c, before, asset));
    }
  }

  /** So the session ceiling is exceeded by at most what moved silently. */
  lemma MoneyMovedIsBounded(c: Config, calls: seq<PayCall>, asset: string)
    requires TruthfulSession(c, calls)
    ensures MovedTotal(c, calls, asset)
         <= (if asset in c.ceilings then Max(0, c.ceilings[asset]) else 0) + SilentTotal(c, calls, asset)
  {
    LedgerCoversTheChain(c, calls, asset);
    LedgerWithinCeilings(c, calls, asset);
  }

  /** The payer can pay in this asset at all. */
  predicate Payable(c: Config, asset: string) {
    asset in c.allowedAssets && asset in c.ceilings && c.ceilings[asset] > 0
  }

  /** The session ceiling bounds the money moved, in every session of a truthful facilitator, exactly
      when payments cannot move silently (or the asset cannot be paid in at all). */
  lemma CeilingHoldsIffNeverSilent(c: Config, asset: string, maybeSilent: bool)
    requires asset in c.ceilings
    ensures (forall calls :: TruthfulSession(c, calls) && (maybeSilent || NeverSilent(c, calls))
                             ==> MovedTotal(c, calls, asset) <= Max(0, c.ceilings[asset]))
       <==> !maybeSilent || !Payable(c, asset)
  {
    if !maybeSilent {
      forall calls | TruthfulSession(c, calls) && NeverSilent(c, calls)
        ensures MovedTotal(c, calls, asset) <= Max(0, c.ceilings[asset])
      {
        LedgerCoversTheChain(c, calls, asset);
        MoneyMovedIsBounded(c, calls, asset);
      }
    } else if !Payable(c, asset) {
      forall calls | TruthfulSession(c, calls) ensures MovedTotal(c, calls, asset) <= Max(0, c.ceilings[asset]) {
        UnpayableNeverMoves(c, calls, asset);
      }
    } else {
      var n := c.ceilings[asset] + 1;
      SilentSession(c, asset, n);
      assert TruthfulSession(c, Repeated(LostAnswer(c, asset), n));
    }
  }

  lemma {:induction false} UnpayableNeverMoves(c: Config, calls: seq<PayCall>, asset: string)
    requires asset in c.ceilings && !Payable(c, asset) && TruthfulSession(c, calls)
    ensures MovedTotal(c, calls, asset) == 0
  {
    if calls != [] {
      var before, call := calls[..|calls| - 1], calls[|calls| - 1];
      TruthfulPrefix(c, before, calls);
      UnpayableNeverMoves(c, before, asset);
      assert TruthfulAt(c, calls, |before|);
      var spent := SpentAfter(c, before);
      LedgerWithinCeilings(c, before, asset);
      PaysAtMostOnce(c, spent, call, asset);
      if Moved(c, spent, call, asset) > 0 {
        var limit := ParseAmount(call.maxAmount).value;
        CreatePaymentAcceptsSelection(call.probe.accepts.value, PayOptions(limit, Some(c.allowedAssets)), c.caip2);
      }
    }
  }

  /** A payment of 1 that settles while its answer is lost. */
  function LostAnswer(c: Config, asset: string): PayCall {
    PayCall("1", Challenged(Some([Requirements("exact", c.caip2, asset, "1", "payee", None, Sponsored)])),
            (_: nat) => Attempt(None, 1))
  }

  function Repeated(call: PayCall, n: nat): (calls: seq<PayCall>)
    ensures |calls| == n && forall i :: 0 <= i < n ==> calls[i] == call
  {
    if n == 0 then [] else Repeated(call, n - 1) + [call]
  }

  lemma LostAnswerClears(c: Config, asset: string)
    requires Payable(c, asset)
    ensures var option := Cleared(c, map[], LostAnswer(c, asset));
      option.Some? && option.value.asset == asset && Price(option.value) == 1
  {
    var a := Requirements("exact", c.caip2, asset, "1", "payee", None, Sponsored);
    var opts := PayOptions(1, Some(c.allowedAssets));
    assert Value("1") == 1 by { assert "1"[..0] == "" && Value("") == 0; }
    assert WellFormed(a) && Price(a) == 1;
    assert FirstCheapest([a], 0, IsEligible(opts, c.caip2));
    SelectsFirstCheapest([a], opts, c.caip2, a);
  }

  lemma LostAnswerMoves(c: Config, asset: string)
    requires Payable(c, asset)
    ensures var call := LostAnswer(c, asset);
      Truthful(c, map[], call) && Book(c, map[], call) == map[] && Moved(c, map[], call, asset) == 1
  {
    var call := LostAnswer(c, asset);
    LostAnswerClears(c, asset);
    assert LastFrom(call, 1) == 1;
    assert MovedUpTo(call, 1) == 1 by { assert MovedUpTo(call, 0) == 0; }
  }

  lemma SessionSnoc(c: Config, calls: seq<PayCall>, call: PayCall, asset: string)
    requires TruthfulSession(c, calls) && Truthful(c, SpentAfter(c, calls), call)
    ensures var more, spent := calls + [call], SpentAfter(c, calls);
      && TruthfulSession(c, more) && SpentAfter(c, more) == Book(c, spent, call)
      && MovedTotal(c, more, asset) == MovedTotal(c, calls, asset) + Moved(c, spent, call, asset)
  {
    var more := calls + [call];
    assert more[..|more| - 1] == calls;
    TruthfulPrefix(c, calls, more);
    assert more[..|calls|] == calls && TruthfulAt(c, more, |calls|);
  }

  lemma {:induction false} SilentSession(c: Config, asset: string, n: nat)
    requires Payable(c, asset)
    ensures var calls := Repeated(LostAnswer(c, asset), n);
      TruthfulSession(c, calls) && SpentAfter(c, calls) == map[] && MovedTotal(c, calls, asset) == n
  {
    if n > 0 {
      var call := LostAnswer(c, asset);
      SilentSession(c, asset, n - 1);
      LostAnswerMoves(c, asset);
      SessionSnoc(c, Repeated(call, n - 1), call, asset);
    }
  }
}
