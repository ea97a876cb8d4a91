/** What the client signs: the check of an authorization entry (src/x402-auth-entry.ts) and the
    payment of a 402 challenge around it (src/x402-client.ts). */
module PaymentSigning {
  import opened Prelude
  import opened PaymentSelection

  /** A decoded Soroban value; everything but an address and an i128 is left opaque. */
  datatype ScVal = AddressVal(address: string) | I128Val(value: int) | OtherVal(xdr: string)

  /** `BigInt(scValToNative(v))`, `None` where it throws.  It also reads other numeric values, digit
      strings and the like, so it is a parameter. */
  type Decoder = ScVal -> Option<int>

  datatype Function =
    | ContractCall(contract: string, name: string, args: seq<ScVal>)
    | OtherFunction(kind: string)

  datatype Invocation = Invocation(function_: Function, subInvocations: seq<Invocation>)

  datatype Credentials = AddressCredentials(address: string) | OtherCredentials(kind: string)

  datatype AuthEntry = AuthEntry(credentials: Credentials, root: Invocation, signature: string)

  datatype Expected = Expected(contract: string, functionName: string, from: string, to: string, amount: int)

  datatype Mismatch = FunctionType | Contract | FunctionName | ArgumentCount | From | To | Amount | SubInvocations

  /** `assertAuthEntryInvocation`: the first field that differs, if any. */
  function CheckInvocation(entry: AuthEntry, expected: Expected, decode: Decoder): Option<Mismatch> {
    match entry.root.function_
    case OtherFunction(_) => Some(FunctionType)
    case ContractCall(contract, name, args) =>
      if contract != expected.contract then Some(Contract)
      else if name != expected.functionName then Some(FunctionName)
      else if |args| != 3 then Some(ArgumentCount)
      else if args[0] != AddressVal(expected.from) then Some(From)
      else if args[1] != AddressVal(expected.to) then Some(To)
      else if decode(args[2]) != Some(expected.amount) then Some(Amount)
      else if entry.root.subInvocations != [] then Some(SubInvocations)
      else None
  }

  /** The invocation of a SEP-41 transfer and nothing else. */
  function TransferOf(contract: string, from: string, to: string, amount: ScVal): Invocation {
    Invocation(ContractCall(contract, "transfer", [AddressVal(from), AddressVal(to), amount]), [])
  }

  /** The entry authorizes exactly one transfer, and its amount reads as `amount`. */
  ghost predicate AuthorizesTransfer(entry: AuthEntry, contract: string, from: string, to: string, amount: int,
                                     decode: Decoder) {
    exists v :: decode(v) == Some(amount) && entry.root == TransferOf(contract, from, to, v)
  }

  /** The check passes exactly the entries that authorize the intended transfer. */
  lemma CheckAcceptsExactlyTheTransfer(entry: AuthEntry, e: Expected, decode: Decoder)
    requires e.functionName == "transfer"
    ensures CheckInvocation(entry, e, decode) == None
       <==> AuthorizesTransfer(entry, e.contract, e.from, e.to, e.amount, decode)
  {
    if CheckInvocation(entry, e, decode) == None {
      var args := entry.root.function_.args;
      assert args == [AddressVal(e.from), AddressVal(e.to), args[2]];
      assert entry.root == TransferOf(e.contract, e.from, e.to, args[2]);
    }
  }

  /** The field named is the first one that is not as intended. */
  lemma MismatchNamesFirstField(entry: AuthEntry, e: Expected, decode: Decoder)
    ensures var f, found := entry.root.function_, CheckInvocation(entry, e, decode);
      && (found == Some(FunctionType) <==> f.OtherFunction?)
      && (f.ContractCall? ==>
            var contract, name, count := f.contract == e.contract, f.name == e.functionName, |f.args| == 3;
            && (found == Some(Contract) <==> !contract)
            && (found == Some(FunctionName) <==> contract && !name)
            && (found == Some(ArgumentCount) <==> contract && name && !count)
            && (contract && name && count ==>
                  var from, to := f.args[0] == AddressVal(e.from), f.args[1] == AddressVal(e.to);
                  var amount := decode(f.args[2]) == Some(e.amount);
                  && (found == Some(From) <==> !from)
                  && (found == Some(To) <==> from && !to)
                  && (found == Some(Amount) <==> from && to && !amount)
                  && (found == Some(SubInvocations) <==> from && to && amount && entry.root.subInvocations != [])))
  {
  }

  /** The type of the amount is not checked: among the accepted entries, the one that carries the
      i128 itself is the only one with an i128, and any other value the decoder reads as the same
      number passes as well. */
  lemma AmountIsComparedAfterDecoding(entry: AuthEntry, e: Expected, decode: Decoder, v: ScVal)
    requires e.functionName == "transfer" && forall n: int :: decode(I128Val(n)) == Some(n)
    requires entry.root == TransferOf(e.contract, e.from, e.to, v)
    ensures CheckInvocation(entry, e, decode) == None <==> decode(v) == Some(e.amount)
    ensures v.I128Val? ==> (CheckInvocation(entry, e, decode) == None <==> v == I128Val(e.amount))
  {
    CheckAcceptsExactlyTheTransfer(entry, e, decode);
    if CheckInvocation(entry, e, decode) == None {
      var w :| decode(w) == Some(e.amount) && entry.root == TransferOf(e.contract, e.from, e.to, w);
      assert entry.root.function_.args[2] == w;
      assert entry.root.function_.args[2] == v;
    }
  }

  // ----- The signing loop -----

  /** `signer.signAuthEntry`: any answer, `None` if it throws. */
  type Signer = AuthEntry -> Option<AuthEntry>

  datatype SignError = Mismatched(index: nat, field: Mismatch) | SignerFailed(index: nat) | NothingToSign

  predicate IsOurs(entry: AuthEntry, payer: string) { entry.credentials == AddressCredentials(payer) }

  /** What becomes of one entry when all goes well. */
  function Processed(entry: AuthEntry, payer: string, sign: Signer): AuthEntry {
    if IsOurs(entry, payer) && sign(entry).Some? then sign(entry).value else entry
  }

  predicate Signable(entry: AuthEntry, payer: string, e: Expected, decode: Decoder, sign: Signer) {
    IsOurs(entry, payer) ==> CheckInvocation(entry, e, decode) == None && sign(entry).Some?
  }

  function Ours(payer: string): AuthEntry -> bool { (entry: AuthEntry) => IsOurs(entry, payer) }

  /** One turn of the loop: an entry of somebody else stays as it is, one of the payer is checked, handed
      to the signer and replaced by the answer. */
  method SignEntry(entry: AuthEntry, index: nat, payer: string, e: Expected, decode: Decoder, sign: Signer)
    returns (error: Option<SignError>, handed: seq<AuthEntry>, answer: AuthEntry)
    ensures error.None? <==> Signable(entry, payer, e, decode, sign)
    ensures error.None? ==>
      answer == Processed(entry, payer, sign) && handed == if IsOurs(entry, payer) then [entry] else []
    ensures error.Some? ==> IsOurs(entry, payer)
    ensures match CheckInvocation(entry, e, decode)
      case Some(field) => error.Some? ==> error.value == Mismatched(index, field) && handed == []
      case None => error.Some? ==> error.value == SignerFailed(index) && handed == [entry]
  {
    handed, answer := [], entry;
    if !IsOurs(entry, payer) {
      return None, handed, answer;
    }
    var mismatch := CheckInvocation(entry, e, decode);
    if mismatch.Some? {
      return Some(Mismatched(index, mismatch.value)), handed, answer;
    }
    handed := [entry];
    var signed := sign(entry);
    if signed.None? {
      return Some(SignerFailed(index)), handed, answer;
    }
    return None, handed, signed.value;
  }

  function ProcessedUpTo(was: seq<AuthEntry>, n: nat, payer: string, sign: Signer): seq<AuthEntry> {
    seq(|was|, i requires 0 <= i < |was| => if i < n then Processed(was[i], payer, sign) else was[i])
  }

  /** What the loop has done, from the entries before and after and the entries handed to the signer. */
  ghost predicate LoopOutcome(was: seq<AuthEntry>, now: seq<AuthEntry>, error: Option<SignError>,
                              handed: seq<AuthEntry>,
                              payer: string, e: Expected, decode: Decoder, sign: Signer) {
    && |now| == |was|
    && (forall entry <- handed :: IsOurs(entry, payer) && CheckInvocation(entry, e, decode) == None)
    && (error == Some(NothingToSign) <==> forall i :: 0 <= i < |was| ==> !IsOurs(was[i], payer))
    && match error
       case None =>
         && (forall i :: 0 <= i < |was| ==> now[i] == Processed(was[i], payer, sign))
         && handed != [] && handed == Filter(was, Ours(payer)) && AllSignable(was, payer, e, decode, sign)
       case Some(Mismatched(i, field)) =>
         && i < |was| && IsOurs(was[i], payer) && CheckInvocation(was[i], e, decode) == Some(field)
         && handed == Filter(was[..i], Ours(payer)) && AllSignable(was[..i], payer, e, decode, sign)
         && !AllSignable(was, payer, e, decode, sign)
       case Some(SignerFailed(i)) =>
         && i < |was| && IsOurs(was[i], payer) && CheckInvocation(was[i], e, decode) == None && sign(was[i]) == None
         && handed == Filter(was[..i + 1], Ours(payer)) && AllSignable(was[..i], payer, e, decode, sign)
         && !AllSignable(was, payer, e, decode, sign)
       case Some(NothingToSign) => handed == []
  }

  /** The loop over `op.auth`, in place. */
  method SignEntries(auth: array<AuthEntry>, payer: string, e: Expected, decode: Decoder, sign: Signer)
    returns (error: Option<SignError>, handed: seq<AuthEntry>)
    modifies auth
    ensures LoopOutcome(old(auth[..]), auth[..], error, handed, payer, e, decode, sign)
  {
    ghost var was := auth[..];
    handed := [];
    var signed := 0;
    for i := 0 to auth.Length
      invariant auth[..] == ProcessedUpTo(was, i, payer, sign)
      invariant AllSignable(was[..i], payer, e, decode, sign)
      invariant handed == Filter(was[..i], Ours(payer)) && signed == |handed|
    {
      AllSignableSnoc(was, i, payer, e, decode, sign);
      var entry := auth[i];
      assert entry == auth[..][i] == was[i];
      var failure, shown, answer := SignEntry(entry, i, payer, e, decode, sign);
      handed := handed + shown;
      if failure.Some? {
        Stopped(was, auth[..], i, failure.value, handed, payer, e, decode, sign);
        return failure, handed;
      }
      auth[i] := answer;
      signed := signed + |shown|;
    }
    assert was[..auth.Length] == was;
    error := if signed == 0 then Some(NothingToSign) else None;
    Completed(was, auth[..], error, handed, payer, e, decode, sign);
  }

  lemma Stopped(was: seq<AuthEntry>, now: seq<AuthEntry>, i: nat, error: SignError, handed: seq<AuthEntry>,
                payer: string, e: Expected, decode: Decoder, sign: Signer)
    requires |now| == |was| && i < |was| && AllSignable(was[..i], payer, e, decode, sign) && IsOurs(was[i], payer)
    requires match CheckInvocation(was[i], e, decode)
      case Some(field) => error == Mismatched(i, field) && handed == Filter(was[..i], Ours(payer))
      case None =>
        && error == SignerFailed(i) && sign(was[i]) == None
        && handed == Filter(was[..i], Ours(payer)) + [was[i]]
    ensures LoopOutcome(was, now, Some(error), handed, payer, e, decode, sign)
  {
    AllSignableSnoc(was, i, payer, e, decode, sign);
  }

  lemma Completed(was: seq<AuthEntry>, now: seq<AuthEntry>, error: Option<SignError>, handed: seq<AuthEntry>,
                  payer: string, e: Expected, decode: Decoder, sign: Signer)
    requires |now| == |was| && AllSignable(was, payer, e, decode, sign) && handed == Filter(was, Ours(payer))
    requires now == ProcessedUpTo(was, |was|, payer, sign)
    requires error == if handed == [] then Some(NothingToSign) else None
    ensures LoopOutcome(was, now, error, handed, payer, e, decode, sign)
  {
    NoneOfOurs(was, payer);
    HandedAreChecked(was, payer, e, decode, sign);
  }

  ghost predicate AllSignable(s: seq<AuthEntry>, payer: string, e: Expected, decode: Decoder, sign: Signer) {
    forall i :: 0 <= i < |s| ==> Signable(s[i], payer, e, decode, sign)
  }

  lemma AllSignableSnoc(s: seq<AuthEntry>, i: nat, payer: string, e: Expected, decode: Decoder, sign: Signer)
    requires i < |s| && AllSignable(s[..i], payer, e, decode, sign)
    ensures AllSignable(s[..i + 1], payer, e, decode, sign) <==> Signable(s[i], payer, e, decode, sign)
    ensures Filter(s[..i + 1], Ours(payer)) == Filter(s[..i], Ours(payer)) + if IsOurs(s[i], payer) then [s[i]] else []
    ensures forall entry <- Filter(s[..i], Ours(payer)) ::
      IsOurs(entry, payer) && CheckInvocation(entry, e, decode) == None
    ensures !Signable(s[i], payer, e, decode, sign) ==> !AllSignable(s, payer, e, decode, sign)
  {
    FilterSnoc(s, i, Ours(payer));
    HandedAreChecked(s[..i], payer, e, decode, sign);
    assert s[..i + 1] == s[..i] + [s[i]];
  }

  lemma HandedAreChecked(s: seq<AuthEntry>, payer: string, e: Expected, decode: Decoder, sign: Signer)
    requires AllSignable(s, payer, e, decode, sign)
    ensures forall entry <- Filter(s, Ours(payer)) :: IsOurs(entry, payer) && CheckInvocation(entry, e, decode) == None
  {
    FilterFacts(s, Ours(payer));
    forall entry <- Filter(s, Ours(payer)) ensures IsOurs(entry, payer) && CheckInvocation(entry, e, decode) == None {
      var i :| 0 <= i < |s| && s[i] == entry;
      assert Ours(payer)(entry);
    }
  }

  lemma NoneOfOurs(s: seq<AuthEntry>, payer: string)
    ensures Filter(s, Ours(payer)) == [] <==> forall i :: 0 <= i < |s| ==> !IsOurs(s[i], payer)
  {
    FilterEmpty(s, Ours(payer));
  }

  lemma FilterSnoc(s: seq<AuthEntry>, i: nat, keep: AuthEntry -> bool)
    requires i < |s|
    ensures Filter(s[..i + 1], keep) == Filter(s[..i], keep) + if keep(s[i]) then [s[i]] else []
  {
    assert s[..i + 1] == s[..i] + [s[i]];
    FilterAppend(s[..i], [s[i]], keep);
    assert [s[i]][1..] == [];
  }

  // ----- How long a signature lives -----

  const LEDGER_SECONDS := 5.0
  const SAFETY_MARGIN := 2
  const MIN_LEDGERS := 3
  const DEFAULT_MAX_LEDGERS := 58
  const DEFAULT_TIMEOUT := 120.0

  /** The ledgers in which the facilitator accepts a payment, and those it grants on top. */
  function WindowLedgers(timeout: real): int { Ceil(timeout / LEDGER_SECONDS) }

  const FACILITATOR_TOLERANCE := 2

  /** `expirationOffsetFor`. */
  function ExpirationOffset(timeout: Option<real>, ceiling: Option<int>): int {
    var window := WindowLedgers(if timeout.Some? then timeout.value else DEFAULT_TIMEOUT);
    var offset := Min(window - SAFETY_MARGIN, if ceiling.Some? then ceiling.value else DEFAULT_MAX_LEDGERS);
    Max(offset, MIN_LEDGERS)
  }

  /** The minimum wins over both limits: the signature outlives the server's window exactly for a
      timeout of at most ten seconds, the tolerated window exactly for one that is not positive, and
      the ceiling of the client exactly if that is below the minimum. */
  lemma ExpirationStaysInWindowIff(timeout: real, ceiling: Option<int>)
    ensures ExpirationOffset(Some(timeout), ceiling) <= WindowLedgers(timeout) <==> timeout > 10.0
    ensures ExpirationOffset(Some(timeout), ceiling) <= WindowLedgers(timeout) + FACILITATOR_TOLERANCE
         <==> timeout > 0.0
    ensures ceiling.Some? ==>
      (ExpirationOffset(Some(timeout), ceiling) <= ceiling.value <==> ceiling.value >= MIN_LEDGERS)
    ensures ceiling.None? ==> MIN_LEDGERS <= ExpirationOffset(Some(timeout), ceiling) <= DEFAULT_MAX_LEDGERS
  {
    var x := timeout / LEDGER_SECONDS;
    assert x * LEDGER_SECONDS == timeout;
  }

  /** Otherwise it is the greatest number of ledgers within both limits: two less than the window, five
      seconds a ledger (of two minutes, if the server names none), and the ceiling of the client, 58 if it
      names none. */
  lemma ExpirationIsGreatest(timeout: Option<real>, ceiling: Option<int>, n: int)
    ensures n <= ExpirationOffset(timeout, ceiling) <==>
      || n <= 3
      || (5.0 * (n + 1) as real < (if timeout.Some? then timeout.value else 120.0)
          && n <= if ceiling.Some? then ceiling.value else 58)
  {
    var t := if timeout.Some? then timeout.value else 120.0;
    CeilMeans(t / LEDGER_SECONDS, n + 1);
    assert t / LEDGER_SECONDS * LEDGER_SECONDS == t;
  }

  lemma CeilMeans(x: real, n: int)
    ensures Ceil(x) > n <==> x > n as real
  {
  }

  // ----- The payment -----

  const KNOWN_NETWORKS := {"stellar:testnet", "stellar:pubnet"}

  datatype FetchError =
    | BadChallenge
    | Refused(refusal: Refusal)
    | BudgetDenied
    | BuildFailed
    | SigningFailed(error: SignError)
    | Rejected(status: int)

  datatype FetchResult = Unpaid | Paid(amount: nat) | Failed(error: FetchError)

  /** What the outside world answers to one `fetch`. */
  datatype World = World(
    firstStatus: int,
    challenge: Option<seq<Requirements>>,        // the decoded header, `None` if absent or malformed
    budgetAllows: Requirements -> bool,          // `assertBudgetAttributes`
    simulatedAuth: Option<seq<AuthEntry>>,       // the auth entries of the RPC's simulation
    retryStatus: int)

  function ExpectedTransfer(a: Requirements, payer: string): Expected
    requires WellFormed(a)
  {
    Expected(a.asset, "transfer", payer, a.payTo, Price(a))
  }

  /** Nothing keeps the client from signing for this option: the network is known, the budget allows
      it, and the simulation gave entries of the payer, all of them for the intended transfer. */
  ghost predicate Payable(world: World, a: Requirements, payer: string, decode: Decoder, sign: Signer) {
    && WellFormed(a) && a.network in KNOWN_NETWORKS && world.budgetAllows(a) && world.simulatedAuth.Some?
    && (forall entry <- world.simulatedAuth.value :: Signable(entry, payer, ExpectedTransfer(a, payer), decode, sign))
    && (exists entry <- world.simulatedAuth.value :: IsOurs(entry, payer))
  }

  lemma PayableIffSignable(world: World, a: Requirements, payer: string, decode: Decoder, sign: Signer)
    requires WellFormed(a) && a.network in KNOWN_NETWORKS && world.budgetAllows(a) && world.simulatedAuth.Some?
    ensures var given := world.simulatedAuth.value;
      Payable(world, a, payer, decode, sign) <==>
        && (forall i :: 0 <= i < |given| ==> Signable(given[i], payer, ExpectedTransfer(a, payer), decode, sign))
        && (exists i :: 0 <= i < |given| && IsOurs(given[i], payer))
  {
    var given := world.simulatedAuth.value;
    assert forall i :: 0 <= i < |given| ==> given[i] in given;
  }

  /** What the transfers authorized by some entries add up to. */
  ghost function AuthorizedTotal(entries: seq<AuthEntry>, decode: Decoder): int {
    if entries == [] then 0 else AuthorizedAmount(entries[0], decode) + AuthorizedTotal(entries[1..], decode)
  }

  ghost function AuthorizedAmount(entry: AuthEntry, decode: Decoder): int {
    match entry.root.function_
    case ContractCall(_, _, args) =>
      if |args| == 3 && decode(args[2]).Some? then decode(args[2]).value else 0
    case OtherFunction(_) => 0
  }

  lemma {:induction false} TotalOfTransfers(entries: seq<AuthEntry>, a: Requirements, payer: string, decode: Decoder)
    requires WellFormed(a)
    requires forall entry <- entries :: AuthorizesTransfer(entry, a.asset, payer, a.payTo, Price(a), decode)
    ensures AuthorizedTotal(entries, decode) == |entries| * Price(a)
  {
    if entries != [] {
      TotalOfTransfers(entries[1..], a, payer, decode);
      assert AuthorizesTransfer(entries[0], a.asset, payer, a.payTo, Price(a), decode);
      assert |entries| * Price(a) == Price(a) + (|entries| - 1) * Price(a);
    }
  }

  /** `buildSignedPayment` from the simulation on. */
  method BuildSignedPayment(given: seq<AuthEntry>, a: Requirements, payer: string, decode: Decoder, sign: Signer)
    returns (error: Option<SignError>, handed: seq<AuthEntry>, signedAuth: seq<AuthEntry>)
    requires WellFormed(a)
    ensures forall entry <- handed ::
              IsOurs(entry, payer) && AuthorizesTransfer(entry, a.asset, payer, a.payTo, Price(a), decode)
    ensures error.None? <==>
              && (forall i :: 0 <= i < |given| ==> Signable(given[i], payer, ExpectedTransfer(a, payer), decode, sign))
              && (exists i :: 0 <= i < |given| && IsOurs(given[i], payer))
    ensures error.None? ==> handed != [] && handed == Filter(given, Ours(payer)) && |signedAuth| == |given|
    ensures error.None? ==> forall i :: 0 <= i < |given| ==>
              if IsOurs(given[i], payer) then sign(given[i]) == Some(signedAuth[i]) else signedAuth[i] == given[i]
    ensures LoopOutcome(given, signedAuth, error, handed, payer, ExpectedTransfer(a, payer), decode, sign)
  {
    var expected := ExpectedTransfer(a, payer);
    var auth := new AuthEntry[|given|](i requires 0 <= i < |given| => given[i]);
    assert auth[..] == given;
    error, handed := SignEntries(auth, payer, expected, decode, sign);
    forall entry <- handed ensures AuthorizesTransfer(entry, a.asset, payer, a.payTo, Price(a), decode) {
      CheckAcceptsExactlyTheTransfer(entry, expected, decode);
    }
    signedAuth := auth[..];
    assert error.None? ==> forall i :: 0 <= i < |given| ==> Signable(given[i], payer, expected, decode, sign);
  }

  /** The result for a 402 is the first thing that stands in the way, or else the answer to the payment. */
  ghost predicate FirstObstacle(world: World, opts: PayOptions, caip2: string, payer: string, decode: Decoder,
                                sign: Signer, result: FetchResult) {
    if world.challenge.None? then result == Failed(BadChallenge)
    else match Select(world.challenge.value, opts, caip2)
      case Failure(refusal) => result == Failed(Refused(refusal))
      case Success(a) =>
        WellFormed(a) && PaymentObstacle(world, a, payer, decode, sign, result)
  }

  ghost predicate PaymentObstacle(world: World, a: Requirements, payer: string, decode: Decoder, sign: Signer,
                                  result: FetchResult)
    requires WellFormed(a)
  {
    if a.network !in {"stellar:testnet", "stellar:pubnet"} then result == Failed(Refused(NoUsableOption))
    else if !world.budgetAllows(a) then result == Failed(BudgetDenied)
    else if world.simulatedAuth.None? then result == Failed(BuildFailed)
    else SigningOutcome(world.simulatedAuth.value, a, payer, decode, sign, world.retryStatus, result)
  }

  /** The signing stops at the first entry of the payer that is not the intended transfer or that the signer
      will not sign, and needs one entry of the payer. */
  ghost predicate SigningOutcome(given: seq<AuthEntry>, a: Requirements, payer: string, decode: Decoder, sign: Signer,
                                 retryStatus: int, result: FetchResult)
    requires WellFormed(a)
  {
    var e := ExpectedTransfer(a, payer);
    match result
    case Failed(SigningFailed(Mismatched(i, field))) =>
      && i < |given| && AllSignable(given[..i], payer, e, decode, sign) && IsOurs(given[i], payer)
      && CheckInvocation(given[i], e, decode) == Some(field)
    case Failed(SigningFailed(SignerFailed(i))) =>
      && i < |given| && AllSignable(given[..i], payer, e, decode, sign) && IsOurs(given[i], payer)
      && CheckInvocation(given[i], e, decode) == None && sign(given[i]) == None
    case Failed(SigningFailed(NothingToSign)) => forall i :: 0 <= i < |given| ==> !IsOurs(given[i], payer)
    case Failed(Rejected(status)) =>
      && AllSignable(given, payer, e, decode, sign) && (exists i :: 0 <= i < |given| && IsOurs(given[i], payer))
      && status == retryStatus >= 400
    case Paid(amount) =>
      && AllSignable(given, payer, e, decode, sign) && (exists i :: 0 <= i < |given| && IsOurs(given[i], payer))
      && retryStatus < 400 && amount == Price(a)
    case _ => false
  }

  /** The payment for an option, from the network check to the answer of the paid retry. */
  method PayFor(world: World, a: Requirements, payer: string, decode: Decoder, sign: Signer)
    returns (result: FetchResult, handed: seq<AuthEntry>, header: Option<seq<AuthEntry>>)
    requires WellFormed(a)
    ensures PaymentObstacle(world, a, payer, decode, sign, result)
    ensures result.Paid? <==> Payable(world, a, payer, decode, sign) && world.retryStatus < 400
    ensures handed != [] ==> world.budgetAllows(a) && world.simulatedAuth.Some?
    ensures forall entry <- handed ::
              && entry.credentials == AddressCredentials(payer)
              && AuthorizesTransfer(entry, a.asset, payer, a.payTo, Price(a), decode)
    ensures AuthorizedTotal(handed, decode) == |handed| * Price(a)
    ensures header.Some? ==>
              && handed != [] && |header.value| == |world.simulatedAuth.value|
              && handed == Filter(world.simulatedAuth.value, Ours(payer))
              && forall i :: 0 <= i < |header.value| ==>
                   var given := world.simulatedAuth.value[i];
                   if given.credentials == AddressCredentials(payer) then sign(given) == Some(header.value[i])
                   else header.value[i] == given
    ensures header.Some? <==> result.Paid? || (result.Failed? && result.error.Rejected?)
  {
    handed, header := [], None;
    if a.network !in KNOWN_NETWORKS {
      return Failed(Refused(NoUsableOption)), handed, header;
    }
    if !world.budgetAllows(a) {
      return Failed(BudgetDenied), handed, header;
    }
    if world.simulatedAuth.None? {
      return Failed(BuildFailed), handed, header;
    }
    var error, shown, signedAuth := BuildSignedPayment(world.simulatedAuth.value, a, payer, decode, sign);
    handed := shown;
    TotalOfTransfers(handed, a, payer, decode);
    PayableIffSignable(world, a, payer, decode, sign);
    if error.Some? {
      return Failed(SigningFailed(error.value)), handed, header;
    }
    header := Some(signedAuth);
    if world.retryStatus == 402 || world.retryStatus >= 400 {
      return Failed(Rejected(world.retryStatus)), handed, header;
    }
    return Paid(Price(a)), handed, header;
  }

  /** `x402Fetch` with `buildSignedPayment`: `header` holds the auth entries of the payment sent. */
  method Fetch(world: World, opts: PayOptions, caip2: string, payer: string, decode: Decoder, sign: Signer)
    returns (result: FetchResult, handed: seq<AuthEntry>, header: Option<seq<AuthEntry>>)
    ensures result == Unpaid <==> world.firstStatus != 402
    ensures world.firstStatus == 402 ==> FirstObstacle(world, opts, caip2, payer, decode, sign, result)
    // Whatever the server and the RPC say, only the intended transfer of an allowed asset, of at
    // most `maxAmount`, reaches the signer.
    ensures handed != [] ==>
              && world.firstStatus == 402 && world.challenge.Some?
              && Select(world.challenge.value, opts, caip2).Success?
              && var a := Select(world.challenge.value, opts, caip2).value;
                 && AssetAllowed(opts, a.asset) && WellFormed(a) && Price(a) <= opts.maxAmount && world.budgetAllows(a)
                 && forall entry <- handed ::
                      && entry.credentials == AddressCredentials(payer)
                      && AuthorizesTransfer(entry, a.asset, payer, a.payTo, Price(a), decode)
    // The limit holds for each of them.  Together they authorize the price once for each.
    ensures handed != [] ==>
              var price := Price(Select(world.challenge.value, opts, caip2).value);
              AuthorizedTotal(handed, decode) == |handed| * price
    // A payment is sent only if something was signed; foreign entries travel unchanged.
    ensures header.Some? ==>
              && handed != [] && world.simulatedAuth.Some? && |header.value| == |world.simulatedAuth.value|
              && handed == Filter(world.simulatedAuth.value, Ours(payer))
              && forall i :: 0 <= i < |header.value| ==>
                   var given := world.simulatedAuth.value[i];
                   if given.credentials == AddressCredentials(payer) then sign(given) == Some(header.value[i])
                   else header.value[i] == given
    // So what a payment authorizes stays within the limit exactly if the price does, taken once for each
    // entry that the RPC presents for the payer (`handed`, as above).
    ensures header.Some? ==>
              (AuthorizedTotal(handed, decode) <= opts.maxAmount <==>
               |handed| * Price(Select(world.challenge.value, opts, caip2).value) <= opts.maxAmount)
    // And it is paid for whenever nothing stands in the way.
    ensures result.Paid? <==>
              && world.firstStatus == 402 && world.challenge.Some?
              && Select(world.challenge.value, opts, caip2).Success?
              && Payable(world, Select(world.challenge.value, opts, caip2).value, payer, decode, sign)
              && world.retryStatus < 400
    ensures header.Some? <==> result.Paid? || (result.Failed? && result.error.Rejected?)
  {
    handed, header := [], None;
    if world.firstStatus != 402 {
      return Unpaid, handed, header;
    }
    if world.challenge.None? {
      return Failed(BadChallenge), handed, header;
    }
    var choice := Select(world.challenge.value, opts, caip2);
    if choice.Failure? {
      return Failed(Refused(choice.error)), handed, header;
    }
    CreatePaymentAcceptsSelection(world.challenge.value, opts, caip2);
    result, handed, header := PayFor(world, choice.value, payer, decode, sign);
  }
}
