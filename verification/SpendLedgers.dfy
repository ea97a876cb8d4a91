/** The two reserve/settle budgets: the session budget with its settlement receipts
    (contrib/issue-507-510-515/upto-settlement-receipt.ts), which floors what it drops, and the
    settled-spend ledger (contrib/mcp-payer-wave-511/settled-spend-ledger.ts), which refuses it. */
module SpendLedgers {
  import opened Prelude
  import opened Decimal

  // ----- Receipts -----

  /** The settled amount in the facilitator's header: text, or a JSON number (`None` unless it is a
      safe integer). */
  datatype Reported = Absent | Text(text: string) | Number(safeInteger: Option<int>)

  function ParseDigits(text: string): Option<nat> {
    if text == "" || !AllDigits(text) then None else Some(Value(text))
  }

  function ParseSettledAmount(raw: Reported): Option<nat> {
    match raw
    case Absent => None
    case Text(text) => ParseDigits(text)
    case Number(n) => ParseDigits(if n.Some? then SignedDecimal(n.value) else "")
  }

  datatype Source = Facilitator | CeilingFallback | CeilingClamped

  datatype Receipt = Receipt(authorizedCeiling: int, settledAmount: int, unusedCeiling: int,
                             settledBelowCeiling: bool, source: Source)

  datatype LedgerError = NegativeAmount | UnknownAsset | CeilingExceeded(committed: int) | SettledTooMuch | NotReserved

  function BuildReceipt(ceiling: int, reported: Reported): Result<Receipt, LedgerError> {
    if ceiling < 0 then Failure(NegativeAmount)
    else
      var amount := ParseSettledAmount(reported);
      var (settled, source) :=
        if amount.None? then (ceiling, CeilingFallback)
        else if amount.value > ceiling then (ceiling, CeilingClamped)
        else (amount.value, Facilitator);
      Success(Receipt(ceiling, settled, ceiling - settled, settled < ceiling, source))
  }

  /** The report says `n`: the number itself, or one or more digits, leading zeros aside those of `n`. */
  ghost predicate Says(reported: Reported, n: nat) {
    match reported
    case Absent => false
    case Text(text) => text != "" && (forall c <- text :: '0' <= c <= '9') && StripLeadingZeros(text) == ToDecimal(n)
    case Number(m) => m == Some(n)
  }

  lemma ReportsReadBack(reported: Reported, n: nat)
    ensures ParseSettledAmount(reported) == Some(n) <==> Says(reported, n)
  {
    match reported
    case Absent =>
    case Text(text) => TextReadsBack(text, n);
    case Number(m) =>
      if m.Some? && m.value >= 0 {
        DecimalRoundTrip(m.value);
      } else if m.Some? {
        assert SignedDecimal(m.value)[0] == '-';
      }
  }

  lemma TextReadsBack(text: string, n: nat)
    ensures ParseDigits(text) == Some(n) <==> Says(Text(text), n)
  {
    DigitsOnly(text);
    if text != "" && AllDigits(text) {
      DecimalOfValue(text);
      DecimalRoundTrip(Value(text));
      DecimalRoundTrip(n);
    }
  }

  lemma DigitsOnly(text: string)
    ensures AllDigits(text) <==> forall c <- text :: '0' <= c <= '9'
  {
    if forall c <- text :: '0' <= c <= '9' {
      forall i | 0 <= i < |text| ensures IsDigit(text[i]) {
        assert text[i] in text;
      }
    }
  }

  /** A report that says an amount within the ceiling is charged; one above it is clamped, and whatever says
      no amount (nothing, an unsafe or negative number, text that is not digits) is charged the ceiling.
      The charge and the unused part add up to the ceiling. */
  lemma ReceiptIsSound(ceiling: int, reported: Reported)
    ensures BuildReceipt(ceiling, reported).Failure? <==> ceiling < 0
    ensures ceiling < 0 ==> BuildReceipt(ceiling, reported) == Failure(NegativeAmount)
    ensures ceiling >= 0 ==> var receipt := BuildReceipt(ceiling, reported).value;
      && receipt.authorizedCeiling == ceiling && 0 <= receipt.settledAmount <= ceiling
      && receipt.settledAmount + receipt.unusedCeiling == ceiling
      && (receipt.settledBelowCeiling <==> receipt.settledAmount < ceiling)
      && (receipt.source == CeilingFallback <==> forall n: nat :: !Says(reported, n))
      && (receipt.source == CeilingClamped <==> exists n: nat :: Says(reported, n) && n > ceiling)
      && (receipt.source == Facilitator <==> exists n: nat :: Says(reported, n) && n <= ceiling)
      && (receipt.source == Facilitator ==> Says(reported, receipt.settledAmount))
      && (receipt.source != Facilitator ==> receipt.settledAmount == ceiling)
  {
    forall n: nat ensures ParseSettledAmount(reported) == Some(n) <==> Says(reported, n) {
      ReportsReadBack(reported, n);
    }
    var amount := ParseSettledAmount(reported);
    assert amount.Some? ==> Says(reported, amount.value);
  }

  // ----- One operation on each ledger -----

  type Ceilings = map<string, int>

  datatype Book = Book(spent: map<string, int>, reserved: map<string, int>)

  function Get(m: map<string, int>, asset: string): int { if asset in m then m[asset] else 0 }

  function Committed(book: Book, asset: string): int { Get(book.spent, asset) + Get(book.reserved, asset) }

  datatype Operation =
    | Reserve(asset: string, amount: int)
    | Settle(asset: string, amount: int, settled: int)
    | Release(asset: string, amount: int)

  function Drop(book: Book, asset: string, amount: int): Book {
    var current := Get(book.reserved, asset);
    book.(reserved := book.reserved[asset := if current >= amount then current - amount else 0])
  }

  function Debit(book: Book, asset: string, settled: int): Book {
    book.(spent := book.spent[asset := Get(book.spent, asset) + settled])
  }

  /** The session budget. */
  function Flooring(ceilings: Ceilings, book: Book, op: Operation): Result<Book, LedgerError> {
    if op.asset !in ceilings then Failure(UnknownAsset)
    else match op
      case Reserve(asset, amount) =>
        if Committed(book, asset) + amount > ceilings[asset] then Failure(CeilingExceeded(Committed(book, asset)))
        else Success(book.(reserved := book.reserved[asset := Get(book.reserved, asset) + amount]))
      case Settle(asset, amount, settled) => Success(Debit(Drop(book, asset, amount), asset, settled))
      case Release(asset, amount) => Success(Drop(book, asset, amount))
  }

  /** The settled-spend ledger. */
  function Strict(ceilings: Ceilings, book: Book, op: Operation): Result<Book, LedgerError> {
    if op.amount < 0 || (op.Settle? && op.settled < 0) then Failure(NegativeAmount)
    else if op.asset !in ceilings then Failure(UnknownAsset)
    else match op
      case Reserve(asset, amount) =>
        if Committed(book, asset) + amount > ceilings[asset] then Failure(CeilingExceeded(Committed(book, asset)))
        else Success(book.(reserved := book.reserved[asset := Get(book.reserved, asset) + amount]))
      case Settle(asset, amount, settled) =>
        if settled > amount then Failure(SettledTooMuch)
        else if Get(book.reserved, asset) < amount then Failure(NotReserved)
        else
          var dropped := book.(reserved := book.reserved[asset := Get(book.reserved, asset) - amount]);
          Success(Debit(dropped, asset, settled))
      case Release(asset, amount) =>
        if Get(book.reserved, asset) < amount then Failure(NotReserved)
        else Success(book.(reserved := book.reserved[asset := Get(book.reserved, asset) - amount]))
  }

  /** What an operation that is not refused does to the figures of every asset. */
  ghost predicate Moves(before: Book, after: Book, op: Operation, reserved: int) {
    forall asset: string ::
      && Get(after.reserved, asset) == (if asset == op.asset then reserved else Get(before.reserved, asset))
      && Get(after.spent, asset) == Get(before.spent, asset) + if op.Settle? && asset == op.asset then op.settled else 0
  }

  /** The session budget refuses an asset without a ceiling and a reservation that does not fit, and nothing
      else.  It never drops more than is reserved. */
  lemma FlooringMeans(ceilings: Ceilings, book: Book, op: Operation)
    ensures var answer := Flooring(ceilings, book, op);
      var held, used := Get(book.reserved, op.asset), Get(book.spent, op.asset);
      && (answer == Failure(UnknownAsset) <==> op.asset !in ceilings)
      && (op.asset in ceilings && answer.Failure? ==> answer == Failure(CeilingExceeded(used + held)))
      && (op.asset in ceilings ==> (answer.Failure? <==> op.Reserve? && op.amount > ceilings[op.asset] - used - held))
      && (answer.Success? ==>
            Moves(book, answer.value, op, if op.Reserve? then held + op.amount else Max(0, held - op.amount)))
  {
  }

  /** The settled-spend ledger refuses negative amounts first, then an unknown asset, then a reservation that
      does not fit, a settlement above its reservation, and a drop of more than is reserved. */
  lemma StrictMeans(ceilings: Ceilings, book: Book, op: Operation)
    ensures var answer := Strict(ceilings, book, op);
      var held, used := Get(book.reserved, op.asset), Get(book.spent, op.asset);
      var negative := op.amount < 0 || (op.Settle? && op.settled < 0);
      && (answer == Failure(NegativeAmount) <==> negative)
      && (answer == Failure(UnknownAsset) <==> !negative && op.asset !in ceilings)
      && (!negative && op.asset in ceilings ==>
            && (op.Reserve? ==>
                  answer.Failure? == (op.amount > ceilings[op.asset] - used - held)
                  && (answer.Failure? ==> answer == Failure(CeilingExceeded(used + held))))
            && (answer == Failure(SettledTooMuch) <==> op.Settle? && op.amount < op.settled)
            && (answer == Failure(NotReserved) <==>
                  !op.Reserve? && held < op.amount && !(op.Settle? && op.amount < op.settled)))
      && (answer.Success? ==> Moves(book, answer.value, op, if op.Reserve? then held + op.amount else held - op.amount))
  {
  }

  function Remaining(ceilings: Ceilings, book: Book, asset: string): Result<int, LedgerError> {
    if asset !in ceilings then Failure(UnknownAsset)
    else Success(Max(0, ceilings[asset] - Committed(book, asset)))
  }

  function Kept(book: Book, answer: Result<Book, LedgerError>): Book {
    if answer.Success? then answer.value else book
  }

  /** The session budget as an object: a refused operation changes nothing. */
  class SessionBudget {
    const ceilings: Ceilings
    var spent: map<string, int>
    var reserved: map<string, int>

    function Contents(): Book
      reads this
    {
      Book(spent, reserved)
    }

    constructor (ceilings: Ceilings)
      ensures this.ceilings == ceilings && Contents() == Book(map[], map[])
    {
      this.ceilings := ceilings;
      spent, reserved := map[], map[];
    }

    method DropReservation(asset: string, amount: int)
      modifies this`reserved
      ensures Contents() == Drop(old(Contents()), asset, amount)
    {
      var current := Get(reserved, asset);
      reserved := reserved[asset := if current >= amount then current - amount else 0];
    }

    method ReserveAmount(asset: string, authorizedCeiling: int) returns (error: Option<LedgerError>)
      modifies this`reserved
      ensures var answer := Flooring(ceilings, old(Contents()), Reserve(asset, authorizedCeiling));
        Contents() == Kept(old(Contents()), answer) && error == (if answer.Success? then None else Some(answer.error))
    {
      if asset !in ceilings {
        return Some(UnknownAsset);
      }
      var committed := Get(spent, asset) + Get(reserved, asset);
      if committed + authorizedCeiling > ceilings[asset] {
        return Some(CeilingExceeded(committed));
      }
      reserved := reserved[asset := Get(reserved, asset) + authorizedCeiling];
      return None;
    }

    method SettleReceipt(asset: string, receipt: Receipt) returns (error: Option<LedgerError>)
      modifies this`reserved, this`spent
      ensures var op := Settle(asset, receipt.authorizedCeiling, receipt.settledAmount);
        var answer := Flooring(ceilings, old(Contents()), op);
        Contents() == Kept(old(Contents()), answer) && error == (if answer.Success? then None else Some(answer.error))
    {
      if asset !in ceilings {
        return Some(UnknownAsset);
      }
      DropReservation(asset, receipt.authorizedCeiling);
      spent := spent[asset := Get(spent, asset) + receipt.settledAmount];
      return None;
    }

    method ReleaseAmount(asset: string, authorizedCeiling: int) returns (error: Option<LedgerError>)
      modifies this`reserved
      ensures var answer := Flooring(ceilings, old(Contents()), Release(asset, authorizedCeiling));
        Contents() == Kept(old(Contents()), answer) && error == (if answer.Success? then None else Some(answer.error))
    {
      if asset !in ceilings {
        return Some(UnknownAsset);
      }
      DropReservation(asset, authorizedCeiling);
      return None;
    }
  }

  /** The settled-spend ledger as an object. */
  class SettledSpendLedger {
    const ceilings: Ceilings
    var spent: map<string, int>
    var reserved: map<string, int>

    function Contents(): Book
      reads this
    {
      Book(spent, reserved)
    }

    constructor (ceilings: Ceilings)
      ensures this.ceilings == ceilings && Contents() == Book(map[], map[])
    {
      this.ceilings := ceilings;
      spent, reserved := map[], map[];
    }

    method ReserveAmount(asset: string, requested: int) returns (error: Option<LedgerError>)
      modifies this`reserved
      ensures var answer := Strict(ceilings, old(Contents()), Reserve(asset, requested));
        Contents() == Kept(old(Contents()), answer) && error == (if answer.Success? then None else Some(answer.error))
    {
      if requested < 0 {
        return Some(NegativeAmount);
      }
      if asset !in ceilings {
        return Some(UnknownAsset);
      }
      var currentSpent, currentReserved := Get(spent, asset), Get(reserved, asset);
      if currentSpent + currentReserved + requested > ceilings[asset] {
        return Some(CeilingExceeded(currentSpent + currentReserved));
      }
      reserved := reserved[asset := currentReserved + requested];
      return None;
    }

    method SettleAmount(asset: string, requested: int, settled: int) returns (error: Option<LedgerError>)
      modifies this`reserved, this`spent
      ensures var answer := Strict(ceilings, old(Contents()), Settle(asset, requested, settled));
        Contents() == Kept(old(Contents()), answer) && error == (if answer.Success? then None else Some(answer.error))
    {
      if requested < 0 || settled < 0 {
        return Some(NegativeAmount);
      }
      if asset !in ceilings {
        return Some(UnknownAsset);
      }
      if settled > requested {
        return Some(SettledTooMuch);
      }
      var currentReserved := Get(reserved, asset);
      if currentReserved < requested {
        return Some(NotReserved);
      }
      reserved := reserved[asset := currentReserved - requested];
      spent := spent[asset := Get(spent, asset) + settled];
      return None;
    }

    method ReleaseAmount(asset: string, requested: int) returns (error: Option<LedgerError>)
      modifies this`reserved
      ensures var answer := Strict(ceilings, old(Contents()), Release(asset, requested));
        Contents() == Kept(old(Contents()), answer) && error == (if answer.Success? then None else Some(answer.error))
    {
      if requested < 0 {
        return Some(NegativeAmount);
      }
      if asset !in ceilings {
        return Some(UnknownAsset);
      }
      var currentReserved := Get(reserved, asset);
      if currentReserved < requested {
        return Some(NotReserved);
      }
      reserved := reserved[asset := currentReserved - requested];
      return None;
    }
  }

  // ----- When the two ledgers agree -----

  function FlooringAfter(ceilings: Ceilings, ops: seq<Operation>): Book {
    if ops == [] then Book(map[], map[])
    else
      var before := FlooringAfter(ceilings, ops[..|ops| - 1]);
      Kept(before, Flooring(ceilings, before, ops[|ops| - 1]))
  }

  function StrictAfter(ceilings: Ceilings, ops: seq<Operation>): Book {
    if ops == [] then Book(map[], map[])
    else
      var before := StrictAfter(ceilings, ops[..|ops| - 1]);
      Kept(before, Strict(ceilings, before, ops[|ops| - 1]))
  }

  /** Both ledgers give the same answers, refusals included, and so keep the same books, all along. */
  ghost predicate AgreeThroughout(ceilings: Ceilings, ops: seq<Operation>) {
    forall n :: 0 <= n < |ops| ==>
      Flooring(ceilings, FlooringAfter(ceilings, ops[..n]), ops[n])
      == Strict(ceilings, StrictAfter(ceilings, ops[..n]), ops[n])
  }

  /** What a caller can check first: no amount is negative and, for an asset with a ceiling, what is settled
      or released is covered by what is reserved. */
  predicate Covered(ceilings: Ceilings, book: Book, op: Operation) {
    && op.amount >= 0 && (op.Settle? ==> op.settled >= 0)
    && (op.asset in ceilings ==>
          match op
          case Reserve(_, _) => true
          case Settle(asset, amount, settled) => settled <= amount <= Get(book.reserved, asset)
          case Release(asset, amount) => amount <= Get(book.reserved, asset))
  }

  lemma AgreeOnOneIffCovered(ceilings: Ceilings, book: Book, op: Operation)
    ensures Flooring(ceilings, book, op) == Strict(ceilings, book, op) <==> Covered(ceilings, book, op)
  {
  }

  /** On every sequence of operations of any callers, the two ledgers agree all along exactly when
      each operation was covered at its time. */
  lemma LedgersAgreeIffCovered(ceilings: Ceilings, ops: seq<Operation>)
    ensures AgreeThroughout(ceilings, ops)
       <==> forall n :: 0 <= n < |ops| ==> Covered(ceilings, StrictAfter(ceilings, ops[..n]), ops[n])
  {
    if AgreeThroughout(ceilings, ops) {
      forall n | 0 <= n < |ops| ensures Covered(ceilings, StrictAfter(ceilings, ops[..n]), ops[n]) {
        SameBooks(ceilings, ops, n);
        AgreeOnOneIffCovered(ceilings, StrictAfter(ceilings, ops[..n]), ops[n]);
      }
    }
    if forall n :: 0 <= n < |ops| ==> Covered(ceilings, StrictAfter(ceilings, ops[..n]), ops[n]) {
      forall n | 0 <= n < |ops|
        ensures Flooring(ceilings, FlooringAfter(ceilings, ops[..n]), ops[n])
             == Strict(ceilings, StrictAfter(ceilings, ops[..n]), ops[n])
      {
        CoveredBooks(ceilings, ops, n);
        AgreeOnOneIffCovered(ceilings, StrictAfter(ceilings, ops[..n]), ops[n]);
      }
    }
  }

  lemma {:induction false} SameBooks(ceilings: Ceilings, ops: seq<Operation>, n: nat)
    requires n <= |ops| && AgreeThroughout(ceilings, ops)
    ensures FlooringAfter(ceilings, ops[..n]) == StrictAfter(ceilings, ops[..n])
  {
    if n > 0 {
      SameBooks(ceilings, ops, n - 1);
      assert ops[..n][..n - 1] == ops[..n - 1] && ops[..n][n - 1] == ops[n - 1];
    }
  }

  lemma {:induction false} CoveredBooks(ceilings: Ceilings, ops: seq<Operation>, n: nat)
    requires n <= |ops| && forall k :: 0 <= k < |ops| ==> Covered(ceilings, StrictAfter(ceilings, ops[..k]), ops[k])
    ensures FlooringAfter(ceilings, ops[..n]) == StrictAfter(ceilings, ops[..n])
  {
    if n > 0 {
      CoveredBooks(ceilings, ops, n - 1);
      AgreeOnOneIffCovered(ceilings, StrictAfter(ceilings, ops[..n - 1]), ops[n - 1]);
      assert ops[..n][..n - 1] == ops[..n - 1] && ops[..n][n - 1] == ops[n - 1];
    }
  }

  // ----- Runs in which each payment ends its own reservation -----

  datatype Line = Line(asset: string, amount: nat)

  /** What became of a payment whose reservation was taken: it was confirmed, with what the
      facilitator reported and what the chain really moved; or nothing moved. */
  datatype Step =
    | Hold(asset: string, amount: nat)
    | Confirm(i: nat, reported: Reported, moved: nat)
    | Cancel(i: nat)

  /** The budget, the open reservations, the receipts, and the amounts really moved. */
  datatype Session = Session(book: Book, open: seq<Line>, settled: seq<Line>, moved: seq<Line>)

  predicate Enabled(s: Session, step: Step) { step.Hold? || step.i < |s.open| }

  /** The call a step makes. */
  function Call(s: Session, step: Step): Operation
    requires Enabled(s, step)
  {
    match step
    case Hold(asset, amount) => Reserve(asset, amount)
    case Confirm(i, reported, _) => Settle(s.open[i].asset, s.open[i].amount, Charge(s.open[i].amount, reported))
    case Cancel(i) => Release(s.open[i].asset, s.open[i].amount)
  }

  function Charge(ceiling: nat, reported: Reported): (charge: nat)
    ensures charge <= ceiling
  {
    BuildReceipt(ceiling, reported).value.settledAmount
  }

  function Apply(ceilings: Ceilings, s: Session, step: Step): Session {
    if !Enabled(s, step) then s
    else
      var answer := Flooring(ceilings, s.book, Call(s, step));
      if answer.Failure? then s
      else match step
        case Hold(asset, amount) => s.(book := answer.value, open := s.open + [Line(asset, amount)])
        case Confirm(i, reported, moved) =>
          var line := s.open[i];
          Session(answer.value, Without(s.open, i), s.settled + [Line(line.asset, Charge(line.amount, reported))],
                  s.moved + [Line(line.asset, moved)])
        case Cancel(i) => s.(book := answer.value, open := Without(s.open, i))
  }

  function After(ceilings: Ceilings, steps: seq<Step>): Session {
    if steps == [] then Session(Book(map[], map[]), [], [], [])
    else Apply(ceilings, After(ceilings, steps[..|steps| - 1]), steps[|steps| - 1])
  }

  function Sum(lines: seq<Line>, asset: string): nat {
    if lines == [] then 0
    else Sum(lines[..|lines| - 1], asset) + if lines[|lines| - 1].asset == asset then lines[|lines| - 1].amount else 0
  }

  /** `reserved` is what is open, `spent` is what the receipts charge, and together they fit. */
  predicate Balances(ceilings: Ceilings, s: Session, asset: string) {
    && Get(s.book.reserved, asset) == Sum(s.open, asset)
    && Get(s.book.spent, asset) == Sum(s.settled, asset)
    && (asset in ceilings ==> Committed(s.book, asset) <= Max(0, ceilings[asset]))
  }

  ghost predicate Balanced(ceilings: Ceilings, s: Session) {
    && (forall asset: string :: Balances(ceilings, s, asset))
    && (forall line <- s.open :: line.asset in ceilings)
  }

  /** In every run over any assets, interleaved in any way, the budget is balanced, no matter what
      the facilitator reports; no confirmation or cancellation is refused; and the strict ledger,
      given the same calls, gives the same answers and keeps the same book. */
  lemma {:induction false} BudgetIsConserved(ceilings: Ceilings, steps: seq<Step>)
    ensures Balanced(ceilings, After(ceilings, steps))
    ensures forall step :: Enabled(After(ceilings, steps), step) ==>
      var s := After(ceilings, steps);
      && Flooring(ceilings, s.book, Call(s, step)) == Strict(ceilings, s.book, Call(s, step))
      && (!step.Hold? ==> Flooring(ceilings, s.book, Call(s, step)).Success?)
  {
    if steps != [] {
      var s, step := After(ceilings, steps[..|steps| - 1]), steps[|steps| - 1];
      BudgetIsConserved(ceilings, steps[..|steps| - 1]);
      if Enabled(s, step) {
        BalancedStep(ceilings, s, step);
      }
    }
    forall step | Enabled(After(ceilings, steps), step)
      ensures var s := After(ceilings, steps);
        && Flooring(ceilings, s.book, Call(s, step)) == Strict(ceilings, s.book, Call(s, step))
        && (!step.Hold? ==> Flooring(ceilings, s.book, Call(s, step)).Success?)
    {
      BalancedCovers(ceilings, After(ceilings, steps), step);
    }
  }

  lemma BalancedCovers(ceilings: Ceilings, s: Session, step: Step)
    requires Balanced(ceilings, s) && Enabled(s, step)
    ensures Flooring(ceilings, s.book, Call(s, step)) == Strict(ceilings, s.book, Call(s, step))
    ensures !step.Hold? ==> Flooring(ceilings, s.book, Call(s, step)).Success?
  {
    if !step.Hold? {
      SumSplit(s.open, step.i, s.open[step.i].asset);
      assert s.open[step.i] in s.open && Balances(ceilings, s, s.open[step.i].asset);
    }
    AgreeOnOneIffCovered(ceilings, s.book, Call(s, step));
  }

  lemma BalancedStep(ceilings: Ceilings, s: Session, step: Step)
    requires Balanced(ceilings, s) && Enabled(s, step)
    ensures Balanced(ceilings, Apply(ceilings, s, step))
  {
    if !step.Hold? {
      assert s.open[step.i] in s.open;
    }
    forall asset: string ensures Balances(ceilings, Apply(ceilings, s, step), asset) {
      assert Balances(ceilings, s, asset);
      match step
      case Hold(_, _) => HoldBalances(ceilings, s, step, asset);
      case Confirm(_, _, _) => ConfirmBalances(ceilings, s, step, asset);
      case Cancel(_) => CancelBalances(ceilings, s, step, asset);
    }
  }

  lemma HoldBalances(ceilings: Ceilings, s: Session, step: Step, asset: string)
    requires step.Hold? && Balances(ceilings, s, asset)
    ensures Balances(ceilings, Apply(ceilings, s, step), asset)
  {
    var s', line := Apply(ceilings, s, step), Line(step.asset, step.amount);
    SumSnoc(s.open, line, asset);
    if s' != s {
      assert s'.open == s.open + [line] && s'.settled == s.settled && s'.book.spent == s.book.spent;
      assert s'.book.reserved == s.book.reserved[line.asset := Get(s.book.reserved, line.asset) + line.amount];
      assert Committed(s.book, line.asset) + line.amount <= ceilings[line.asset];
    }
  }

  lemma ConfirmBalances(ceilings: Ceilings, s: Session, step: Step, asset: string)
    requires step.Confirm? && Enabled(s, step) && Balances(ceilings, s, asset)
    ensures Balances(ceilings, Apply(ceilings, s, step), asset)
  {
    var line := s.open[step.i];
    SumSplit(s.open, step.i, asset);
    SumSnoc(s.settled, Line(line.asset, Charge(line.amount, step.reported)), asset);
  }

  lemma CancelBalances(ceilings: Ceilings, s: Session, step: Step, asset: string)
    requires step.Cancel? && Enabled(s, step) && Balances(ceilings, s, asset)
    ensures Balances(ceilings, Apply(ceilings, s, step), asset)
  {
    SumSplit(s.open, step.i, asset);
  }

  lemma SumSnoc(lines: seq<Line>, line: Line, asset: string)
    ensures Sum(lines + [line], asset) == Sum(lines, asset) + if line.asset == asset then line.amount else 0
  {
    assert (lines + [line])[..|lines|] == lines;
  }

  lemma {:induction false} SumSplit(lines: seq<Line>, i: nat, asset: string)
    requires i < |lines|
    ensures Sum(lines, asset) == Sum(Without(lines, i), asset) + if lines[i].asset == asset then lines[i].amount else 0
  {
    var front, last := lines[..|lines| - 1], lines[|lines| - 1];
    if i == |lines| - 1 {
      assert Without(lines, i) == front;
    } else {
      SumSplit(front, i, asset);
      assert Without(lines, i) == Without(front, i) + [last];
      SumSnoc(Without(front, i), last, asset);
    }
  }

  /** The calls a run makes, in order. */
  function Calls(ceilings: Ceilings, steps: seq<Step>): seq<Operation> {
    if steps == [] then []
    else
      var before, step := steps[..|steps| - 1], steps[|steps| - 1];
      var s := After(ceilings, before);
      Calls(ceilings, before) + if Enabled(s, step) then [Call(s, step)] else []
  }

  /** Fed the calls of such a run, both ledgers end with the book of the run. */
  lemma {:induction false} BothLedgersKeepTheBook(ceilings: Ceilings, steps: seq<Step>)
    ensures FlooringAfter(ceilings, Calls(ceilings, steps)) == After(ceilings, steps).book
    ensures StrictAfter(ceilings, Calls(ceilings, steps)) == After(ceilings, steps).book
  {
    if steps != [] {
      var before, step := steps[..|steps| - 1], steps[|steps| - 1];
      var s := After(ceilings, before);
      BothLedgersKeepTheBook(ceilings, before);
      if Enabled(s, step) {
        BudgetIsConserved(ceilings, before);
        var calls := Calls(ceilings, steps);
        assert calls[..|calls| - 1] == Calls(ceilings, before) && calls[|calls| - 1] == Call(s, step);
      } else {
        assert Calls(ceilings, steps) == Calls(ceilings, before);
      }
    }
  }

  /** What is left to spend is exactly the ceiling less what is spent and held. */
  lemma RemainingIsExact(ceilings: Ceilings, steps: seq<Step>, asset: string)
    ensures var s := After(ceilings, steps);
      && (asset !in ceilings ==> Remaining(ceilings, s.book, asset) == Failure(UnknownAsset))
      && (asset in ceilings && ceilings[asset] >= 0 ==>
            Remaining(ceilings, s.book, asset) == Success(ceilings[asset] - Sum(s.settled, asset) - Sum(s.open, asset)))
      && (asset in ceilings && ceilings[asset] < 0 ==> Remaining(ceilings, s.book, asset) == Success(0))
  {
    BudgetIsConserved(ceilings, steps);
    assert Balances(ceilings, After(ceilings, steps), asset);
  }

  // ----- What the budget says about the chain -----

  /** The chain moved no more than was authorized, and the facilitator reported the amount moved, or
      nothing readable. */
  ghost predicate Honest(s: Session, step: Step) {
    step.Confirm? && step.i < |s.open| ==>
      && step.moved <= s.open[step.i].amount
      && forall n: nat :: Says(step.reported, n) ==> n == step.moved
  }

  ghost predicate HonestRun(ceilings: Ceilings, steps: seq<Step>) {
    forall n :: 0 <= n < |steps| ==> Honest(After(ceilings, steps[..n]), steps[n])
  }

  /** With an honest facilitator the budget never counts less than the chain moved. */
  lemma {:induction false} SpendIsNotUnderstated(ceilings: Ceilings, steps: seq<Step>, asset: string)
    requires HonestRun(ceilings, steps)
    ensures var s := After(ceilings, steps); Sum(s.moved, asset) <= Get(s.book.spent, asset)
  {
    if steps != [] {
      var before, step := steps[..|steps| - 1], steps[|steps| - 1];
      forall n | 0 <= n < |before| ensures Honest(After(ceilings, before[..n]), before[n]) {
        assert before[..n] == steps[..n];
      }
      SpendIsNotUnderstated(ceilings, before, asset);
      assert Honest(After(ceilings, before), step);
      HonestStep(ceilings, After(ceilings, before), step, asset);
    }
  }

  lemma HonestStep(ceilings: Ceilings, s: Session, step: Step, asset: string)
    requires Honest(s, step) && Sum(s.moved, asset) <= Get(s.book.spent, asset)
    ensures var s' := Apply(ceilings, s, step); Sum(s'.moved, asset) <= Get(s'.book.spent, asset)
  {
    if step.Confirm? && step.i < |s.open| {
      SumSnoc(s.moved, Line(s.open[step.i].asset, step.moved), asset);
      ReceiptIsSound(s.open[step.i].amount, step.reported);
    }
  }

  /** What `resolveSpendDebit` knows about a payment. */
  datatype SpendOutcome = Settled(receipt: Receipt) | Indeterminate | NotSpent

  function ResolveSpendDebit(outcome: SpendOutcome, ceiling: int): int {
    match outcome
    case Settled(receipt) => receipt.settledAmount
    case Indeterminate => ceiling
    case NotSpent => 0
  }

  /** The outcome fits what the chain did: a receipt built from an honest report, or evidence that
      nothing moved. */
  ghost predicate Truthful(outcome: SpendOutcome, ceiling: nat, moved: nat) {
    match outcome
    case Settled(receipt) =>
      exists reported :: BuildReceipt(ceiling, reported) == Success(receipt)
                         && forall n: nat :: Says(reported, n) ==> n == moved
    case Indeterminate => true
    case NotSpent => moved == 0
  }

  /** The debit lies between what moved and what was authorized; it is exact unless the receipt fell
      back to the ceiling, or nothing is known. */
  lemma DebitIsSafe(outcome: SpendOutcome, ceiling: nat, moved: nat)
    requires moved <= ceiling && Truthful(outcome, ceiling, moved)
    ensures moved <= ResolveSpendDebit(outcome, ceiling) <= ceiling
    ensures ResolveSpendDebit(outcome, ceiling) == moved
       <==> moved == ceiling || outcome.NotSpent? || (outcome.Settled? && outcome.receipt.source == Facilitator)
  {
    if outcome.Settled? {
      var reported :| BuildReceipt(ceiling, reported) == Success(outcome.receipt)
                      && forall n: nat :: Says(reported, n) ==> n == moved;
      ReceiptIsSound(ceiling, reported);
    }
  }
}
