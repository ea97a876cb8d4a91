/** Wallet creation with an idempotency key (contrib/idempotency-key/idempotency-key.ts): the retry
    loop of the client, and the protocol it runs with a backend that honours the stated contract over
    a network that loses or delays requests and responses. */
module IdempotentSubmission {
  import opened Prelude

  const MAX_ATTEMPTS := 3

  datatype Outcome =
    | Created(session: string)
    | DefiniteFailure(attempt: nat)
    | AmbiguousFailure(key: string, attempt: nat)

  // ----- The retry loop -----

  /** How one attempt ends for the client. */
  datatype Fate = Answered(session: string) | NeverReached | Unknown

  datatype Progress = Trying(attempt: nat) | Over(attempt: nat, outcome: Outcome)

  /** What follows attempt `n`: only after a failure in doubt is there another one. */
  function AfterAttempt(key: string, n: nat, fate: Fate): Progress {
    match fate
    case Answered(session) => Over(n, Created(session))
    case NeverReached => Over(n, DefiniteFailure(n))
    case Unknown => if n >= MAX_ATTEMPTS then Over(n, AmbiguousFailure(key, n)) else Trying(n + 1)
  }

  /** Where a submission is after attempts that ended so. */
  function AfterAttempts(key: string, fates: seq<Fate>): Progress {
    if fates == [] then Trying(1)
    else match AfterAttempts(key, fates[..|fates| - 1])
      case Trying(n) => AfterAttempt(key, n, fates[|fates| - 1])
      case Over(n, outcome) => Over(n, outcome)
  }

  /** `submitWalletCreation`: `fate(n)` is the end of attempt `n`, and `sent` the key of each attempt. */
  method Submit(key: string, fate: nat -> Fate) returns (outcome: Outcome, sent: seq<string>)
    ensures 1 <= |sent| <= MAX_ATTEMPTS && forall k <- sent :: k == key
    ensures AfterAttempts(key, Fates(fate, |sent|)) == Over(|sent|, outcome)
    // every attempt but the last ended in doubt, and the last one decides
    ensures forall n :: 1 <= n < |sent| ==> fate(n) == Unknown
    ensures match fate(|sent|)
      case Answered(session) => outcome == Created(session)
      case NeverReached => outcome == DefiniteFailure(|sent|)
      case Unknown => |sent| == MAX_ATTEMPTS && outcome == AmbiguousFailure(key, MAX_ATTEMPTS)
  {
    sent := [];
    var attempt := 1;
    while attempt <= MAX_ATTEMPTS
      invariant 1 <= attempt <= MAX_ATTEMPTS && |sent| == attempt - 1
      invariant AfterAttempts(key, Fates(fate, attempt - 1)) == Trying(attempt)
      invariant forall k <- sent :: k == key
      invariant forall n :: 1 <= n < attempt ==> fate(n) == Unknown
    {
      sent := sent + [key];
      assert Fates(fate, attempt)[..attempt - 1] == Fates(fate, attempt - 1);
      match fate(attempt) {
        case Answered(session) => return Created(session), sent;
        case NeverReached => return DefiniteFailure(attempt), sent;
        case Unknown =>
          if attempt == MAX_ATTEMPTS {
            return AmbiguousFailure(key, attempt), sent;
          }
      }
      attempt := attempt + 1;
    }
  }

  function Fates(fate: nat -> Fate, n: nat): seq<Fate> { seq(n, i requires 0 <= i < n => fate(i + 1)) }

  // ----- The protocol -----

  datatype Phase = Ready | Waiting | Ended(outcome: Outcome)

  /** The client's side of one logical submission: the attempt it is at. */
  datatype Submission = Submission(attempt: nat, phase: Phase)

  datatype Request = Request(key: string, attempt: nat)

  /** `None` is an error answer: 409 while in flight, or the failure of the original. */
  datatype Reply = Reply(key: string, attempt: nat, session: Option<string>)

  datatype Entry = Processing(attempt: nat) | Stored(session: string)

  datatype Wallet = Wallet(key: string, session: string)

  datatype State = State(submissions: map<string, Submission>, network: multiset<Request>,
                         backend: map<string, Entry>, replies: multiset<Reply>, wallets: seq<Wallet>)

  datatype Step =
    | Start(key: string)                              // a submission, under a fresh key
    | Send(key: string)
    | Refuse(key: string)                             // name not found, connection refused: nothing was sent
    | Lose(request: Request)
    | Deliver(request: Request)                       // however late
    | Finish(key: string, session: Option<string>)    // the backend is done: a wallet, or a failure
    | Receive(reply: Reply, looksDefinite: bool)      // an error's text may read like a refusal
    | TimeOut(key: string)

  const INITIAL := State(map[], multiset{}, map[], multiset{}, [])

  predicate Has(s: State, key: string, phase: Phase) { key in s.submissions && s.submissions[key].phase == phase }

  /** The submission after its attempt ended so. */
  function Follow(key: string, sub: Submission, fate: Fate): Submission {
    match AfterAttempt(key, sub.attempt, fate)
    case Trying(n) => Submission(n, Ready)
    case Over(_, outcome) => sub.(phase := Ended(outcome))
  }

  /** How an answer ends an attempt: an error counts as in doubt unless its text reads like a refusal. */
  function FateOf(reply: Reply, looksDefinite: bool): Fate {
    if reply.session.Some? then Answered(reply.session.value) else if looksDefinite then NeverReached else Unknown
  }

  predicate Enabled(s: State, step: Step) {
    match step
    case Start(key) => key !in s.submissions
    case Send(key) => Has(s, key, Ready)
    case Refuse(key) => Has(s, key, Ready)
    case Lose(request) => request in s.network
    case Deliver(request) => request in s.network
    case Finish(key, _) => key in s.backend && s.backend[key].Processing?
    case Receive(reply, _) => reply in s.replies && Has(s, reply.key, Waiting)
      && s.submissions[reply.key].attempt == reply.attempt
    case TimeOut(key) => Has(s, key, Waiting)
  }

  function Put(s: State, key: string, sub: Submission): State { s.(submissions := s.submissions[key := sub]) }

  /** One step; a step that is not enabled changes nothing. */
  function Apply(s: State, step: Step): State {
    if !Enabled(s, step) then s
    else match step
      case Start(key) => Put(s, key, Submission(1, Ready))
      case Send(key) =>
        Put(s, key, s.submissions[key].(phase := Waiting))
        .(network := s.network + multiset{Request(key, s.submissions[key].attempt)})
      case Refuse(key) => Put(s, key, Follow(key, s.submissions[key], NeverReached))
      case Lose(request) => s.(network := s.network - multiset{request})
      case Deliver(request) =>
        var taken := s.(network := s.network - multiset{request});
        if request.key !in s.backend then
          taken.(backend := s.backend[request.key := Processing(request.attempt)])
        else
          var answer := if s.backend[request.key].Stored? then Some(s.backend[request.key].session) else None;
          taken.(replies := s.replies + multiset{Reply(request.key, request.attempt, answer)})
      case Finish(key, session) =>
        var answered := s.(replies := s.replies + multiset{Reply(key, s.backend[key].attempt, session)});
        if session.None? then answered.(backend := s.backend - {key})
        else answered.(backend := s.backend[key := Stored(session.value)],
                       wallets := s.wallets + [Wallet(key, session.value)])
      case Receive(reply, looksDefinite) =>
        Put(s, reply.key, Follow(reply.key, s.submissions[reply.key], FateOf(reply, looksDefinite)))
        .(replies := s.replies - multiset{reply})
      case TimeOut(key) => Put(s, key, Follow(key, s.submissions[key], Unknown))
  }

  function After(steps: seq<Step>): State {
    if steps == [] then INITIAL else Apply(After(steps[..|steps| - 1]), steps[|steps| - 1])
  }

  /** An answer that arrives in time ends the attempt: with the session, with a definite failure, or with
      another attempt under the same key, up to the third. */
  lemma AnswerMeans(s: State, reply: Reply, looksDefinite: bool)
    requires reply in s.replies && reply.key in s.submissions
    requires s.submissions[reply.key] == Submission(reply.attempt, Waiting)
    ensures var s' := Apply(s, Receive(reply, looksDefinite));
      && s'.replies == s.replies - multiset{reply} && s'.network == s.network
      && s'.submissions == s.submissions[reply.key :=
           match reply.session
           case Some(session) => Submission(reply.attempt, Ended(Created(session)))
           case None =>
             if looksDefinite then Submission(reply.attempt, Ended(DefiniteFailure(reply.attempt)))
             else if reply.attempt < 3 then Submission(reply.attempt + 1, Ready)
             else Submission(reply.attempt, Ended(AmbiguousFailure(reply.key, reply.attempt)))]
  {
  }

  /** An answer to an earlier attempt, or after the end, changes nothing. */
  lemma LateAnswerIsIgnored(s: State, reply: Reply, looksDefinite: bool)
    requires reply.key in s.submissions && s.submissions[reply.key] != Submission(reply.attempt, Waiting)
    ensures Apply(s, Receive(reply, looksDefinite)) == s
  {
  }

  /** The network may lose any request that is under way, or bring it to the backend: the first under its key
      is processed, and any other is answered with the session stored, or with an error while there is none. */
  lemma NetworkMeans(s: State, request: Request)
    requires request in s.network
    ensures Apply(s, Lose(request)) == s.(network := s.network - multiset{request})
    ensures var s' := Apply(s, Deliver(request));
      && s'.network == s.network - multiset{request} && s'.wallets == s.wallets && s'.submissions == s.submissions
      && (request.key !in s.backend ==>
            s'.backend == s.backend[request.key := Processing(request.attempt)] && s'.replies == s.replies)
      && (request.key in s.backend ==>
            && s'.backend == s.backend
            && s'.replies == s.replies + multiset{Reply(request.key, request.attempt,
                 match s.backend[request.key] case Stored(session) => Some(session) case Processing(_) => None)})
  {
  }

  // ----- The client of the protocol runs the loop -----

  /** How a step ends an attempt of the submission, if it does. */
  function FateIn(s: State, step: Step, key: string): seq<Fate> {
    if !Enabled(s, step) then []
    else match step
      case Refuse(k) => if k == key then [NeverReached] else []
      case TimeOut(k) => if k == key then [Unknown] else []
      case Receive(reply, looksDefinite) => if reply.key == key then [FateOf(reply, looksDefinite)] else []
      case _ => []
  }

  /** How the attempts of the submission ended, in order. */
  function FatesOf(steps: seq<Step>, key: string): seq<Fate> {
    if steps == [] then []
    else
      var before := steps[..|steps| - 1];
      FatesOf(before, key) + FateIn(After(before), steps[|steps| - 1], key)
  }

  function ProgressOf(sub: Submission): Progress {
    if sub.phase.Ended? then Over(sub.attempt, sub.phase.outcome) else Trying(sub.attempt)
  }

  /** In every run each submission is where the retry loop is after its attempts ended as they did. */
  lemma {:induction false} ClientRunsTheLoop(steps: seq<Step>, key: string)
    ensures key in After(steps).submissions ==>
      ProgressOf(After(steps).submissions[key]) == AfterAttempts(key, FatesOf(steps, key))
    ensures key !in After(steps).submissions ==> FatesOf(steps, key) == []
  {
    if steps != [] {
      var before, step := steps[..|steps| - 1], steps[|steps| - 1];
      ClientRunsTheLoop(before, key);
      var s, fates := After(before), FatesOf(before, key);
      StepFollows(s, step, key);
      if FateIn(s, step, key) == [] {
        assert fates + [] == fates;
      } else {
        assert (fates + FateIn(s, step, key))[..|fates|] == fates;
      }
    }
  }

  lemma StepFollows(s: State, step: Step, key: string)
    ensures var s', fates := Apply(s, step), FateIn(s, step, key);
      && |fates| <= 1
      && (fates == [] && key in s.submissions ==>
            key in s'.submissions && ProgressOf(s'.submissions[key]) == ProgressOf(s.submissions[key]))
      && (fates == [] && key !in s.submissions && key in s'.submissions ==>
            ProgressOf(s'.submissions[key]) == Trying(1))
      && (fates != [] ==>
            && key in s.submissions && key in s'.submissions && ProgressOf(s.submissions[key]).Trying?
            && ProgressOf(s'.submissions[key]) == AfterAttempt(key, s.submissions[key].attempt, fates[0]))
  {
  }

  // ----- The invariant, key by key -----

  function WalletsOf(wallets: seq<Wallet>, key: string): nat {
    if wallets == [] then 0
    else WalletsOf(wallets[..|wallets| - 1], key) + if wallets[|wallets| - 1].key == key then 1 else 0
  }

  predicate IsStored(s: State, key: string) { key in s.backend && s.backend[key].Stored? }

  predicate Attempted(s: State, key: string, attempt: nat) {
    key in s.submissions && 1 <= attempt <= s.submissions[key].attempt
  }

  /** Everything a first attempt can have turned into. */
  function FirstAttemptLoad(s: State, key: string): nat {
    s.network[Request(key, 1)] + s.replies[Reply(key, 1, None)] + if key in s.backend then 1 else 0
  }

  ghost predicate KeyInv(s: State, key: string) {
    && WalletsOf(s.wallets, key) == (if IsStored(s, key) then 1 else 0)
    && (IsStored(s, key) ==> Wallet(key, s.backend[key].session) in s.wallets)
    && (forall r <- s.network :: r.key == key ==> Attempted(s, key, r.attempt))
    && (forall r <- s.replies :: r.key == key ==>
          && Attempted(s, key, r.attempt)
          && (r.session.Some? ==> key in s.backend && s.backend[key] == Stored(r.session.value)))
    && (key in s.backend ==>
          key in s.submissions && (s.backend[key].Processing? ==> Attempted(s, key, s.backend[key].attempt)))
    && (key in s.submissions ==> SubmissionInv(s, key, s.submissions[key]))
  }

  predicate SubmissionInv(s: State, key: string, sub: Submission) {
    && 1 <= sub.attempt <= MAX_ATTEMPTS
    && (sub.phase.Ended? && sub.phase.outcome.Created? ==>
          key in s.backend && s.backend[key] == Stored(sub.phase.outcome.session))
    && (sub.phase.Ended? && sub.phase.outcome.DefiniteFailure? ==> sub.phase.outcome.attempt == sub.attempt)
    && (sub.attempt == 1 ==>
          FirstAttemptLoad(s, key) <= if sub.phase == Ready || sub.phase == Ended(DefiniteFailure(1)) then 0 else 1)
  }

  lemma {:induction false} InvariantHolds(steps: seq<Step>, key: string)
    ensures KeyInv(After(steps), key)
  {
    if steps != [] {
      InvariantHolds(steps[..|steps| - 1], key);
      InvariantStep(After(steps[..|steps| - 1]), steps[|steps| - 1], key);
    }
  }

  lemma {:induction false} InvariantStep(s: State, step: Step, key: string)
    requires KeyInv(s, key)
    ensures KeyInv(Apply(s, step), key)
  {
    if Enabled(s, step) {
      if KeyOf(step) != key {
        OtherKeysStep(s, step, key);
        SameForKeepsInv(s, Apply(s, step), key);
      } else {
        match step
        case Start(_) => StartStep(s, key);
        case Send(_) => SendStep(s, key);
        case Refuse(_) => RefuseStep(s, key);
        case Lose(request) => LoseStep(s, request);
        case Deliver(request) => DeliverStep(s, request);
        case Finish(_, session) => FinishStep(s, key, session);
        case Receive(reply, looksDefinite) => ReceiveStep(s, reply, looksDefinite);
        case TimeOut(_) => TimeOutStep(s, key);
      }
    }
  }

  function KeyOf(step: Step): string {
    match step
    case Lose(request) => request.key
    case Deliver(request) => request.key
    case Receive(reply, _) => reply.key
    case _ => step.key
  }

  /** The states coincide as far as submissions under `key` go. */
  ghost predicate SameFor(s: State, s': State, key: string) {
    && WalletsOf(s.wallets, key) == WalletsOf(s'.wallets, key)
    && (forall w: Wallet :: w.key == key && w in s.wallets ==> w in s'.wallets)
    && (forall r: Request :: r.key == key ==> s.network[r] == s'.network[r])
    && (forall r: Reply :: r.key == key ==> s.replies[r] == s'.replies[r])
    && (key in s.backend <==> key in s'.backend) && (key in s.backend ==> s.backend[key] == s'.backend[key])
    && (key in s.submissions <==> key in s'.submissions)
    && (key in s.submissions ==> s.submissions[key] == s'.submissions[key])
  }

  lemma OtherKeysStep(s: State, step: Step, key: string)
    requires Enabled(s, step) && KeyOf(step) != key
    ensures SameFor(s, Apply(s, step), key)
  {
    match step
    case Deliver(request) => OtherDeliverStep(s, request, key);
    case Finish(k, session) => OtherFinishStep(s, k, session, key);
    case Receive(reply, looksDefinite) => OtherReceiveStep(s, reply, looksDefinite, key);
    case _ =>
  }

  lemma OtherDeliverStep(s: State, request: Request, key: string)
    requires request in s.network && request.key != key
    ensures SameFor(s, Apply(s, Deliver(request)), key)
  {
  }

  lemma OtherFinishStep(s: State, k: string, session: Option<string>, key: string)
    requires Enabled(s, Finish(k, session)) && k != key
    ensures SameFor(s, Apply(s, Finish(k, session)), key)
  {
    if session.Some? {
      assert (s.wallets + [Wallet(k, session.value)])[..|s.wallets|] == s.wallets;
    }
  }

  lemma OtherReceiveStep(s: State, reply: Reply, looksDefinite: bool, key: string)
    requires Enabled(s, Receive(reply, looksDefinite)) && reply.key != key
    ensures SameFor(s, Apply(s, Receive(reply, looksDefinite)), key)
  {
  }

  lemma SameForKeepsInv(s: State, s': State, key: string)
    requires KeyInv(s, key) && SameFor(s, s', key)
    ensures KeyInv(s', key)
  {
    forall r <- s'.network | r.key == key ensures Attempted(s', key, r.attempt) {
      assert r in s.network;
    }
    forall r <- s'.replies | r.key == key
      ensures Attempted(s', key, r.attempt)
        && (r.session.Some? ==> key in s'.backend && s'.backend[key] == Stored(r.session.value))
    {
      assert r in s.replies;
    }
  }

  lemma StartStep(s: State, key: string)
    requires KeyInv(s, key) && Enabled(s, Start(key))
    ensures KeyInv(Apply(s, Start(key)), key)
  {
  }

  lemma SendStep(s: State, key: string)
    requires KeyInv(s, key) && Enabled(s, Send(key))
    ensures KeyInv(Apply(s, Send(key)), key)
  {
  }

  lemma RefuseStep(s: State, key: string)
    requires KeyInv(s, key) && Enabled(s, Refuse(key))
    ensures KeyInv(Apply(s, Refuse(key)), key)
  {
  }

  lemma LoseStep(s: State, request: Request)
    requires KeyInv(s, request.key) && Enabled(s, Lose(request))
    ensures KeyInv(Apply(s, Lose(request)), request.key)
  {
  }

  lemma TimeOutStep(s: State, key: string)
    requires KeyInv(s, key) && Enabled(s, TimeOut(key))
    ensures KeyInv(Apply(s, TimeOut(key)), key)
  {
  }

  lemma DeliverStep(s: State, request: Request)
    requires KeyInv(s, request.key) && request in s.network
    ensures KeyInv(Apply(s, Deliver(request)), request.key)
  {
    if request.key in s.backend {
      DuplicateStep(s, request);
    } else {
      FirstDeliveryStep(s, request);
    }
  }

  lemma FirstDeliveryStep(s: State, request: Request)
    requires KeyInv(s, request.key) && request in s.network && request.key !in s.backend
    ensures KeyInv(Apply(s, Deliver(request)), request.key)
  {
    assert Attempted(s, request.key, request.attempt);
  }

  lemma DuplicateStep(s: State, request: Request)
    requires KeyInv(s, request.key) && request in s.network && request.key in s.backend
    ensures KeyInv(Apply(s, Deliver(request)), request.key)
  {
    assert Attempted(s, request.key, request.attempt);
  }

  lemma FinishStep(s: State, key: string, session: Option<string>)
    requires KeyInv(s, key) && Enabled(s, Finish(key, session))
    ensures KeyInv(Apply(s, Finish(key, session)), key)
  {
    if session.Some? {
      assert (s.wallets + [Wallet(key, session.value)])[..|s.wallets|] == s.wallets;
    }
  }

  lemma ReceiveStep(s: State, reply: Reply, looksDefinite: bool)
    requires KeyInv(s, reply.key) && Enabled(s, Receive(reply, looksDefinite))
    ensures KeyInv(Apply(s, Receive(reply, looksDefinite)), reply.key)
  {
  }

  // ----- Theorems over every run -----

  /** Every submission creates at most one wallet, makes at most three attempts, and a session it
      returns is the one stored for its key and belongs to its one wallet. */
  lemma SubmissionIsIdempotent(steps: seq<Step>, key: string)
    ensures var s := After(steps);
      && WalletsOf(s.wallets, key) <= 1
      && (key in s.submissions ==> 1 <= s.submissions[key].attempt <= MAX_ATTEMPTS)
      && (forall session :: Has(s, key, Ended(Created(session))) ==>
            key in s.backend && s.backend[key] == Stored(session) && Wallet(key, session) in s.wallets)
  {
    InvariantHolds(steps, key);
  }

  /** The submission was reported as definitely failed, yet its wallet exists. */
  ghost predicate FalseAlarm(steps: seq<Step>, key: string, attempt: nat) {
    Has(After(steps), key, Ended(DefiniteFailure(attempt))) && WalletsOf(After(steps).wallets, key) > 0
  }

  /** The advice of `DefiniteNetworkError`, to retry with a fresh key, is safe exactly for a failure
      of the first attempt: a later refusal says nothing about the attempts before it. */
  lemma FreshKeyIsSafeIffFirstAttempt(attempt: nat)
    requires 1 <= attempt <= MAX_ATTEMPTS
    ensures (forall steps, key :: !FalseAlarm(steps, key, attempt)) <==> attempt == 1
  {
    if attempt == 1 {
      forall steps, key ensures !FalseAlarm(steps, key, attempt) {
        FirstRefusalIsTrue(steps, key);
      }
    } else {
      var steps := LateRefusal(attempt);
      assert FalseAlarm(steps, "k", attempt);
    }
  }

  lemma FirstRefusalIsTrue(steps: seq<Step>, key: string)
    ensures !FalseAlarm(steps, key, 1)
  {
    InvariantHolds(steps, key);
  }

  lemma LateRefusal(attempt: nat) returns (steps: seq<Step>)
    requires 2 <= attempt <= MAX_ATTEMPTS
    ensures FalseAlarm(steps, "k", attempt)
  {
    steps := AnswerLost();
    var s := After(steps);
    if attempt == 3 {
      s := Extend(steps, Send("k"));
      steps := steps + [Send("k")];
      s := Extend(steps, TimeOut("k"));
      steps := steps + [TimeOut("k")];
    }
    assert s.submissions["k"] == Submission(attempt, Ready);
    s := Extend(steps, Refuse("k"));
    steps := steps + [Refuse("k")];
  }

  lemma Extend(steps: seq<Step>, step: Step) returns (s: State)
    ensures s == After(steps + [step]) == Apply(After(steps), step)
  {
    assert (steps + [step])[..|steps|] == steps;
    s := After(steps + [step]);
  }

  /** The backend creates the wallet, and the answer is lost. */
  lemma AnswerLost() returns (steps: seq<Step>)
    ensures var s := After(steps);
      s.submissions == map["k" := Submission(2, Ready)] && s.backend == map["k" := Stored("s")]
        && WalletsOf(s.wallets, "k") == 1
  {
    steps := Delivered();
    var s := Extend(steps, Finish("k", Some("s")));
    steps := steps + [Finish("k", Some("s"))];
    assert s.wallets == [Wallet("k", "s")] && s.wallets[..0] == [];
    s := Extend(steps, TimeOut("k"));
    steps := steps + [TimeOut("k")];
  }

  lemma Delivered() returns (steps: seq<Step>)
    ensures var s := After(steps);
      s.submissions == map["k" := Submission(1, Waiting)] && s.backend == map["k" := Processing(1)] && s.wallets == []
  {
    steps := Sent();
    var s := Extend(steps, Deliver(Request("k", 1)));
    steps := steps + [Deliver(Request("k", 1))];
  }

  lemma Sent() returns (steps: seq<Step>)
    ensures After(steps)
         == State(map["k" := Submission(1, Waiting)], multiset{Request("k", 1)}, map[], multiset{}, [])
  {
    steps := [];
    var s := Extend(steps, Start("k"));
    assert s == State(map["k" := Submission(1, Ready)], multiset{}, map[], multiset{}, []);
    steps := steps + [Start("k")];
    s := Extend(steps, Send("k"));
    steps := steps + [Send("k")];
  }
}
