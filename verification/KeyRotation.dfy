/** Rotation of the agent session key on re-authentication (src/passkeykit-connector.ts).

    `rotateSessionKey` reads the active key, awaits a mint, overwrites the active key and awaits the
    revocation of the key it read.  Several reconnects may be in flight at once. */
module KeyRotation {
  import opened Prelude

  datatype Phase = Minting | Revoking

  /** A suspended rotation, with the key it found active when it started. */
  datatype Rotation = Rotation(previous: Option<string>, phase: Phase)

  /** The variable of the connector, the suspended rotations, and what has happened to the keys of
      the wallet: `failed` are those whose revocation failed and had no
      effect, `orphans` those left by mints that failed after all. */
  datatype State = State(active: Option<string>, inFlight: seq<Rotation>,
                         minted: set<string>, revoked: set<string>, failed: set<string>,
                         orphans: set<string>)

  datatype Step =
    | Begin
    | Mint(i: nat, key: string)             // the mint of rotation `i` succeeds
    | MintFails(i: nat, left: Option<string>)    // it fails, perhaps after having put a key on the wallet
    | Revoke(i: nat)                        // the revocation of rotation `i` succeeds
    | RevokeFails(i: nat, effect: bool)     // it fails, perhaps after having taken effect

  const INITIAL := State(None, [], {}, {}, {}, {})

  /** There is something to invalidate (`undefined` and the empty string are falsy). */
  predicate HasKey(previous: Option<string>) { previous.Some? && previous.value != "" }

  predicate At(s: State, i: nat, phase: Phase) { i < |s.inFlight| && s.inFlight[i].phase == phase }

  /** Minted keys are fresh. */
  predicate Enabled(s: State, step: Step) {
    match step
    case Begin => true
    case Mint(i, key) => At(s, i, Minting) && key !in s.minted + s.orphans
    case MintFails(i, key) => At(s, i, Minting) && (key.Some? ==> key.value !in s.minted + s.orphans)
    case Revoke(i) => At(s, i, Revoking) && s.inFlight[i].previous.Some?
    case RevokeFails(i, _) => At(s, i, Revoking) && s.inFlight[i].previous.Some?
  }

  /** One step; a step that is not enabled changes nothing. */
  function Apply(s: State, step: Step): State {
    if !Enabled(s, step) then s
    else match step
      case Begin => s.(inFlight := s.inFlight + [Rotation(s.active, Minting)])
      case Mint(i, key) =>
        s.(active := Some(key), minted := s.minted + {key},
           inFlight := if HasKey(s.inFlight[i].previous) then s.inFlight[i := s.inFlight[i].(phase := Revoking)]
                       else Without(s.inFlight, i))
      case MintFails(i, key) =>
        s.(orphans := if key.Some? then s.orphans + {key.value} else s.orphans, inFlight := Without(s.inFlight, i))
      case Revoke(i) =>
        s.(revoked := s.revoked + {s.inFlight[i].previous.value}, inFlight := Without(s.inFlight, i))
      case RevokeFails(i, effect) =>
        var key := s.inFlight[i].previous.value;
        s.(revoked := if effect then s.revoked + {key} else s.revoked,
           failed := if effect then s.failed else s.failed + {key}, inFlight := Without(s.inFlight, i))
  }

  function After(steps: seq<Step>): State {
    if steps == [] then INITIAL else Apply(After(steps[..|steps| - 1]), steps[|steps| - 1])
  }

  /** `rotateSessionKey`, cut at its awaits. */
  class Connector {
    var activeSessionKey: Option<string>
    var inFlight: seq<Rotation>
    ghost var minted: set<string>
    ghost var revoked: set<string>
    ghost var failed: set<string>
    ghost var orphans: set<string>

    ghost function Contents(): State
      reads this
    {
      State(activeSessionKey, inFlight, minted, revoked, failed, orphans)
    }

    constructor ()
      ensures Contents() == INITIAL
    {
      activeSessionKey, inFlight := None, [];
      minted, revoked, failed, orphans := {}, {}, {}, {};
    }

    method BeginRotation()
      modifies this
      ensures Contents() == Apply(old(Contents()), Begin)
    {
      var previous := activeSessionKey;
      inFlight := inFlight + [Rotation(previous, Minting)];
    }

    /** The mint has settled; `key` is what it returns or, if it fails, a key that it may have put on the
        wallet all the same. */
    method MintSettled(i: nat, ok: bool, key: Option<string>)
      requires At(Contents(), i, Minting) && (ok ==> key.Some?) && (key.Some? ==> key.value !in minted + orphans)
      modifies this
      ensures Contents() == Apply(old(Contents()), if ok then Mint(i, key.value) else MintFails(i, key))
    {
      var previous := inFlight[i].previous;
      if !ok {
        inFlight := Without(inFlight, i);
        orphans := if key.Some? then orphans + {key.value} else orphans;
        return;
      }
      activeSessionKey := key;
      minted := minted + {key.value};
      if previous.None? || previous.value == "" {
        inFlight := Without(inFlight, i);
      } else {
        inFlight := inFlight[i := inFlight[i].(phase := Revoking)];
      }
    }

    method RevokeSettled(i: nat, ok: bool, effect: bool)
      requires At(Contents(), i, Revoking) && inFlight[i].previous.Some? && (ok ==> effect)
      modifies this
      ensures Contents() == Apply(old(Contents()), if ok then Revoke(i) else RevokeFails(i, effect))
    {
      ghost var key := inFlight[i].previous.value;
      revoked := if effect then revoked + {key} else revoked;
      failed := if effect then failed else failed + {key};
      inFlight := Without(inFlight, i);
    }
  }

  // ----- The active key is never revoked -----

  function ActiveKeys(s: State): set<string> { if s.active.Some? then {s.active.value} else {} }

  /** A rotation holds a minted key, and one that is revoking holds another key than the active. */
  predicate RotationSafe(s: State, r: Rotation) {
    && (r.previous.Some? ==> r.previous.value in s.minted)
    && (r.phase == Revoking ==> HasKey(r.previous) && r.previous != s.active)
  }

  ghost predicate Safe(s: State) {
    && ActiveKeys(s) <= s.minted && ActiveKeys(s) !! s.revoked
    && s.revoked <= s.minted
    && forall r <- s.inFlight :: RotationSafe(s, r)
  }

  lemma SafeStep(s: State, step: Step)
    requires Safe(s)
    ensures Safe(Apply(s, step))
  {
    if Enabled(s, step) && !step.Begin? {
      assert s.inFlight[step.i] in s.inFlight;
      forall r <- Apply(s, step).inFlight ensures RotationSafe(Apply(s, step), r) {
        assert r in s.inFlight || r.(phase := Minting) in s.inFlight;
      }
    }
  }

  /** In every interleaving of reconnects, with mints and revocations failing at will, the active
      key has not been revoked, and no revocation under way is aimed at it. */
  lemma {:induction false} ActiveKeyIsNeverRevoked(steps: seq<Step>)
    ensures var s := After(steps);
      && Safe(s) && (s.active.Some? ==> s.active.value !in s.revoked)
      && forall r <- s.inFlight :: r.phase == Revoking ==> r.previous != s.active
  {
    if steps != [] {
      ActiveKeyIsNeverRevoked(steps[..|steps| - 1]);
      SafeStep(After(steps[..|steps| - 1]), steps[|steps| - 1]);
    }
  }

  /** The keys of the wallet that rotation has made and that are still valid. */
  function ValidKeys(s: State): set<string> { (s.minted - s.revoked) + s.orphans }

  // ----- One reconnect at a time: no key is left behind -----

  ghost predicate Sequential(steps: seq<Step>) {
    forall n :: 0 <= n <= |steps| ==> |After(steps[..n]).inFlight| <= 1
  }

  /** Keys about to be revoked. */
  function Pending(s: State): set<string> {
    set r | r in s.inFlight && r.phase == Revoking && r.previous.Some? :: r.previous.value
  }

  /** The empty key, once minted, is never revoked: it reads as no key. */
  function EmptyKey(s: State): set<string> { s.minted * {""} }

  ghost predicate Accounted(s: State) {
    && s.minted - s.revoked == ActiveKeys(s) + s.failed + Pending(s) + EmptyKey(s)
    && ActiveKeys(s) !! s.failed && Pending(s) !! s.failed && "" !in s.failed
    && (forall r <- s.inFlight :: r.phase == Minting ==> r.previous == s.active)
  }

  /** In every run without overlapping rotations, the keys that are still valid are exactly the active one,
      the one being revoked, those whose revocation failed, and those of failed mints (and the empty key). */
  lemma {:induction false} ValidKeysAreAccountedFor(steps: seq<Step>)
    requires Sequential(steps)
    ensures var s := After(steps); ValidKeys(s) == ActiveKeys(s) + s.failed + Pending(s) + EmptyKey(s) + s.orphans
    ensures Accounted(After(steps))
  {
    if steps != [] {
      var before := steps[..|steps| - 1];
      assert forall n :: 0 <= n <= |before| ==> before[..n] == steps[..n];
      ValidKeysAreAccountedFor(before);
      ActiveKeyIsNeverRevoked(before);
      assert steps[..|steps|] == steps;
      AccountedStep(After(before), steps[|steps| - 1]);
    } else {
      assert Pending(INITIAL) == {};
    }
  }

  lemma {:induction false} AccountedStep(s: State, step: Step)
    requires Safe(s) && Accounted(s) && |s.inFlight| <= 1 && |Apply(s, step).inFlight| <= 1
    ensures Accounted(Apply(s, step))
  {
    var s' := Apply(s, step);
    if !Enabled(s, step) {
    } else if step.Begin? {
      assert s.inFlight == [] && s'.inFlight == [Rotation(s.active, Minting)];
    } else {
      var r := s.inFlight[step.i];
      assert s.inFlight == [r] && r in s.inFlight && Without(s.inFlight, step.i) == [];
      if step.Mint? {
        MintAccounted(s, step.i, step.key, r);
      } else if step.MintFails? {
        assert Pending(s) == {} && Pending(s') == {};
      } else {
        var key := r.previous.value;
        assert RotationSafe(s, r) && Pending(s) == {key} && Pending(s') == {};
        assert s'.minted - s'.revoked == s.minted - s.revoked - if key in s'.revoked then {key} else {};
        assert ActiveKeys(s') == ActiveKeys(s) && EmptyKey(s') == EmptyKey(s);
        assert key !in s.revoked && key !in ActiveKeys(s) + s.failed + EmptyKey(s);
      }
    }
  }

  lemma MintAccounted(s: State, i: nat, key: string, r: Rotation)
    requires Safe(s) && Accounted(s) && s.inFlight == [r] && i == 0 && Enabled(s, Mint(i, key))
    ensures Accounted(Apply(s, Mint(i, key)))
  {
    var s' := Apply(s, Mint(i, key));
    assert r in s.inFlight && r.previous == s.active;
    assert s.failed <= s.minted && key !in s.revoked;
    assert Pending(s) == {};
    assert s'.minted - s'.revoked == (s.minted - s.revoked) + {key};
    assert EmptyKey(s') == EmptyKey(s) + ({key} * {""});
    if HasKey(s.active) {
      var r' := r.(phase := Revoking);
      assert s'.inFlight == [r'] && r' in s'.inFlight;
      assert Pending(s') == {s.active.value};
    } else {
      assert s'.inFlight == [] && Pending(s') == {};
    }
  }

  // ----- Overlapping reconnects: when a key is left behind -----

  /** Every key that is still valid is the active one, is being revoked, or failed to be revoked. */
  ghost predicate Tracked(s: State) {
    ValidKeys(s) == ActiveKeys(s) + s.failed + Pending(s)
  }

  /** A mint replaces the key that its rotation found active at its start, and leaves none if it fails. */
  predicate UpToDate(s: State, step: Step) {
    Enabled(s, step) ==>
      && (step.Mint? ==> s.inFlight[step.i].previous == s.active)
      && (step.MintFails? ==> step.left.None?)
  }

  /** Public keys are not empty. */
  predicate MintsKeys(steps: seq<Step>) { forall step <- steps :: step.Mint? ==> step.key != "" }

  /** In every interleaving, with mints and revocations failing at will, no key is ever left behind if and
      only if every successful mint still finds active the key that its rotation started from, and no mint
      fails after having put a key on the wallet. */
  lemma KeysAreTrackedIffMintsUpToDate(steps: seq<Step>)
    requires MintsKeys(steps)
    ensures (forall n :: 0 <= n <= |steps| ==> Tracked(After(steps[..n])))
       <==> (forall n :: 0 <= n < |steps| ==> UpToDate(After(steps[..n]), steps[n]))
  {
    if forall n :: 0 <= n < |steps| ==> UpToDate(After(steps[..n]), steps[n]) {
      forall n | 0 <= n <= |steps| ensures Tracked(After(steps[..n])) {
        UpToDateIsOrderly(steps, n);
      }
    }
    if forall n :: 0 <= n <= |steps| ==> Tracked(After(steps[..n])) {
      forall n | 0 <= n < |steps| ensures UpToDate(After(steps[..n]), steps[n]) {
        TrackedIsUpToDate(steps, n);
      }
    }
  }

  /** Each key is being revoked at most once, and what failed stays apart. */
  ghost predicate Orderly(s: State) {
    && Safe(s) && Tracked(s)
    && "" !in s.minted && (s.active.None? ==> s.minted == {}) && s.orphans == {}
    && s.failed <= s.minted && ActiveKeys(s) !! s.failed && Pending(s) !! s.failed && Pending(s) !! s.revoked
    && (forall i, j ::
          0 <= i < j < |s.inFlight| && s.inFlight[i].phase == Revoking && s.inFlight[j].phase == Revoking ==>
          s.inFlight[i].previous != s.inFlight[j].previous)
  }

  lemma {:induction false} UpToDateIsOrderly(steps: seq<Step>, n: nat)
    requires n <= |steps| && MintsKeys(steps)
    requires forall k :: 0 <= k < n ==> UpToDate(After(steps[..k]), steps[k])
    ensures Orderly(After(steps[..n]))
  {
    if n == 0 {
      assert Pending(INITIAL) == {};
    } else {
      UpToDateIsOrderly(steps, n - 1);
      assert steps[..n][..n - 1] == steps[..n - 1] && steps[..n][n - 1] == steps[n - 1] && steps[n - 1] in steps;
      assert UpToDate(After(steps[..n - 1]), steps[n - 1]);
      OrderlyStep(After(steps[..n - 1]), steps[n - 1]);
    }
  }

  lemma {:induction false} TrackedIsUpToDate(steps: seq<Step>, n: nat)
    requires n < |steps| && MintsKeys(steps) && forall k :: 0 <= k <= |steps| ==> Tracked(After(steps[..k]))
    ensures UpToDate(After(steps[..n]), steps[n])
  {
    forall k | 0 <= k < n ensures UpToDate(After(steps[..k]), steps[k]) {
      TrackedIsUpToDate(steps, k);
    }
    UpToDateIsOrderly(steps, n);
    assert steps[..n + 1][..n] == steps[..n] && steps[..n + 1][n] == steps[n];
    assert Tracked(After(steps[..n + 1]));
    TrackedStepIsUpToDate(After(steps[..n]), steps[n]);
  }

  /** A mint over another key loses that key: it stays valid, and nobody will revoke it. */
  lemma StaleMintLosesKey(s: State, i: nat, key: string)
    requires Orderly(s) && Enabled(s, Mint(i, key)) && s.inFlight[i].previous != s.active
    ensures var s' := Apply(s, Mint(i, key));
      && s.active.Some? && s.active.value in ValidKeys(s')
      && s.active.value !in ActiveKeys(s') + s'.failed + Pending(s')
  {
    assert s.inFlight[i] in s.inFlight;
    PendingAfterMint(s, i, key);
    PendingIsNotActive(s);
  }

  lemma TrackedStepIsUpToDate(s: State, step: Step)
    requires Orderly(s) && Tracked(Apply(s, step))
    ensures UpToDate(s, step)
  {
    if Enabled(s, step) && step.Mint? {
      TrackedMintIsUpToDate(s, step.i, step.key);
    } else if Enabled(s, step) && step.MintFails? {
      OrphanIsNotTracked(s, step.i, step.left);
    }
  }

  lemma TrackedMintIsUpToDate(s: State, i: nat, key: string)
    requires Orderly(s) && Enabled(s, Mint(i, key))
    ensures Tracked(Apply(s, Mint(i, key))) ==> s.inFlight[i].previous == s.active
  {
    if s.inFlight[i].previous != s.active {
      StaleMintLosesKey(s, i, key);
    }
  }

  lemma OrphanIsNotTracked(s: State, i: nat, key: Option<string>)
    requires Orderly(s) && Enabled(s, MintFails(i, key))
    ensures Tracked(Apply(s, MintFails(i, key))) ==> key.None?
  {
    RemovedMembers(s.inFlight, i);
    PendingIsNotActive(s);
    assert Pending(Apply(s, MintFails(i, key))) == Pending(s);
  }

  lemma PendingIsNotActive(s: State)
    requires Safe(s)
    ensures Pending(s) !! ActiveKeys(s) && Pending(s) <= s.minted
  {
  }

  lemma PendingAfterMint(s: State, i: nat, key: string)
    requires Enabled(s, Mint(i, key))
    ensures Pending(Apply(s, Mint(i, key)))
         == Pending(s) + if HasKey(s.inFlight[i].previous) then {s.inFlight[i].previous.value} else {}
  {
    var s' := Apply(s, Mint(i, key));
    var r := s.inFlight[i];
    if HasKey(r.previous) {
      ReplacedMembers(s.inFlight, i, r.(phase := Revoking));
    } else {
      RemovedMembers(s.inFlight, i);
    }
    forall k ensures k in Pending(s')
        <==> k in Pending(s) || (HasKey(r.previous) && k == r.previous.value) {
    }
  }

  lemma ReplacedMembers(rs: seq<Rotation>, i: nat, r: Rotation)
    requires i < |rs|
    ensures r in rs[i := r]
    ensures forall x :: x in rs[i := r] ==> x == r || x in rs
    ensures forall x :: x in rs && x != rs[i] ==> x in rs[i := r]
  {
    assert rs[i := r][i] == r;
    forall x | x in rs && x != rs[i] ensures x in rs[i := r] {
      var j :| 0 <= j < |rs| && rs[j] == x;
      assert rs[i := r][j] == x;
    }
  }

  lemma RemovedMembers(rs: seq<Rotation>, i: nat)
    requires i < |rs|
    ensures forall x :: x in Without(rs, i) ==> x in rs
    ensures forall x :: x in rs && x != rs[i] ==> x in Without(rs, i)
  {
    forall x | x in rs && x != rs[i] ensures x in Without(rs, i) {
      var j :| 0 <= j < |rs| && rs[j] == x;
      assert Without(rs, i)[if j < i then j else j - 1] == x;
    }
  }

  lemma OrderlyStep(s: State, step: Step)
    requires Orderly(s) && UpToDate(s, step) && (step.Mint? ==> step.key != "")
    ensures Orderly(Apply(s, step))
  {
    if Enabled(s, step) {
      SafeStep(s, step);
      match step
      case Begin => OrderlyBegin(s);
      case Mint(i, key) => OrderlyMint(s, i, key);
      case MintFails(i, _) => OrderlyMintFails(s, i);
      case Revoke(i) => OrderlyRevoked(s, i, true);
      case RevokeFails(i, effect) => OrderlyRevoked(s, i, effect);
    }
  }

  lemma OrderlyBegin(s: State)
    requires Orderly(s) && Safe(Apply(s, Begin))
    ensures Orderly(Apply(s, Begin))
  {
    assert Pending(Apply(s, Begin)) == Pending(s);
  }

  lemma OrderlyMint(s: State, i: nat, key: string)
    requires Orderly(s) && Enabled(s, Mint(i, key)) && s.inFlight[i].previous == s.active && key != ""
    requires Safe(Apply(s, Mint(i, key)))
    ensures Orderly(Apply(s, Mint(i, key)))
  {
    PendingAfterMint(s, i, key);
    PendingIsNotActive(s);
    forall j | 0 <= j < |s.inFlight| && s.inFlight[j].phase == Revoking ensures s.inFlight[j].previous != s.active {
      assert s.inFlight[j] in s.inFlight;
    }
  }

  lemma OrderlyMintFails(s: State, i: nat)
    requires Orderly(s) && Enabled(s, MintFails(i, None)) && Safe(Apply(s, MintFails(i, None)))
    ensures Orderly(Apply(s, MintFails(i, None)))
  {
    RemovedMembers(s.inFlight, i);
    assert Pending(Apply(s, MintFails(i, None))) == Pending(s);
  }

  lemma OrderlyRevoked(s: State, i: nat, effect: bool)
    requires Orderly(s) && Enabled(s, Revoke(i)) && Safe(Apply(s, RevokeFails(i, effect)))
    ensures Orderly(Apply(s, RevokeFails(i, effect)))
    ensures effect ==> Apply(s, Revoke(i)) == Apply(s, RevokeFails(i, true))
  {
    var s' := Apply(s, RevokeFails(i, effect));
    var key := s.inFlight[i].previous.value;
    RevokingOnce(s, i);
    assert key in Pending(s) by { assert s.inFlight[i] in s.inFlight; }
    assert Pending(s') == Pending(s) - {key};
    PendingIsNotActive(s);
  }

  /** The key that a rotation is done revoking is no longer about to be revoked. */
  lemma RevokingOnce(s: State, i: nat)
    requires Orderly(s) && Enabled(s, Revoke(i))
    ensures var rest := s.(inFlight := Without(s.inFlight, i));
      Pending(rest) == Pending(s) - {s.inFlight[i].previous.value}
  {
    var rest := s.(inFlight := Without(s.inFlight, i));
    RemovedMembers(s.inFlight, i);
    forall r <- rest.inFlight | r.phase == Revoking ensures r.previous != s.inFlight[i].previous {
      var j :| 0 <= j < |rest.inFlight| && rest.inFlight[j] == r;
      var k := if j < i then j else j + 1;
      assert s.inFlight[k] == r && k != i;
    }
  }

  /** Rotation does not try again: in every run whose mints are up to date, a key whose revocation failed
      stays valid for ever, however many rotations succeed, and none is aimed at it. */
  lemma FailedKeysStayValid(steps: seq<Step>, n: nat)
    requires n <= |steps| && MintsKeys(steps)
    requires forall k :: 0 <= k < |steps| ==> UpToDate(After(steps[..k]), steps[k])
    ensures var s := After(steps);
      After(steps[..n]).failed <= s.failed <= ValidKeys(s) && s.failed !! Pending(s) && s.failed !! ActiveKeys(s)
  {
    UpToDateIsOrderly(steps, |steps|);
    assert steps[..|steps|] == steps;
    FailedGrows(steps, n);
  }

  lemma {:induction false} FailedGrows(steps: seq<Step>, n: nat)
    requires n <= |steps|
    ensures After(steps[..n]).failed <= After(steps).failed
  {
    if n == |steps| {
      assert steps[..n] == steps;
    } else {
      var before := steps[..|steps| - 1];
      assert before[..n] == steps[..n];
      FailedGrows(before, n);
    }
  }

  /** A run in which a key is left behind: two reconnects that both started without a key. */
  lemma OverlapLeavesAKeyBehind()
    ensures var s := After([Begin, Begin, Mint(0, "A"), Mint(0, "B")]);
      s.inFlight == [] && s.active == Some("B") && "A" in s.minted - s.revoked && "A" !in s.failed
  {
    var begins := [Rotation(None, Minting), Rotation(None, Minting)];
    var s2, s3 := INITIAL.(inFlight := begins), INITIAL.(active := Some("A"), minted := {"A"}, inFlight := begins[1..]);
    assert [Begin, Begin, Mint(0, "A"), Mint(0, "B")][..3] == [Begin, Begin, Mint(0, "A")];
    assert [Begin, Begin, Mint(0, "A")][..2] == [Begin, Begin] && [Begin, Begin][..1] == [Begin] && [Begin][..0] == [];
    assert After([Begin]) == INITIAL.(inFlight := [Rotation(None, Minting)]);
    assert After([Begin, Begin]) == s2;
    assert Without(begins, 0) == begins[1..];
    assert After([Begin, Begin, Mint(0, "A")]) == s3;
    assert Without(begins[1..], 0) == [];
  }
}
