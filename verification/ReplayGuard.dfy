/** The evicting replay guard for authorization challenges
    (contrib/examples/challenge-replay-guard/challenge-replay-guard.ts), against a guard that never
    forgets a nonce. */
module ReplayGuard {
  import opened Prelude

  datatype Attempt = Attempt(nonce: string, timestamp: int, now: int)

  datatype Refusal = Expired(age: int) | Replayed

  const FUTURE_SLACK_MS := 30_000

  predicate Timely(maxAge: int, a: Attempt) { -FUTURE_SLACK_MS <= a.now - a.timestamp <= maxAge }

  // ----- The guard -----

  /** The entries that `cleanup` keeps. */
  function Unexpired(table: map<string, int>, now: int): map<string, int> {
    map nonce | nonce in table && now <= table[nonce] :: table[nonce]
  }

  predicate Accepts(maxAge: int, table: map<string, int>, a: Attempt) {
    Timely(maxAge, a) && a.nonce !in Unexpired(table, a.now)
  }

  function Record(maxAge: int, table: map<string, int>, a: Attempt): map<string, int> {
    if Accepts(maxAge, table, a) then Unexpired(table, a.now)[a.nonce := a.now + maxAge] else Unexpired(table, a.now)
  }

  function Table(maxAge: int, h: seq<Attempt>): map<string, int> {
    if h == [] then map[] else Record(maxAge, Table(maxAge, h[..|h| - 1]), h[|h| - 1])
  }

  class ChallengeReplayGuard {
    const maxAgeMs: int
    var seenNonces: map<string, int>
    ghost var attempts: seq<Attempt>

    ghost predicate Valid()
      reads this
    {
      seenNonces == Table(maxAgeMs, attempts)
    }

    constructor (maxAgeMs: int)
      ensures Valid() && this.maxAgeMs == maxAgeMs && attempts == []
    {
      this.maxAgeMs := maxAgeMs;
      seenNonces, attempts := map[], [];
    }

    method Cleanup(now: int)
      modifies this`seenNonces
      ensures seenNonces == Unexpired(old(seenNonces), now)
    {
      var todo := seenNonces.Keys;
      while todo != {}
        invariant todo <= seenNonces.Keys <= old(seenNonces).Keys
        invariant forall nonce <- seenNonces :: seenNonces[nonce] == old(seenNonces)[nonce]
        invariant forall nonce <- old(seenNonces) :: nonce !in todo ==>
          (nonce in seenNonces <==> now <= old(seenNonces)[nonce])
        decreases |todo|
      {
        var nonce :| nonce in todo;
        if now > seenNonces[nonce] {
          seenNonces := seenNonces - {nonce};
        }
        todo := todo - {nonce};
      }
    }

    method CheckAndRecord(nonce: string, timestamp: int, now: int) returns (refusal: Option<Refusal>)
      requires Valid()
      modifies this
      ensures Valid() && attempts == old(attempts) + [Attempt(nonce, timestamp, now)]
      ensures refusal.None? <==> Accepts(maxAgeMs, Table(maxAgeMs, old(attempts)), Attempt(nonce, timestamp, now))
      ensures refusal == Some(Replayed) ==> Timely(maxAgeMs, Attempt(nonce, timestamp, now))
    {
      Cleanup(now);
      attempts := attempts + [Attempt(nonce, timestamp, now)];
      assert attempts[..|attempts| - 1] == old(attempts);
      var age := now - timestamp;
      if age > maxAgeMs || age < -FUTURE_SLACK_MS {
        return Some(Expired(age));
      }
      if nonce in seenNonces {
        return Some(Replayed);
      }
      seenNonces := seenNonces[nonce := now + maxAgeMs];
      return None;
    }
  }

  // ----- The reference: a guard that never forgets -----

  /** The nonces it has accepted, with the times. */
  function Used(maxAge: int, h: seq<Attempt>): map<string, int> {
    if h == [] then map[]
    else
      var before, a := Used(maxAge, h[..|h| - 1]), h[|h| - 1];
      if Remembers(maxAge, before, a) then before[a.nonce := a.now] else before
  }

  predicate Remembers(maxAge: int, used: map<string, int>, a: Attempt) { Timely(maxAge, a) && a.nonce !in used }

  ghost predicate Chronological(h: seq<Attempt>) {
    forall i, j :: 0 <= i <= j < |h| ==> h[i].now <= h[j].now
  }

  /** The guard decides like the reference, attempt by attempt. */
  ghost predicate SameDecisions(maxAge: int, h: seq<Attempt>) {
    forall i :: 0 <= i < |h| ==> SameDecision(maxAge, h, i)
  }

  predicate SameDecision(maxAge: int, h: seq<Attempt>, i: nat)
    requires i < |h|
  {
    Accepts(maxAge, Table(maxAge, h[..i]), h[i]) <==> Remembers(maxAge, Used(maxAge, h[..i]), h[i])
  }

  // ----- When eviction is invisible -----

  /** The first attempt with its nonce that is in time. */
  predicate FirstTimely(maxAge: int, h: seq<Attempt>, i: nat) {
    && i < |h| && Timely(maxAge, h[i])
    && forall k :: 0 <= k < i && h[k].nonce == h[i].nonce ==> !Timely(maxAge, h[k])
  }

  /** No nonce is presented in time more than `maxAge` after it was first presented in time. */
  ghost predicate NoLateRepeat(maxAge: int, h: seq<Attempt>) {
    forall i, j :: 0 <= i < j < |h| && FirstTimely(maxAge, h, i) && h[j].nonce == h[i].nonce && Timely(maxAge, h[j]) ==>
      h[j].now <= h[i].now + maxAge
  }

  /** The guard accepts exactly what a guard without eviction accepts if and only if no nonce comes back,
      in time, after its entry has expired. */
  lemma EvictionIsInvisibleIff(maxAge: int, h: seq<Attempt>)
    requires Chronological(h)
    ensures SameDecisions(maxAge, h) <==> NoLateRepeat(maxAge, h)
  {
    if NoLateRepeat(maxAge, h) {
      forall j | 0 <= j < |h| ensures !Late(maxAge, h, j) {
        NotLateIff(maxAge, h, j);
      }
      forall j | 0 <= j < |h| ensures SameDecision(maxAge, h, j) {
        TableMirrors(maxAge, h, j);
        DecisionIff(maxAge, h, j);
      }
    }
    if SameDecisions(maxAge, h) {
      forall i, j | 0 <= i < j < |h| && FirstTimely(maxAge, h, i) && h[j].nonce == h[i].nonce && Timely(maxAge, h[j])
        ensures h[j].now <= h[i].now + maxAge
      {
        SameIsNotLate(maxAge, h, j);
        NotLateIff(maxAge, h, j);
      }
    }
  }

  /** The attempt is in time, but its nonce was used more than `maxAge` ago. */
  predicate Late(maxAge: int, h: seq<Attempt>, j: nat)
    requires j < |h|
  {
    var used := Used(maxAge, h[..j]);
    Timely(maxAge, h[j]) && h[j].nonce in used && h[j].now > used[h[j].nonce] + maxAge
  }

  /** A nonce is used at the time of the first attempt that presents it in time. */
  lemma {:induction false} UsedIsFirstTimely(maxAge: int, h: seq<Attempt>, i: nat)
    requires FirstTimely(maxAge, h, i)
    ensures h[i].nonce in Used(maxAge, h) && Used(maxAge, h)[h[i].nonce] == h[i].now
  {
    var front := h[..|h| - 1];
    if i < |front| {
      UsedIsFirstTimely(maxAge, front, i);
    } else {
      UnusedBefore(maxAge, front, h[i].nonce);
    }
  }

  lemma {:induction false} UnusedBefore(maxAge: int, h: seq<Attempt>, nonce: string)
    requires forall k :: 0 <= k < |h| && h[k].nonce == nonce ==> !Timely(maxAge, h[k])
    ensures nonce !in Used(maxAge, h)
  {
    if h != [] {
      UnusedBefore(maxAge, h[..|h| - 1], nonce);
    }
  }

  lemma {:induction false} FirstTimelyOfUsed(maxAge: int, h: seq<Attempt>, nonce: string) returns (i: nat)
    requires nonce in Used(maxAge, h)
    ensures FirstTimely(maxAge, h, i) && h[i].nonce == nonce
  {
    var front, last := h[..|h| - 1], h[|h| - 1];
    if nonce in Used(maxAge, front) {
      i := FirstTimelyOfUsed(maxAge, front, nonce);
    } else {
      i := |h| - 1;
      forall k | 0 <= k < i && h[k].nonce == nonce ensures !Timely(maxAge, h[k]) {
        assert front[k] == h[k];
        TimelyIsUsed(maxAge, front, k);
      }
    }
  }

  lemma {:induction false} TimelyIsUsed(maxAge: int, h: seq<Attempt>, k: nat)
    requires k < |h|
    ensures Timely(maxAge, h[k]) ==> h[k].nonce in Used(maxAge, h)
  {
    if k < |h| - 1 {
      TimelyIsUsed(maxAge, h[..|h| - 1], k);
    }
  }

  lemma NotLateIff(maxAge: int, h: seq<Attempt>, j: nat)
    requires j < |h|
    ensures !Late(maxAge, h, j) <==>
      forall i :: 0 <= i < j && FirstTimely(maxAge, h, i) && h[j].nonce == h[i].nonce && Timely(maxAge, h[j]) ==>
        h[j].now <= h[i].now + maxAge
  {
    if h[j].nonce in Used(maxAge, h[..j]) {
      var first := FirstTimelyOfUsed(maxAge, h[..j], h[j].nonce);
      FirstTimelyPrefix(maxAge, h, j, first);
      UsedIsFirstTimely(maxAge, h[..j], first);
      forall i | 0 <= i < j && FirstTimely(maxAge, h, i) && h[i].nonce == h[j].nonce ensures i == first {
        assert h[first].nonce == h[i].nonce;
      }
    } else {
      forall i | 0 <= i < j && FirstTimely(maxAge, h, i) ensures h[i].nonce != h[j].nonce {
        FirstTimelyPrefix(maxAge, h, j, i);
        UsedIsFirstTimely(maxAge, h[..j], i);
      }
    }
  }

  lemma FirstTimelyPrefix(maxAge: int, h: seq<Attempt>, j: nat, i: nat)
    requires i < j <= |h|
    ensures h[..j][i] == h[i] && (FirstTimely(maxAge, h[..j], i) <==> FirstTimely(maxAge, h, i))
  {
    assert forall k :: 0 <= k < j ==> h[..j][k] == h[k];
  }

  /** The table holds the nonces used, with their times, but for those that expired before the last attempt. */
  ghost predicate Mirrors(maxAge: int, h: seq<Attempt>) {
    var table, used := Table(maxAge, h), Used(maxAge, h);
    && (forall nonce <- table :: nonce in used && table[nonce] == used[nonce] + maxAge)
    && (forall nonce <- used :: nonce !in table ==> h != [] && h[|h| - 1].now > used[nonce] + maxAge)
  }

  lemma {:induction false} TableMirrors(maxAge: int, h: seq<Attempt>, n: nat)
    requires n <= |h| && Chronological(h) && forall j :: 0 <= j < n ==> !Late(maxAge, h, j)
    ensures Mirrors(maxAge, h[..n])
  {
    if n > 0 {
      TableMirrors(maxAge, h, n - 1);
      DecisionIff(maxAge, h, n - 1);
      MirrorsStep(maxAge, h, n - 1);
    }
  }

  lemma MirrorsStep(maxAge: int, h: seq<Attempt>, n: nat)
    requires n < |h| && Chronological(h) && Mirrors(maxAge, h[..n]) && SameDecision(maxAge, h, n)
    ensures Mirrors(maxAge, h[..n + 1])
  {
    var upTo := h[..n + 1];
    assert upTo[..n] == h[..n] && upTo[n] == h[n];
    assert n > 0 ==> h[n - 1].now <= h[n].now;
  }

  /** On a table that mirrors the nonces used, the decisions differ exactly on a late attempt. */
  lemma DecisionIff(maxAge: int, h: seq<Attempt>, n: nat)
    requires n < |h| && Chronological(h) && Mirrors(maxAge, h[..n])
    ensures SameDecision(maxAge, h, n) <==> !Late(maxAge, h, n)
  {
    assert n > 0 ==> h[n - 1].now <= h[n].now;
  }

  lemma {:induction false} SameIsNotLate(maxAge: int, h: seq<Attempt>, n: nat)
    requires n < |h| && Chronological(h) && SameDecisions(maxAge, h)
    ensures !Late(maxAge, h, n)
  {
    forall j | 0 <= j < n ensures !Late(maxAge, h, j) {
      SameIsNotLate(maxAge, h, j);
    }
    TableMirrors(maxAge, h, n);
    DecisionIff(maxAge, h, n);
    assert SameDecision(maxAge, h, n);
  }

  // ----- Challenges with a fixed timestamp, and the default one -----

  /** A nonce always comes with the timestamp it was issued with, and not before that time. */
  ghost predicate IssuedAs(h: seq<Attempt>, stamp: string -> int) {
    forall a <- h :: a.timestamp == stamp(a.nonce) && a.timestamp <= a.now
  }

  /** Then evicting is invisible in every run. */
  lemma EvictionIsInvisible(maxAge: int, h: seq<Attempt>, stamp: string -> int)
    requires Chronological(h) && IssuedAs(h, stamp)
    ensures SameDecisions(maxAge, h)
  {
    forall i, j | 0 <= i < j < |h| && FirstTimely(maxAge, h, i) && h[j].nonce == h[i].nonce && Timely(maxAge, h[j])
      ensures h[j].now <= h[i].now + maxAge
    {
      assert h[i] in h && h[j] in h;
    }
    EvictionIsInvisibleIff(maxAge, h);
  }

  /** With its timestamp unchanged, a challenge accepted at time `a` is accepted again at some later time
      exactly when its timestamp lay in the future of `a`. */
  lemma ReplayableUnchangedIffFromTheFuture(maxAge: int, table: map<string, int>, nonce: string, timestamp: int, a: int)
    requires Accepts(maxAge, table, Attempt(nonce, timestamp, a))
    ensures
      var table' := Record(maxAge, table, Attempt(nonce, timestamp, a));
      (exists later :: later >= a && Accepts(maxAge, table', Attempt(nonce, timestamp, later))) <==> timestamp > a
  {
    var table' := Record(maxAge, table, Attempt(nonce, timestamp, a));
    assert table'[nonce] == a + maxAge;
    if timestamp > a {
      var later := Max(a, a + maxAge + 1);
      assert Accepts(maxAge, table', Attempt(nonce, timestamp, later));
    }
  }

  /** With the default timestamp, the time of the attempt itself, a nonce accepted at time `a` is accepted
      again at time `later` exactly when its entry has expired by then. */
  lemma ReplayableByDefaultIffExpired(maxAge: int, table: map<string, int>, nonce: string, a: int, later: int)
    requires Accepts(maxAge, table, Attempt(nonce, a, a)) && later >= a
    ensures Accepts(maxAge, Record(maxAge, table, Attempt(nonce, a, a)), Attempt(nonce, later, later))
         <==> later > a + maxAge
  {
    var table' := Record(maxAge, table, Attempt(nonce, a, a));
    assert table'[nonce] == a + maxAge;
  }
}
