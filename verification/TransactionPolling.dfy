/** Polling a transaction until it is final or a deadline passes (src/tx-status.ts). */
module TransactionPolling {
  import opened Prelude

  datatype Status = Succeeded | Failed

  /** What one read yields; a reader that throws is treated like a pending transaction. */
  datatype Reading = Final(status: Status) | Pending | Threw

  datatype Options = Options(timeoutMs: int, intervalMs: int)

  datatype Outcome = Settled(status: Status) | TimedOut

  /** What the loop meets: the clock when it starts, its `n`-th reading, and the clock after it. */
  datatype World = World(start: int, reading: nat -> Reading, clock: nat -> int)

  /** A sleep lasts at least the interval (and never goes back in time). */
  ghost predicate Lawful(o: Options, w: World) {
    w.clock(0) >= w.start && forall n: nat :: w.clock(n + 1) >= w.clock(n) + Max(0, o.intervalMs)
  }

  /** The loop ends at its `n`-th reading: it is final, or another interval would pass the deadline. */
  predicate Ends(o: Options, w: World, n: nat) {
    w.reading(n).Final? || w.clock(n) + o.intervalMs > w.start + o.timeoutMs
  }

  /** `waitForTransaction`. */
  method WaitForTransaction(o: Options, w: World) returns (outcome: Outcome, polls: nat)
    requires exists n: nat :: Ends(o, w, n)    // or it never returns, see PollingEndsIff
    // it stops at the first opportunity
    ensures polls > 0 && Ends(o, w, polls - 1) && forall k: nat :: k < polls - 1 ==> !Ends(o, w, k)
    // a final status is the first one read; a timeout means that none was, and that time is up
    ensures outcome.Settled? <==> w.reading(polls - 1).Final?
    ensures outcome.Settled? ==> w.reading(polls - 1) == Final(outcome.status)
    ensures outcome.TimedOut? ==>
              && (forall k: nat :: k < polls ==> !w.reading(k).Final?)
              && w.clock(polls - 1) + o.intervalMs > w.start + o.timeoutMs
    // on a lawful clock it does not take long
    ensures Lawful(o, w) && o.intervalMs > 0 ==> polls <= Max(0, o.timeoutMs) / o.intervalMs + 1
    ensures Lawful(o, w) && o.intervalMs > o.timeoutMs ==> polls == 1
  {
    ghost var end: nat :| Ends(o, w, end);
    var deadline := w.start + o.timeoutMs;
    polls := 0;
    while true
      invariant forall k: nat :: k < polls ==> !Ends(o, w, k)
      invariant forall k: nat :: k < polls ==> !w.reading(k).Final?
      invariant polls <= end
      decreases end - polls
    {
      var n := polls;
      polls := polls + 1;
      PollsAreBounded(o, w, n);
      match w.reading(n) {
        case Threw =>
          if w.clock(n) + o.intervalMs > deadline {
            return TimedOut, polls;
          }
        case Final(status) => return Settled(status), polls;
        case Pending =>
          if w.clock(n) + o.intervalMs > deadline {
            return TimedOut, polls;
          }
      }
    }
  }

  /** On a lawful clock a reading that does not come at once comes within the time allowed. */
  lemma PollsAreBounded(o: Options, w: World, n: nat)
    requires forall k: nat :: k < n ==> !Ends(o, w, k)
    ensures Lawful(o, w) && o.intervalMs > 0 ==> n <= Max(0, o.timeoutMs) / o.intervalMs
    ensures Lawful(o, w) && o.intervalMs > o.timeoutMs ==> n == 0
  {
    if Lawful(o, w) && o.intervalMs > 0 {
      if n > 0 {
        SleepsAddUp(o, w, n - 1);
        assert !Ends(o, w, n - 1);
        assert n * o.intervalMs == (n - 1) * o.intervalMs + o.intervalMs;
      }
      WithinQuotient(n, o.intervalMs, Max(0, o.timeoutMs));
    }
    if n > 0 {
      assert !Ends(o, w, 0);
    }
  }

  lemma {:induction false} SleepsAddUp(o: Options, w: World, n: nat)
    requires Lawful(o, w) && o.intervalMs > 0
    ensures w.clock(n) >= w.start + n * o.intervalMs
  {
    if n > 0 {
      SleepsAddUp(o, w, n - 1);
      assert w.clock(n - 1 + 1) >= w.clock(n - 1) + o.intervalMs;
      assert n * o.intervalMs == (n - 1) * o.intervalMs + o.intervalMs;
    }
  }

  lemma WithinQuotient(n: nat, d: int, total: nat)
    requires d > 0 && n * d <= total
    ensures n <= total / d
  {
    var q := total / d;
    assert total < (q + 1) * d;
    if q + 1 <= n {
      MultiplyMonotone(q + 1, n, d);
    }
  }

  /** Polling ends, whatever it meets, exactly when the interval is positive or the very first
      deadline check fails already. */
  lemma PollingEndsIff(o: Options)
    ensures (forall w :: Lawful(o, w) ==> exists n: nat :: Ends(o, w, n))
         <==> o.intervalMs > 0 || o.intervalMs > o.timeoutMs
  {
    if o.intervalMs > 0 {
      forall w | Lawful(o, w) ensures exists n: nat :: Ends(o, w, n) {
        var n := Max(0, o.timeoutMs);
        SleepsAddUp(o, w, n);
        assert n * o.intervalMs >= n;
        assert Ends(o, w, n);
      }
    } else if o.intervalMs > o.timeoutMs {
      forall w | Lawful(o, w) ensures exists n: nat :: Ends(o, w, n) {
        assert Ends(o, w, 0);
      }
    } else {
      var stuck := World(0, (_: nat) => Pending, (_: nat) => 0);
      assert Lawful(o, stuck) && forall n: nat :: !Ends(o, stuck, n);
    }
  }
}
