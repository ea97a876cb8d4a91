/** Running asynchronous tasks one at a time by chaining promises: `createTrackerMutex`
    (contrib/x402-wave-403-414/x402-budget-attributes-shared.ts) and `UptoSettlementQueue`
    (contrib/issue-509-upto-buyer/upto-buyer.ts).

    The queue holds the promises it made, and the event loop may run any enabled reaction next: start
    a task whose `then` has a settled promise, let a running task settle, or settle the tail that
    swallows a result. */
module PromiseQueue {
  datatype Settlement = Pending | Fulfilled | Rejected

  datatype Event = Began(task: nat) | Ended(task: nat, ok: bool)

  predicate HasBegun(log: seq<Event>, task: nat) { Began(task) in log }

  predicate HasEnded(log: seq<Event>, task: nat) { Ended(task, true) in log || Ended(task, false) in log }

  /** What the caller who queued the task gets: its own result, also a rejection. */
  function ResultOf(log: seq<Event>, task: nat): Settlement {
    if Ended(task, true) in log then Fulfilled else if Ended(task, false) in log then Rejected else Pending
  }

  predicate Running(log: seq<Event>, task: nat) { HasBegun(log, task) && !HasEnded(log, task) }

  /** A task begins only after every task called before it has ended, well or not. */
  ghost predicate Serial(log: seq<Event>) {
    forall p, earlier: nat :: 0 <= p < |log| && log[p].Began? && earlier < log[p].task ==> HasEnded(log[..p], earlier)
  }

  /** Hence tasks begin in call order, and never two at a time. */
  lemma SerialMeansOneAtATime(log: seq<Event>, n: nat, a: nat, b: nat)
    requires Serial(log) && n <= |log| && Running(log[..n], a) && Running(log[..n], b)
    ensures a == b
  {
    if a < b {
      EarlierHasEnded(log, n, a, b);
    } else if b < a {
      EarlierHasEnded(log, n, b, a);
    }
  }

  lemma EarlierHasEnded(log: seq<Event>, n: nat, earlier: nat, task: nat)
    requires Serial(log) && n <= |log| && earlier < task && HasBegun(log[..n], task)
    ensures HasEnded(log[..n], earlier)
  {
    var p :| 0 <= p < n && log[..n][p] == Began(task);
    assert log[p] == Began(task) && HasEnded(log[..p], earlier);
    assert log[..p] == log[..n][..p];
  }

  lemma LogGrows(log: seq<Event>, e: Event)
    requires Serial(log)
    requires e.Began? ==> forall earlier: nat :: earlier < e.task ==> HasEnded(log, earlier)
    ensures Serial(log + [e])
    ensures forall task: nat :: HasBegun(log + [e], task) <==> HasBegun(log, task) || e == Began(task)
    ensures forall task: nat :: HasEnded(log + [e], task) <==> HasEnded(log, task) || (e.Ended? && e.task == task)
    ensures forall task: nat :: !(e.Ended? && e.task == task) ==> ResultOf(log + [e], task) == ResultOf(log, task)
  {
    var more := log + [e];
    forall p, earlier: nat | 0 <= p < |more| && more[p].Began? && earlier < more[p].task
      ensures HasEnded(more[..p], earlier)
    {
      assert more[..p] == log[..p];
      if p == |log| {
        assert more[..p] == log;
      }
    }
  }

  class Queue {
    /** Whether the task is passed to `then` for a rejection as well (the mutex), or not (the
        settlement queue). */
    const alsoOnRejection: bool
    var promises: seq<Settlement>
    var tail: nat
    var chainedOn: seq<nat>        // per task, the promise its `then` waits for
    ghost var log: seq<Event>

    /** The result of the `k`-th task is promise `2k + 1`, and the tail made from it `2k + 2`. */
    ghost predicate Valid()
      reads this
    {
      && |promises| == 2 * |chainedOn| + 1 && tail == 2 * |chainedOn| && promises[0] == Fulfilled
      && (forall k :: 0 <= k < |chainedOn| ==> chainedOn[k] == 2 * k)
      && (forall k :: 0 <= k <= |chainedOn| ==> promises[2 * k] != Rejected)
      && (forall k :: 0 <= k < |chainedOn| ==> promises[2 * k + 2] == Fulfilled ==> promises[2 * k + 1] != Pending)
      && (forall k :: 0 <= k < |chainedOn| ==> promises[2 * k + 1] == ResultOf(log, k))
      && (forall k :: 0 <= k < |chainedOn| ==> HasBegun(log, k) ==> promises[2 * k] == Fulfilled)
      && (forall k: nat :: HasEnded(log, k) ==> HasBegun(log, k))
      && (forall k: nat :: HasBegun(log, k) ==> k < |chainedOn|)
      && Serial(log)
    }

    constructor (alsoOnRejection: bool)
      ensures Valid() && log == [] && chainedOn == [] && this.alsoOnRejection == alsoOnRejection
    {
      this.alsoOnRejection := alsoOnRejection;
      promises, tail, chainedOn, log := [Fulfilled], 0, [], [];
    }

    /** `run`: chains the task on the tail, and makes a new tail that settles after it. */
    method Run() returns (task: nat)
      requires Valid()
      modifies this
      ensures Valid() && log == old(log) && task == |old(chainedOn)| && |chainedOn| == task + 1
    {
      task := |chainedOn|;
      chainedOn := chainedOn + [tail];
      promises := promises + [Pending, Pending];
      tail := |promises| - 1;
      forall k | 0 <= k < |chainedOn| ensures promises[2 * k + 1] == ResultOf(log, k) {
        if k == task {
          assert !HasBegun(log, k);
        }
      }
    }

    ghost predicate CanBegin(task: nat)
      reads this
      requires Valid()
    {
      task < |chainedOn| && !HasBegun(log, task) && promises[chainedOn[task]] != Pending
    }

    ghost predicate CanRelay(task: nat)
      reads this
      requires Valid()
    {
      task < |chainedOn| && promises[2 * task + 1] != Pending && promises[2 * task + 2] == Pending
    }

    /** The reaction of `tail.then(task)`.  The task does run, however the earlier ones ended. */
    method Begin(task: nat) returns (runs: bool)
      requires Valid() && CanBegin(task)
      modifies this
      ensures Valid() && runs && log == old(log) + [Began(task)] && chainedOn == old(chainedOn)
    {
      runs := promises[chainedOn[task]] == Fulfilled || alsoOnRejection;
      EarlierTasksEnded(task);
      LogGrows(log, Began(task));
      log := log + [Began(task)];
    }

    /** The running task settles its result. */
    method End(task: nat, ok: bool)
      requires Valid() && Running(log, task)
      modifies this
      ensures Valid() && log == old(log) + [Ended(task, ok)] && chainedOn == old(chainedOn)
      ensures promises == old(promises)[2 * task + 1 := if ok then Fulfilled else Rejected]
    {
      promises := promises[2 * task + 1 := if ok then Fulfilled else Rejected];
      LogGrows(log, Ended(task, ok));
      log := log + [Ended(task, ok)];
    }

    /** The reaction that swallows the result: the new tail is fulfilled either way. */
    method Relay(task: nat)
      requires Valid() && CanRelay(task)
      modifies this
      ensures Valid() && log == old(log) && chainedOn == old(chainedOn)
      ensures promises == old(promises)[2 * task + 2 := Fulfilled]
      ensures task + 1 < |chainedOn| && !HasBegun(log, task + 1) ==> CanBegin(task + 1)
    {
      promises := promises[2 * task + 2 := Fulfilled];
    }

    lemma {:induction false} EarlierTasksEnded(task: nat)
      requires Valid() && task <= |chainedOn| && promises[2 * task] == Fulfilled
      ensures forall k: nat :: k < task ==> HasEnded(log, k)
    {
      if task > 0 {
        assert promises[2 * (task - 1) + 2] == Fulfilled;
        assert promises[2 * (task - 1) + 1] == ResultOf(log, task - 1);
        assert HasBegun(log, task - 1);
        EarlierTasksEnded(task - 1);
      }
    }

    /** The queue never stalls: while a task has not ended, one is running or some reaction is due. */
    lemma {:induction false} NeverStalls(task: nat)
      requires Valid() && task < |chainedOn| && !HasEnded(log, task)
      ensures exists k: nat :: k <= task && (Running(log, k) || CanBegin(k) || CanRelay(k))
    {
      if promises[2 * task] == Fulfilled {
        assert Running(log, task) || CanBegin(task);
      } else {
        assert promises[2 * (task - 1) + 2] == Pending;
        assert promises[2 * (task - 1) + 1] == ResultOf(log, task - 1);
        if HasEnded(log, task - 1) {
          assert CanRelay(task - 1);
        } else {
          NeverStalls(task - 1);
        }
      }
    }
  }
}
