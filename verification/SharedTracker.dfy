/** The budget tracker on a shared key-value store
    (contrib/x402-wave-403-414/x402-budget-attributes-shared.ts), against the in-memory tracker
    (src/x402-budget-attributes.ts).

    Each call reads the store and, to record, writes it back after an await.  Nothing in the steps below
    keeps calls apart: that is the mutex's part.  The tracker queues its calls on it, so of a run only
    this is asked, that the beginnings and ends of its calls form a log as `PromiseQueue.Queue` keeps
    it, a `Serial` one. */
module SharedTracker {
  import opened Prelude
  import opened Decimal
  import BudgetRules
  import PromiseQueue

  // ----- Store keys -----

  datatype Namespace = Namespace(keyPrefix: string, periodKey: string)

  function CategoryText(rule: BudgetRules.Rule): string {
    match rule.category
    case None => "*"
    case Some(category) => category
  }

  function KeyOf(ns: Namespace, rule: BudgetRules.Rule): string {
    (ns.keyPrefix + ":" + ns.periodKey + ":") + (rule.merchant + (":" + CategoryText(rule)))
  }

  /** A valid merchant is `*` or an address of letters and digits: it has no colon. */
  predicate ColonFree(s: string) { ':' !in s }

  /** Two rules share a key exactly when merchant and category (omitted meaning `*`) coincide. */
  lemma KeysDistinguish(ns: Namespace, a: BudgetRules.Rule, b: BudgetRules.Rule)
    requires ColonFree(a.merchant) && ColonFree(b.merchant)
    ensures KeyOf(ns, a) == KeyOf(ns, b) <==>
      && a.merchant == b.merchant
      && (if a.category.Some? then a.category.value else "*") == (if b.category.Some? then b.category.value else "*")
  {
    if KeyOf(ns, a) == KeyOf(ns, b) {
      var common := ns.keyPrefix + ":" + ns.periodKey + ":";
      CancelPrefix(common, a.merchant + (":" + CategoryText(a)), b.merchant + (":" + CategoryText(b)));
      SplitAtColon(a.merchant, CategoryText(a), b.merchant, CategoryText(b));
    }
  }

  /** Two trackers whose prefixes or periods differ never share a key, if those hold no colon. */
  lemma NamespacesDistinguish(ns: Namespace, ns': Namespace, a: BudgetRules.Rule, b: BudgetRules.Rule)
    requires ColonFree(ns.keyPrefix) && ColonFree(ns.periodKey) && ColonFree(ns'.keyPrefix) && ColonFree(ns'.periodKey)
    requires KeyOf(ns, a) == KeyOf(ns', b)
    ensures ns == ns'
  {
    var rest, rest' := a.merchant + (":" + CategoryText(a)), b.merchant + (":" + CategoryText(b));
    Regroup(ns.keyPrefix, ns.periodKey, rest);
    Regroup(ns'.keyPrefix, ns'.periodKey, rest');
    SplitAtColon(ns.keyPrefix, ns.periodKey + (":" + rest), ns'.keyPrefix, ns'.periodKey + (":" + rest'));
    SplitAtColon(ns.periodKey, rest, ns'.periodKey, rest');
  }

  lemma Regroup(a: string, b: string, c: string)
    ensures (a + ":" + b + ":") + c == a + (":" + (b + (":" + c)))
  {
  }

  lemma CancelPrefix(p: string, s: string, t: string)
    requires p + s == p + t
    ensures s == t
  {
    assert (p + s)[|p|..] == s && (p + t)[|p|..] == t;
  }

  lemma SplitAtColon(m: string, c: string, m': string, c': string)
    requires ColonFree(m) && ColonFree(m') && m + (":" + c) == m' + (":" + c')
    ensures m == m' && c == c'
  {
    var s := m + (":" + c);
    assert s[|m|] == ':' && s[|m'|] == ':';
    assert forall i :: 0 <= i < |m| ==> s[i] == m[i] != ':';
    assert forall i :: 0 <= i < |m'| ==> s[i] == m'[i] != ':';
    assert s[..|m|] == m && s[..|m'|] == m';
    assert s[|m| + 1..] == c && s[|m'| + 1..] == c';
  }

  // ----- The calls on the tracker -----

  datatype Op = Spent(rule: nat) | Record(rule: nat, amount: int)

  /** A call waits for its turn, has read `current`, or is done; `written` tells whether its write
      reached the store. */
  datatype Phase = Waiting | HasRead(current: int) | Done(ok: bool, value: int, written: bool)

  datatype Task = Task(op: Op, phase: Phase)

  datatype State = State(store: map<string, string>, tasks: seq<Task>)

  datatype Step =
    | Call(op: Op)
    | Read(k: nat, ok: bool)                  // `getItem` answers or fails
    | Write(k: nat, ok: bool, effect: bool)   // `setItem` answers or fails, with or without effect

  /** `BigInt(raw)`, `None` where it throws. */
  type BigIntReader = string -> Option<int>

  ghost predicate ReadsBack(bigInt: BigIntReader) { forall n: int :: bigInt(SignedDecimal(n)) == Some(n) }

  datatype Setting = Setting(ns: Namespace, rules: seq<BudgetRules.Rule>, bigInt: BigIntReader)

  function Key(c: Setting, op: Op): string {
    if op.rule < |c.rules| then KeyOf(c.ns, c.rules[op.rule]) else ""
  }

  /** The number under a key; a missing or empty entry is 0. */
  function Stored(c: Setting, store: map<string, string>, key: string): Option<int> {
    if key !in store || store[key] == "" then Some(0) else c.bigInt(store[key])
  }

  /** One step; a step that is not enabled changes nothing. */
  function Apply(c: Setting, s: State, step: Step): State {
    match step
    case Call(op) => if op.rule < |c.rules| then s.(tasks := s.tasks + [Task(op, Waiting)]) else s
    case Read(k, ok) =>
      if k >= |s.tasks| || s.tasks[k].phase != Waiting then s
      else
        var task := s.tasks[k];
        var current := Stored(c, s.store, Key(c, task.op));
        var phase :=
          if !ok || current.None? then Done(false, 0, false)
          else if task.op.Spent? then Done(true, current.value, false)
          else HasRead(current.value);
        s.(tasks := s.tasks[k := task.(phase := phase)])
    case Write(k, ok, effect) =>
      if k >= |s.tasks| || !s.tasks[k].phase.HasRead? || s.tasks[k].op.Spent? then s
      else
        var task := s.tasks[k];
        var next := task.phase.current + task.op.amount;
        var written := ok || effect;
        State(if written then s.store[Key(c, task.op) := SignedDecimal(next)] else s.store,
              s.tasks[k := task.(phase := Done(ok, next, written))])
  }

  /** The tracker on its store, cut at its awaits. */
  class StoreTracker {
    const setting: Setting
    var store: map<string, string>
    var tasks: seq<Task>

    function Contents(): State
      reads this
    {
      State(store, tasks)
    }

    constructor (setting: Setting, store: map<string, string>)
      ensures this.setting == setting && Contents() == State(store, [])
    {
      this.setting, this.store, tasks := setting, store, [];
    }

    /** `spent` or `record`: queued on the mutex. */
    method Enqueue(op: Op)
      requires op.rule < |setting.rules|
      modifies this`tasks
      ensures Contents() == Apply(setting, old(Contents()), Call(op))
    {
      tasks := tasks + [Task(op, Waiting)];
    }

    /** `safeGetItem` has settled. */
    method ReadSettled(k: nat, ok: bool)
      requires k < |tasks| && tasks[k].phase == Waiting
      modifies this`tasks
      ensures Contents() == Apply(setting, old(Contents()), Read(k, ok))
    {
      var task := tasks[k];
      if !ok {
        tasks := tasks[k := task.(phase := Done(false, 0, false))];
        return;
      }
      var current := Stored(setting, store, Key(setting, task.op));
      if current.None? {
        tasks := tasks[k := task.(phase := Done(false, 0, false))];
        return;
      }
      match task.op {
        case Spent(_) => tasks := tasks[k := task.(phase := Done(true, current.value, false))];
        case Record(_, _) => tasks := tasks[k := task.(phase := HasRead(current.value))];
      }
    }

    /** `safeSetItem` has settled, perhaps after a failure that took effect. */
    method WriteSettled(k: nat, ok: bool, effect: bool)
      requires k < |tasks| && tasks[k].phase.HasRead? && tasks[k].op.Record?
      modifies this
      ensures Contents() == Apply(setting, old(Contents()), Write(k, ok, effect))
    {
      var task := tasks[k];
      var next := task.phase.current + task.op.amount;
      if ok || effect {
        store := store[Key(setting, task.op) := SignedDecimal(next)];
      }
      tasks := tasks[k := task.(phase := Done(ok, next, ok || effect))];
    }
  }

  function After(c: Setting, store: map<string, string>, steps: seq<Step>): State {
    if steps == [] then State(store, [])
    else Apply(c, After(c, store, steps[..|steps| - 1]), steps[|steps| - 1])
  }

  // ----- Turns -----

  /** The beginning and the end of a call, as they happen in a step. */
  function Events(c: Setting, s: State, step: Step): seq<PromiseQueue.Event> {
    match step
    case Call(_) => []
    case Read(k, ok) =>
      if k >= |s.tasks| || s.tasks[k].phase != Waiting then []
      else
        var phase := Apply(c, s, step).tasks[k].phase;
        if phase.Done? then [PromiseQueue.Began(k), PromiseQueue.Ended(k, phase.ok)] else [PromiseQueue.Began(k)]
    case Write(k, ok, _) =>
      if k >= |s.tasks| || !s.tasks[k].phase.HasRead? || s.tasks[k].op.Spent? then [] else [PromiseQueue.Ended(k, ok)]
  }

  function Log(c: Setting, store: map<string, string>, steps: seq<Step>): seq<PromiseQueue.Event> {
    if steps == [] then []
    else
      var before := steps[..|steps| - 1];
      Log(c, store, before) + Events(c, After(c, store, before), steps[|steps| - 1])
  }

  /** The calls of the run take turns, as the mutex makes them do. */
  ghost predicate TakesTurns(c: Setting, store: map<string, string>, steps: seq<Step>) {
    PromiseQueue.Serial(Log(c, store, steps))
  }

  predicate EarlierDone(tasks: seq<Task>, k: nat) {
    k <= |tasks| && forall j :: 0 <= j < k ==> tasks[j].phase.Done?
  }

  ghost predicate LogFits(log: seq<PromiseQueue.Event>, tasks: seq<Task>) {
    && (forall k: nat :: PromiseQueue.HasBegun(log, k) <==> k < |tasks| && tasks[k].phase != Waiting)
    && (forall k: nat :: PromiseQueue.HasEnded(log, k) <==> k < |tasks| && tasks[k].phase.Done?)
  }

  lemma {:induction false} LogOfRunFits(c: Setting, store: map<string, string>, steps: seq<Step>)
    ensures LogFits(Log(c, store, steps), After(c, store, steps).tasks)
  {
    if steps != [] {
      var before, step := steps[..|steps| - 1], steps[|steps| - 1];
      LogOfRunFits(c, store, before);
      LogStepFits(c, After(c, store, before), step, Log(c, store, before));
    }
  }

  lemma LogStepFits(c: Setting, s: State, step: Step, log: seq<PromiseQueue.Event>)
    requires LogFits(log, s.tasks)
    ensures LogFits(log + Events(c, s, step), Apply(c, s, step).tasks)
  {
    var more, tasks' := Events(c, s, step), Apply(c, s, step).tasks;
    forall k: nat
      ensures PromiseQueue.HasBegun(log + more, k) <==> k < |tasks'| && tasks'[k].phase != Waiting
      ensures PromiseQueue.HasEnded(log + more, k) <==> k < |tasks'| && tasks'[k].phase.Done?
    {
      LogAppend(log, more, k);
      EventsOf(c, s, step, k);
    }
  }

  lemma LogAppend(log: seq<PromiseQueue.Event>, more: seq<PromiseQueue.Event>, k: nat)
    ensures PromiseQueue.HasBegun(log + more, k) <==> PromiseQueue.HasBegun(log, k) || PromiseQueue.HasBegun(more, k)
    ensures PromiseQueue.HasEnded(log + more, k) <==> PromiseQueue.HasEnded(log, k) || PromiseQueue.HasEnded(more, k)
  {
  }

  /** The events of a step are what it changes. */
  lemma EventsOf(c: Setting, s: State, step: Step, k: nat)
    ensures var tasks, tasks', more := s.tasks, Apply(c, s, step).tasks, Events(c, s, step);
      && ((k < |tasks'| && tasks'[k].phase != Waiting)
          <==> ((k < |tasks| && tasks[k].phase != Waiting) || PromiseQueue.HasBegun(more, k)))
      && ((k < |tasks'| && tasks'[k].phase.Done?)
          <==> ((k < |tasks| && tasks[k].phase.Done?) || PromiseQueue.HasEnded(more, k)))
  {
  }

  predicate InTurn(s: State, step: Step) {
    step.Read? && step.k < |s.tasks| && s.tasks[step.k].phase == Waiting ==> EarlierDone(s.tasks, step.k)
  }

  /** A run takes turns exactly if each call in it begins when all calls before it are done. */
  lemma TakesTurnsStep(c: Setting, store: map<string, string>, steps: seq<Step>)
    requires steps != []
    ensures var before, step := steps[..|steps| - 1], steps[|steps| - 1];
      TakesTurns(c, store, steps) <==> TakesTurns(c, store, before) && InTurn(After(c, store, before), step)
  {
    var before, step := steps[..|steps| - 1], steps[|steps| - 1];
    var s, log := After(c, store, before), Log(c, store, before);
    LogOfRunFits(c, store, before);
    if TakesTurns(c, store, steps) {
      SerialPrefix(log, Events(c, s, step));
    }
    if TakesTurns(c, store, before) && InTurn(s, step) {
      SerialEvents(c, s, step, log);
    }
  }

  lemma SerialPrefix(log: seq<PromiseQueue.Event>, more: seq<PromiseQueue.Event>)
    requires PromiseQueue.Serial(log + more)
    ensures PromiseQueue.Serial(log)
    ensures forall earlier: nat :: more != [] && more[0].Began? && earlier < more[0].task ==>
      PromiseQueue.HasEnded(log, earlier)
  {
    var all := log + more;
    forall p, earlier: nat | 0 <= p < |log| && log[p].Began? && earlier < log[p].task
      ensures PromiseQueue.HasEnded(log[..p], earlier)
    {
      assert all[p] == log[p] && all[..p] == log[..p];
    }
    assert all[..|log|] == log;
    assert more != [] ==> all[|log|] == more[0];
  }

  lemma SerialEvents(c: Setting, s: State, step: Step, log: seq<PromiseQueue.Event>)
    requires PromiseQueue.Serial(log) && LogFits(log, s.tasks) && InTurn(s, step)
    ensures PromiseQueue.Serial(log + Events(c, s, step))
  {
    var more := Events(c, s, step);
    if more == [] {
      assert log + more == log;
    } else {
      PromiseQueue.LogGrows(log, more[0]);
      if |more| == 1 {
        assert log + more == log + [more[0]];
      } else {
        PromiseQueue.LogGrows(log + [more[0]], more[1]);
        assert log + more == log + [more[0]] + [more[1]];
      }
    }
  }

  // ----- No record is lost -----

  function Contribution(c: Setting, task: Task, key: string): int {
    if task.op.Record? && task.phase.Done? && task.phase.written && Key(c, task.op) == key then task.op.amount else 0
  }

  /** The amounts written under a key. */
  function Written(c: Setting, tasks: seq<Task>, key: string): int {
    if tasks == [] then 0
    else Written(c, tasks[..|tasks| - 1], key) + Contribution(c, tasks[|tasks| - 1], key)
  }

  ghost predicate TaskInOrder(c: Setting, store: map<string, string>, tasks: seq<Task>, k: nat)
    requires k < |tasks|
  {
    var task := tasks[k];
    var base := Stored(c, store, Key(c, task.op));
    && (task.phase != Waiting ==> EarlierDone(tasks, k))
    && (task.phase.HasRead? ==>
          task.op.Record? && base.Some? && task.phase.current == base.value + Written(c, tasks[..k], Key(c, task.op)))
    && (task.phase.Done? && task.phase.ok && task.op.Spent? ==>
          base.Some? && task.phase.value == base.value + Written(c, tasks[..k], Key(c, task.op)))
    && (task.phase.Done? && task.phase.ok && task.op.Record? ==> task.phase.written)
  }

  predicate KeyInOrder(c: Setting, store: map<string, string>, s: State, key: string) {
    var base := Stored(c, store, key);
    Stored(c, s.store, key) == if base.Some? then Some(base.value + Written(c, s.tasks, key)) else None
  }

  ghost predicate InOrder(c: Setting, store: map<string, string>, s: State) {
    && (forall k :: 0 <= k < |s.tasks| ==> TaskInOrder(c, store, s.tasks, k))
    && (forall key: string :: KeyInOrder(c, store, s, key))
  }

  /** In every run whose calls take turns, failures of the store included, the calls take effect in call
      order: the store holds the start value plus everything written, and a spend report is the
      start value plus exactly what the calls before it wrote. */
  lemma {:induction false} CallsTakeEffectInOrder(c: Setting, store: map<string, string>, steps: seq<Step>)
    requires ReadsBack(c.bigInt) && TakesTurns(c, store, steps)
    ensures InOrder(c, store, After(c, store, steps))
  {
    if steps != [] {
      var s, step := After(c, store, steps[..|steps| - 1]), steps[|steps| - 1];
      TakesTurnsStep(c, store, steps);
      CallsTakeEffectInOrder(c, store, steps[..|steps| - 1]);
      if Apply(c, s, step) != s {
        match step
        case Call(op) => CallStep(c, store, s, op);
        case Read(k, ok) => ReadStep(c, store, s, k, ok);
        case Write(k, ok, effect) => WriteStep(c, store, s, k, ok, effect);
      }
    }
  }

  lemma {:induction false} WrittenUpdate(c: Setting, tasks: seq<Task>, k: nat, task: Task, key: string)
    requires k < |tasks|
    ensures Written(c, tasks[k := task], key)
         == Written(c, tasks, key) - Contribution(c, tasks[k], key) + Contribution(c, task, key)
  {
    var n := |tasks| - 1;
    if k == n {
      assert tasks[k := task][..n] == tasks[..n];
    } else {
      assert tasks[k := task][..n] == tasks[..n][k := task];
      WrittenUpdate(c, tasks[..n], k, task, key);
    }
  }

  /** Calls that are not done have written nothing. */
  lemma {:induction false} WrittenUpTo(c: Setting, tasks: seq<Task>, k: nat, key: string)
    requires k <= |tasks| && forall j :: k <= j < |tasks| ==> !tasks[j].phase.Done?
    ensures Written(c, tasks, key) == Written(c, tasks[..k], key)
  {
    if k < |tasks| {
      WrittenUpTo(c, tasks[..|tasks| - 1], k, key);
      assert tasks[..|tasks| - 1][..k] == tasks[..k];
    } else {
      assert tasks[..k] == tasks;
    }
  }

  lemma {:induction false} CallStep(c: Setting, store: map<string, string>, s: State, op: Op)
    requires InOrder(c, store, s) && op.rule < |c.rules|
    ensures InOrder(c, store, Apply(c, s, Call(op)))
  {
    var tasks := s.tasks + [Task(op, Waiting)];
    assert tasks[..|s.tasks|] == s.tasks;
    forall key: string ensures KeyInOrder(c, store, Apply(c, s, Call(op)), key) {
      assert KeyInOrder(c, store, s, key);
    }
    forall k | 0 <= k < |tasks| ensures TaskInOrder(c, store, tasks, k) {
      if k < |s.tasks| {
        assert TaskInOrder(c, store, s.tasks, k);
        assert tasks[..k] == s.tasks[..k];
      }
    }
  }

  /** Only the first call that is not done can move. */
  lemma LaterCallsWait(c: Setting, store: map<string, string>, s: State, k: nat)
    requires InOrder(c, store, s) && k < |s.tasks| && !s.tasks[k].phase.Done?
    ensures forall j :: k < j < |s.tasks| ==> s.tasks[j].phase == Waiting
  {
    forall j | k < j < |s.tasks| ensures s.tasks[j].phase == Waiting {
      assert TaskInOrder(c, store, s.tasks, j);
    }
  }

  lemma {:induction false} ReadStep(c: Setting, store: map<string, string>, s: State, k: nat, ok: bool)
    requires InOrder(c, store, s) && k < |s.tasks| && s.tasks[k].phase == Waiting && EarlierDone(s.tasks, k)
    ensures InOrder(c, store, Apply(c, s, Read(k, ok)))
  {
    var s' := Apply(c, s, Read(k, ok));
    var task' := s'.tasks[k];
    LaterCallsWait(c, store, s, k);
    WrittenUpTo(c, s.tasks, k, Key(c, task'.op));
    assert KeyInOrder(c, store, s, Key(c, task'.op));
    forall key: string ensures KeyInOrder(c, store, s', key) {
      assert KeyInOrder(c, store, s, key);
      WrittenUpdate(c, s.tasks, k, task', key);
    }
    forall j | 0 <= j < |s'.tasks| ensures TaskInOrder(c, store, s'.tasks, j) {
      assert TaskInOrder(c, store, s.tasks, j);
      ReadTask(c, store, s, k, ok, j);
    }
  }

  lemma ReadTask(c: Setting, store: map<string, string>, s: State, k: nat, ok: bool, j: nat)
    requires k < |s.tasks| && s.tasks[k].phase == Waiting && EarlierDone(s.tasks, k)
    requires j < |s.tasks| && TaskInOrder(c, store, s.tasks, j) && (j > k ==> s.tasks[j].phase == Waiting)
    requires KeyInOrder(c, store, s, Key(c, s.tasks[k].op))
    requires Written(c, s.tasks, Key(c, s.tasks[k].op)) == Written(c, s.tasks[..k], Key(c, s.tasks[k].op))
    ensures TaskInOrder(c, store, Apply(c, s, Read(k, ok)).tasks, j)
  {
    if j <= k {
      assert Apply(c, s, Read(k, ok)).tasks[..j] == s.tasks[..j];
    }
  }

  lemma {:induction false} WriteStep(c: Setting, store: map<string, string>, s: State, k: nat, ok: bool, effect: bool)
    requires InOrder(c, store, s) && ReadsBack(c.bigInt)
    requires k < |s.tasks| && s.tasks[k].phase.HasRead? && s.tasks[k].op.Record?
    ensures InOrder(c, store, Apply(c, s, Write(k, ok, effect)))
  {
    var s' := Apply(c, s, Write(k, ok, effect));
    LaterCallsWait(c, store, s, k);
    var next := s.tasks[k].phase.current + s.tasks[k].op.amount;
    assert TaskInOrder(c, store, s.tasks, k);
    WrittenUpTo(c, s.tasks, k, Key(c, s.tasks[k].op));
    NumeralIsNotEmpty(next);
    forall key: string ensures KeyInOrder(c, store, s', key) {
      WrittenUpdate(c, s.tasks, k, s'.tasks[k], key);
      assert KeyInOrder(c, store, s, key) && KeyInOrder(c, store, s, Key(c, s.tasks[k].op));
      WriteKey(c, store, s, s', s.tasks[k].op, next, SignedDecimal(next), ok || effect, key);
    }
    forall j | 0 <= j < |s'.tasks| ensures TaskInOrder(c, store, s'.tasks, j) {
      WriteTask(c, store, s.tasks, k, s'.tasks[k], j);
    }
  }

  lemma WriteKey(c: Setting, store: map<string, string>, s: State, s': State, op: Op, next: int, text: string,
                 written: bool,
                 key: string)
    requires KeyInOrder(c, store, s, key) && KeyInOrder(c, store, s, Key(c, op)) && op.Record?
    requires Stored(c, store, Key(c, op)).Some?
    requires next == Stored(c, store, Key(c, op)).value + Written(c, s.tasks, Key(c, op)) + op.amount
    requires text != "" && c.bigInt(text) == Some(next)
    requires s'.store == if written then s.store[Key(c, op) := text] else s.store
    requires Written(c, s'.tasks, key)
          == Written(c, s.tasks, key) + if written && key == Key(c, op) then op.amount else 0
    ensures KeyInOrder(c, store, s', key)
  {
  }

  lemma {:induction false} WriteTask(c: Setting, store: map<string, string>, tasks: seq<Task>, k: nat, task: Task,
                                     j: nat)
    requires k < |tasks| && j < |tasks| && TaskInOrder(c, store, tasks, k) && TaskInOrder(c, store, tasks, j)
    requires tasks[k].phase.HasRead? && (forall i :: k < i < |tasks| ==> tasks[i].phase == Waiting)
    requires task.op == tasks[k].op && task.phase.Done? && (task.phase.ok ==> task.phase.written)
    ensures TaskInOrder(c, store, tasks[k := task], j)
  {
    if j <= k {
      assert tasks[k := task][..j] == tasks[..j];
    }
  }

  lemma NumeralIsNotEmpty(n: int)
    ensures SignedDecimal(n) != ""
  {
  }

  // ----- Agreement with the in-memory tracker -----

  /** What the in-memory tracker has for a rule, identified by reference, after some calls. */
  function MemorySpent(tasks: seq<Task>, rule: nat): int {
    if tasks == [] then 0
    else
      var op := tasks[|tasks| - 1].op;
      MemorySpent(tasks[..|tasks| - 1], rule) + if op.Record? && op.rule == rule then op.amount else 0
  }

  /** Every spend reported is the one the in-memory tracker would have reported to that call. */
  ghost predicate ReportsAsMemory(s: State) {
    forall k :: 0 <= k < |s.tasks| && s.tasks[k].op.Spent? && s.tasks[k].phase.Done? ==>
      s.tasks[k].phase.ok && s.tasks[k].phase.value == MemorySpent(s.tasks[..k], s.tasks[k].op.rule)
  }

  /** The store never fails. */
  predicate Reliable(steps: seq<Step>) { forall step <- steps :: !step.Call? ==> step.ok }

  predicate KeysDistinct(c: Setting) {
    forall i, j :: 0 <= i < j < |c.rules| ==> KeyOf(c.ns, c.rules[i]) != KeyOf(c.ns, c.rules[j])
  }

  /** On a reliable store that starts empty, the tracker reports what the in-memory tracker would, in
      every run whose calls take turns, exactly when no two rules share a key. */
  lemma ReportsAsMemoryIffKeysDistinct(c: Setting)
    requires ReadsBack(c.bigInt)
    ensures KeysDistinct(c) <==>
      forall steps :: Reliable(steps) && TakesTurns(c, map[], steps) ==> ReportsAsMemory(After(c, map[], steps))
  {
    if KeysDistinct(c) {
      forall steps | Reliable(steps) && TakesTurns(c, map[], steps) ensures ReportsAsMemory(After(c, map[], steps)) {
        ReportsAgree(c, steps);
      }
    } else {
      var i, j :| 0 <= i < j < |c.rules| && KeyOf(c.ns, c.rules[i]) == KeyOf(c.ns, c.rules[j]);
      var steps := SharedKeyMixes(c, i, j);
    }
  }

  ghost predicate Sound(c: Setting, s: State) {
    && (forall k :: 0 <= k < |s.tasks| ==> s.tasks[k].op.rule < |c.rules|)
    && (forall k :: 0 <= k < |s.tasks| && s.tasks[k].phase.Done? ==> s.tasks[k].phase.ok)
  }

  lemma {:induction false} ReliableMeansSound(c: Setting, steps: seq<Step>)
    requires ReadsBack(c.bigInt) && Reliable(steps) && TakesTurns(c, map[], steps)
    ensures Sound(c, After(c, map[], steps))
  {
    if steps != [] {
      var before, step := steps[..|steps| - 1], steps[|steps| - 1];
      assert forall e <- before :: e in steps;
      assert step in steps;
      TakesTurnsStep(c, map[], steps);
      ReliableMeansSound(c, before);
      CallsTakeEffectInOrder(c, map[], before);
      var s := After(c, map[], before);
      forall key: string ensures Stored(c, s.store, key).Some? {
        assert KeyInOrder(c, map[], s, key);
      }
      SoundStep(c, s, step);
    }
  }

  lemma SoundStep(c: Setting, s: State, step: Step)
    requires Sound(c, s) && (!step.Call? ==> step.ok) && forall key: string :: Stored(c, s.store, key).Some?
    ensures Sound(c, Apply(c, s, step))
  {
  }

  lemma {:induction false} ReportsAgree(c: Setting, steps: seq<Step>)
    requires ReadsBack(c.bigInt) && Reliable(steps) && TakesTurns(c, map[], steps) && KeysDistinct(c)
    ensures ReportsAsMemory(After(c, map[], steps))
  {
    var s := After(c, map[], steps);
    CallsTakeEffectInOrder(c, map[], steps);
    ReliableMeansSound(c, steps);
    forall k | 0 <= k < |s.tasks| && s.tasks[k].op.Spent? && s.tasks[k].phase.Done?
      ensures s.tasks[k].phase.ok && s.tasks[k].phase.value == MemorySpent(s.tasks[..k], s.tasks[k].op.rule)
    {
      assert TaskInOrder(c, map[], s.tasks, k);
      forall j | 0 <= j < k ensures s.tasks[j].op.Record? ==> s.tasks[j].phase.written {
        assert TaskInOrder(c, map[], s.tasks, j);
      }
      SameTotals(c, s.tasks[..k], s.tasks[k].op.rule);
    }
  }

  lemma {:induction false} SameTotals(c: Setting, tasks: seq<Task>, rule: nat)
    requires KeysDistinct(c) && rule < |c.rules|
    requires forall j :: 0 <= j < |tasks| ==> tasks[j].op.rule < |c.rules| && tasks[j].phase.Done?
    requires forall j :: 0 <= j < |tasks| && tasks[j].op.Record? ==> tasks[j].phase.written
    ensures Written(c, tasks, KeyOf(c.ns, c.rules[rule])) == MemorySpent(tasks, rule)
  {
    if tasks != [] {
      SameTotals(c, tasks[..|tasks| - 1], rule);
      var other := tasks[|tasks| - 1].op.rule;
      assert other != rule ==> KeyOf(c.ns, c.rules[other]) != KeyOf(c.ns, c.rules[rule]);
    }
  }

  /** Recording 1 for one rule shows up under the other. */
  lemma {:induction false} SharedKeyMixes(c: Setting, i: nat, j: nat) returns (steps: seq<Step>)
    requires ReadsBack(c.bigInt) && i < j < |c.rules| && KeyOf(c.ns, c.rules[i]) == KeyOf(c.ns, c.rules[j])
    ensures Reliable(steps) && TakesTurns(c, map[], steps) && !ReportsAsMemory(After(c, map[], steps))
  {
    steps := RecordThenReport(c, i, j);
    var tasks := After(c, map[], steps).tasks;
    assert MemorySpent(tasks[..1], j) == 0 by { assert tasks[..1][..0] == []; }
    assert tasks[1].phase.value == 1;
  }

  lemma {:induction false} RecordThenReport(c: Setting, i: nat, j: nat) returns (steps: seq<Step>)
    requires ReadsBack(c.bigInt) && i < j < |c.rules| && KeyOf(c.ns, c.rules[i]) == KeyOf(c.ns, c.rules[j])
    ensures Reliable(steps) && TakesTurns(c, map[], steps)
    ensures After(c, map[], steps).tasks
         == [Task(Record(i, 1), Done(true, 1, true)), Task(Spent(j), Done(true, 1, false))]
  {
    var key := KeyOf(c.ns, c.rules[i]);
    var recorded := Task(Record(i, 1), Done(true, 1, true));
    steps := FirstReads(c, i, 1, Spent(j));
    var s := Extend(c, map[], steps, Write(0, true, true));
    assert s == State(map[key := SignedDecimal(1)], [recorded, Task(Spent(j), Waiting)]);
    steps := steps + [Write(0, true, true)];
    NumeralIsNotEmpty(1);
    assert Stored(c, s.store, key) == Some(1);
    s := Extend(c, map[], steps, Read(1, true));
    assert s.tasks == [recorded, Task(Spent(j), Done(true, 1, false))];
    steps := steps + [Read(1, true)];
  }

  /** A recording call and another one are made, and the first one reads. */
  lemma FirstReads(c: Setting, rule: nat, a: int, second: Op) returns (steps: seq<Step>)
    requires rule < |c.rules| && second.rule < |c.rules|
    ensures Reliable(steps) && TakesTurns(c, map[], steps)
    ensures After(c, map[], steps) == State(map[], [Task(Record(rule, a), HasRead(0)), Task(second, Waiting)])
  {
    var first := Record(rule, a);
    steps := [];
    var s := Extend(c, map[], steps, Call(first));
    assert s == State(map[], [Task(first, Waiting)]);
    steps := steps + [Call(first)];
    s := Extend(c, map[], steps, Call(second));
    assert s == State(map[], [Task(first, Waiting), Task(second, Waiting)]);
    steps := steps + [Call(second)];
    s := Extend(c, map[], steps, Read(0, true));
    steps := steps + [Read(0, true)];
  }

  lemma Extend(c: Setting, store: map<string, string>, steps: seq<Step>, step: Step) returns (s: State)
    ensures s == After(c, store, steps + [step]) == Apply(c, After(c, store, steps), step)
    ensures TakesTurns(c, store, steps + [step])
         <==> TakesTurns(c, store, steps) && InTurn(After(c, store, steps), step)
    ensures TakesTurns(c, store, [])
  {
    var more := steps + [step];
    assert more[..|more| - 1] == steps;
    TakesTurnsStep(c, store, more);
    s := After(c, store, more);
  }

  // ----- Why the calls must take turns -----

  /** Without turns a record is lost: for every rule and any two amounts, two calls that both read before
      either writes succeed, on a reliable store, and only the second one remains. */
  lemma {:induction false} OverlapLosesARecord(c: Setting, rule: nat, a: int, b: int) returns (steps: seq<Step>)
    requires ReadsBack(c.bigInt) && rule < |c.rules|
    ensures Reliable(steps) && !TakesTurns(c, map[], steps)
    ensures var s, key := After(c, map[], steps), KeyOf(c.ns, c.rules[rule]);
      && s.tasks == [Task(Record(rule, a), Done(true, a, true)), Task(Record(rule, b), Done(true, b, true))]
      && Stored(c, s.store, key) == Some(b) && Written(c, s.tasks, key) == a + b
      && (InOrder(c, map[], s) ==> a == 0)
  {
    var key := KeyOf(c.ns, c.rules[rule]);
    steps := OverlappedRun(c, rule, a, b);
    var s := After(c, map[], steps);
    NumeralIsNotEmpty(b);
    WrittenByTwo(c, s.tasks, key, a, b);
    assert InOrder(c, map[], s) ==> KeyInOrder(c, map[], s, key);
  }

  lemma {:induction false} OverlappedRun(c: Setting, rule: nat, a: int, b: int) returns (steps: seq<Step>)
    requires rule < |c.rules|
    ensures Reliable(steps) && !TakesTurns(c, map[], steps)
    ensures After(c, map[], steps)
         == State(map[KeyOf(c.ns, c.rules[rule]) := SignedDecimal(b)],
                  [Task(Record(rule, a), Done(true, a, true)), Task(Record(rule, b), Done(true, b, true))])
  {
    steps := BothRead(c, rule, a, b);
    var s := Extend(c, map[], steps, Write(0, true, true));
    steps := steps + [Write(0, true, true)];
    s := Extend(c, map[], steps, Write(1, true, true));
    steps := steps + [Write(1, true, true)];
    BothWrite(c, rule, a, b);
  }

  lemma BothRead(c: Setting, rule: nat, a: int, b: int) returns (steps: seq<Step>)
    requires rule < |c.rules|
    ensures Reliable(steps) && !TakesTurns(c, map[], steps)
    ensures After(c, map[], steps)
         == State(map[], [Task(Record(rule, a), HasRead(0)), Task(Record(rule, b), HasRead(0))])
  {
    steps := FirstReads(c, rule, a, Record(rule, b));
    var before := After(c, map[], steps);
    assert !before.tasks[0].phase.Done? && !EarlierDone(before.tasks, 1);
    var s := Extend(c, map[], steps, Read(1, true));
    assert s.tasks == [Task(Record(rule, a), HasRead(0)), Task(Record(rule, b), HasRead(0))];
    steps := steps + [Read(1, true)];
  }

  lemma BothWrite(c: Setting, rule: nat, a: int, b: int)
    requires rule < |c.rules|
    ensures var key, first, second := KeyOf(c.ns, c.rules[rule]), Record(rule, a), Record(rule, b);
      Apply(c, Apply(c, State(map[], [Task(first, HasRead(0)), Task(second, HasRead(0))]), Write(0, true, true)),
            Write(1, true, true))
      == State(map[key := SignedDecimal(b)], [Task(first, Done(true, a, true)), Task(second, Done(true, b, true))])
  {
    var key, first, second := KeyOf(c.ns, c.rules[rule]), Record(rule, a), Record(rule, b);
    var s := State(map[], [Task(first, HasRead(0)), Task(second, HasRead(0))]);
    var s1 := State(map[key := SignedDecimal(a)], [Task(first, Done(true, a, true)), Task(second, HasRead(0))]);
    assert Apply(c, s, Write(0, true, true)) == s1;
    assert Apply(c, s1, Write(1, true, true)).store == map[key := SignedDecimal(b)];
  }

  lemma WrittenByTwo(c: Setting, tasks: seq<Task>, key: string, a: int, b: int)
    requires |tasks| == 2 && Contribution(c, tasks[0], key) == a && Contribution(c, tasks[1], key) == b
    ensures Written(c, tasks, key) == a + b
  {
    assert tasks[..1][..0] == [] && Written(c, tasks[..1], key) == a;
  }
}
