/**
 The shutdown of a link as interleaved steps of its threads: producers that hand bundles to the
 transmission task, the task itself, the receiving task, disconnect calls, and the cleanup.
 */
module TxShutdown {
  import opened Wrappers
  import opened BundleSerializer

  /** A routed bundle, by its address. */
  type Routed = nat

  datatype Command = Bundles(list: seq<Routed>) | Finalize

  datatype Report = Report(bundle: Routed, success: bool)

  /** A turn of the sending loop: what was in storage, if anything, and whether sending it failed and broke the link. */
  datatype Attempt = Attempt(bundle: Routed, stored: Option<Stored>, broken: bool)

  /**
   `cla_get_tx_queue` and its callers, which hold the queue semaphore from `Holding` on. A patient one waits for room
   in the queue as long as it takes, as the contact manager for scheduled contacts does.
   */
  datatype Producer =
    | Idle
    | Waiting(batch: seq<Routed>, patient: bool)
    | Holding(batch: seq<Routed>, patient: bool)
    | HasQueue(batch: seq<Routed>, patient: bool)
    | Finished

  /** `cla_generic_disconnect_handler`: it has reset `active`; it has read the handle and found it valid; it is over. */
  datatype Call = Begun | Armed | Over

  /** Where the transmission task is. */
  datatype Tx =
    | TestActive
    | Receive
    | Work(list: seq<Routed>)
    | Fetching(cur: Routed, rest: seq<Routed>)
    | Sending(cur: Routed, rest: seq<Routed>, stored: Stored, broken: bool, call: Call)
    | Sent(cur: Routed, rest: seq<Routed>, ok: bool)
    | Lock
    | Drain
    | DrainWork(list: seq<Routed>)
    | Signal
    | Exited

  datatype Rx = RxRunning | RxBegun | RxArmed | RxExited

  /** Where `cla_link_wait_cleanup` is. */
  datatype Cleanup = WaitRx | WaitTx | Invalidate | Unblock | Drop | Deleted

  datatype State = State(
    capacity: nat,
    active: bool,
    queue: seq<Command>,
    queueSem: nat,
    handleValid: bool,
    rxSem: nat,
    txSem: nat,
    producers: map<nat, Producer>,
    tx: Tx,
    rx: Rx,
    cleanup: Cleanup,
    outside: seq<Call>,
    assertFailed: bool,
    metDeleted: bool,
    pushed: seq<Routed>,
    tried: seq<Attempt>,
    reports: seq<Report>)

  function ProducerAt(s: State, p: nat): Producer { if p in s.producers then s.producers[p] else Idle }

  datatype Action =
    // a producer
    | Ask(p: nat, batch: seq<Routed>, patient: bool) | TakeQueue(p: nat) | Look(p: nat) | Push(p: nat) | GiveUp(p: nat) | ReleaseQueue(p: nat)
    // the transmission task
    | TxTest | TxReceive | TxReceiveFails | TxNext | TxFetch(stored: Option<Stored>) | TxDisconnect | TxRead | TxPush | TxSerialize | TxReport
    | TxLock | TxDrain | TxDrainNext | TxSignal
    // the receiving task
    | RxDisconnect | RxRead | RxPush | RxSignal
    // disconnect calls by other threads, numbered in the order of their beginning
    | OutsideDisconnect | OutsideRead(c: nat) | OutsidePush(c: nat)
    // the cleanup
    | TakeRx | TakeTx | SetNull | TryTake | DeleteQueue

  function Init(capacity: nat): State {
    State(capacity, true, [], 1, true, 0, 0, map[], TestActive, RxRunning, WaitRx, [], false, false, [], [], [])
  }

  // ---------------------------------------------------------------- Steps

  predicate ProducerEnabled(s: State, a: Action) {
    match a
    case Ask(p, _, _) => ProducerAt(s, p).Idle? && !s.cleanup.Deleted?
    case TakeQueue(p) => ProducerAt(s, p).Waiting? && s.queueSem > 0
    case Look(p) => ProducerAt(s, p).Holding?
    case Push(p) => ProducerAt(s, p).HasQueue? && |s.queue| < s.capacity
    case GiveUp(p) => ProducerAt(s, p).HasQueue? && !ProducerAt(s, p).patient
    case ReleaseQueue(p) => ProducerAt(s, p).Finished?
    case _ => false
  }

  /** A producer that finds the handle invalid leaves without releasing the semaphore. */
  function ProducerNext(s: State, a: Action): State
    requires ProducerEnabled(s, a)
  {
    match a
    case Ask(p, batch, patient) => s.(producers := s.producers[p := Waiting(batch, patient)])
    case TakeQueue(p) =>
      var q := ProducerAt(s, p);
      s.(queueSem := s.queueSem - 1, producers := s.producers[p := Holding(q.batch, q.patient)])
    case Look(p) =>
      var q := ProducerAt(s, p);
      s.(producers := s.producers[p := if s.handleValid then HasQueue(q.batch, q.patient) else Idle])
    case Push(p) =>
      var batch := ProducerAt(s, p).batch;
      s.(queue := s.queue + [Bundles(batch)], pushed := s.pushed + batch, producers := s.producers[p := Finished])
    case GiveUp(p) => s.(producers := s.producers[p := Finished])
    case ReleaseQueue(p) => s.(queueSem := s.queueSem + 1, producers := s.producers[p := Idle])
  }

  /** The assertion of `cla_contact_tx_task_request_exit` is about the handle that was read for the call. */
  function ReadHandle(s: State): State { if s.handleValid then s else s.(assertFailed := true) }

  function AfterRead(s: State): Call { if s.handleValid then Armed else Over }

  /** A push waits for room. Nothing can be said about the time that a push into a deleted queue takes. */
  predicate CanPush(s: State) { s.cleanup.Deleted? || |s.queue| < s.capacity }

  /** The exit command is pushed without the semaphore, and to the handle that was read, whatever it is now. */
  function PushExit(s: State): State {
    if s.cleanup.Deleted? then s.(metDeleted := true) else s.(queue := s.queue + [Finalize])
  }

  predicate LoopEnabled(s: State, a: Action) {
    match a
    case TxTest => s.tx.TestActive?
    case TxReceive => s.tx.Receive? && s.queue != []
    case TxReceiveFails => s.tx.Receive?
    case TxNext => s.tx.Work?
    case TxFetch(_) => s.tx.Fetching?
    case TxSerialize => s.tx.Sending? && s.tx.call.Over?
    case TxReport => s.tx.Sent?
    case _ => false
  }

  /** The loop of `cla_contact_tx_task`; the serializer's own result has no effect on what is reported. */
  function LoopNext(s: State, a: Action): State
    requires LoopEnabled(s, a)
  {
    match a
    case TxTest => s.(tx := if s.active then Receive else Lock)
    case TxReceive => s.(queue := s.queue[1..], tx := if s.queue[0].Finalize? then Lock else Work(s.queue[0].list))
    case TxReceiveFails => s.(tx := TestActive)
    case TxNext => s.(tx := if s.tx.list == [] then TestActive else Fetching(s.tx.list[0], s.tx.list[1..]))
    case TxFetch(stored) =>
      if stored.Some? then s.(tx := Sending(s.tx.cur, s.tx.rest, stored.value, false, Over))
      else s.(tx := Sent(s.tx.cur, s.tx.rest, false), tried := s.tried + [Attempt(s.tx.cur, None, false)])
    case TxSerialize =>
      var attempt := Attempt(s.tx.cur, Some(s.tx.stored), s.tx.broken);
      s.(tx := Sent(s.tx.cur, s.tx.rest, Accepted(s.tx.stored)), tried := s.tried + [attempt])
    case TxReport => s.(tx := Work(s.tx.rest), reports := s.reports + [Report(s.tx.cur, s.tx.ok)])
  }

  predicate TxCallEnabled(s: State, a: Action) {
    match a
    case TxDisconnect => s.tx.Sending? && s.tx.call.Over?
    case TxRead => s.tx.Sending? && s.tx.call.Begun?
    case TxPush => s.tx.Sending? && s.tx.call.Armed? && CanPush(s)
    case _ => false
  }

  /** A send callback that fails calls the disconnect handler; this has no effect on what is reported either. */
  function TxCallNext(s: State, a: Action): State
    requires TxCallEnabled(s, a)
  {
    match a
    case TxDisconnect => s.(active := false, tx := s.tx.(broken := true, call := Begun))
    case TxRead => ReadHandle(s).(tx := s.tx.(call := AfterRead(s)))
    case TxPush => PushExit(s).(tx := s.tx.(call := Over))
  }

  predicate SendEnabled(s: State, a: Action) { LoopEnabled(s, a) || TxCallEnabled(s, a) }

  function SendNext(s: State, a: Action): State
    requires SendEnabled(s, a)
  {
    if LoopEnabled(s, a) then LoopNext(s, a) else TxCallNext(s, a)
  }

  predicate DrainEnabled(s: State, a: Action) {
    match a
    case TxLock => s.tx.Lock? && s.queueSem > 0
    case TxDrain => s.tx.Drain?
    case TxDrainNext => s.tx.DrainWork?
    case TxSignal => s.tx.Signal?
    case _ => false
  }

  /** What follows the loop of `cla_contact_tx_task`. */
  function DrainNext(s: State, a: Action): State
    requires DrainEnabled(s, a)
  {
    match a
    case TxLock => s.(queueSem := s.queueSem - 1, tx := Drain)
    case TxDrain =>
      if s.queue == [] then s.(tx := Signal)
      else s.(queue := s.queue[1..], tx := if s.queue[0].Finalize? then Drain else DrainWork(s.queue[0].list))
    case TxDrainNext =>
      if s.tx.list == [] then s.(tx := Drain)
      else s.(tx := DrainWork(s.tx.list[1..]), reports := s.reports + [Report(s.tx.list[0], false)])
    case TxSignal => s.(txSem := s.txSem + 1, tx := Exited)
  }

  predicate TxEnabled(s: State, a: Action) { SendEnabled(s, a) || DrainEnabled(s, a) }

  function TxNextState(s: State, a: Action): State
    requires TxEnabled(s, a)
  {
    if SendEnabled(s, a) then SendNext(s, a) else DrainNext(s, a)
  }

  predicate CallEnabled(s: State, a: Action) {
    match a
    case RxDisconnect => s.rx.RxRunning?
    case RxRead => s.rx.RxBegun?
    case RxPush => s.rx.RxArmed? && CanPush(s)
    case RxSignal => s.rx.RxRunning?
    case OutsideDisconnect => true
    case OutsideRead(c) => c < |s.outside| && s.outside[c].Begun?
    case OutsidePush(c) => c < |s.outside| && s.outside[c].Armed? && CanPush(s)
    case _ => false
  }

  /** The receiving task and `cla_generic_disconnect_handler`. */
  function CallNext(s: State, a: Action): State
    requires CallEnabled(s, a)
  {
    match a
    case RxDisconnect => s.(active := false, rx := RxBegun)
    case RxRead => ReadHandle(s).(rx := if s.handleValid then RxArmed else RxRunning)
    case RxPush => PushExit(s).(rx := RxRunning)
    case RxSignal => s.(rx := RxExited, rxSem := s.rxSem + 1)
    case OutsideDisconnect => s.(active := false, outside := s.outside + [Begun])
    case OutsideRead(c) => ReadHandle(s).(outside := s.outside[c := AfterRead(s)])
    case OutsidePush(c) => PushExit(s).(outside := s.outside[c := Over])
  }

  predicate CleanupEnabled(s: State, a: Action) {
    match a
    case TakeRx => s.cleanup.WaitRx? && s.rxSem > 0
    case TakeTx => s.cleanup.WaitTx? && s.txSem > 0
    case SetNull => s.cleanup.Invalidate?
    case TryTake => s.cleanup.Unblock?
    case DeleteQueue => s.cleanup.Drop?
    case _ => false
  }

  /** `cla_link_wait_cleanup` */
  function CleanupNext(s: State, a: Action): State
    requires CleanupEnabled(s, a)
  {
    match a
    case TakeRx => s.(rxSem := s.rxSem - 1, cleanup := WaitTx)
    case TakeTx => s.(txSem := s.txSem - 1, cleanup := Invalidate)
    case SetNull => s.(handleValid := false, cleanup := Unblock)
    case TryTake => if s.queueSem > 0 then s.(queueSem := s.queueSem - 1, cleanup := Drop) else s.(queueSem := 1)
    case DeleteQueue => s.(cleanup := Deleted)
  }

  predicate OtherEnabled(s: State, a: Action) { CallEnabled(s, a) || CleanupEnabled(s, a) }

  function OtherNext(s: State, a: Action): State
    requires OtherEnabled(s, a)
  {
    if CallEnabled(s, a) then CallNext(s, a) else CleanupNext(s, a)
  }

  predicate Enabled(s: State, a: Action) { ProducerEnabled(s, a) || TxEnabled(s, a) || OtherEnabled(s, a) }

  function Next(s: State, a: Action): State
    requires Enabled(s, a)
  {
    if ProducerEnabled(s, a) then ProducerNext(s, a) else if TxEnabled(s, a) then TxNextState(s, a) else OtherNext(s, a)
  }

  /** The state after an interleaving, if every step of it is possible. */
  function Exec(s: State, actions: seq<Action>): Option<State> {
    if actions == [] then Some(s)
    else
      match Exec(s, actions[..|actions| - 1])
      case None => None
      case Some(t) => if Enabled(t, actions[|actions| - 1]) then Some(Next(t, actions[|actions| - 1])) else None
  }

  // ---------------------------------------------------------------- What every step keeps

  function Flatten(queue: seq<Command>): seq<Routed> {
    if queue == [] then []
    else (if queue[0].Bundles? then queue[0].list else []) + Flatten(queue[1..])
  }

  lemma {:induction false} FlattenAppend(queue: seq<Command>, c: Command)
    ensures Flatten(queue + [c]) == Flatten(queue) + if c.Bundles? then c.list else []
  {
    var x := if c.Bundles? then c.list else [];
    if queue == [] {
      assert (queue + [c])[1..] == [];
    } else {
      FlattenAppend(queue[1..], c);
      assert (queue + [c])[1..] == queue[1..] + [c];
      Associative(if queue[0].Bundles? then queue[0].list else [], Flatten(queue[1..]), x);
    }
  }

  /** What the transmission task has taken out of the queue and not yet reported. */
  function InHand(tx: Tx): seq<Routed> {
    match tx
    case Work(list) => list
    case Fetching(cur, rest) => [cur] + rest
    case Sending(cur, rest, _, _, _) => [cur] + rest
    case Sent(cur, rest, _) => [cur] + rest
    case DrainWork(list) => list
    case _ => []
  }

  function Reported(reports: seq<Report>): seq<Routed> {
    seq(|reports|, i requires 0 <= i < |reports| => reports[i].bundle)
  }

  /** A report says success if the bundle was found and there is a serializer for its version. */
  predicate Outcome(a: Attempt) { a.stored.Some? && Accepted(a.stored.value) }

  predicate Shutting(tx: Tx) { tx.Lock? || Locked(tx) }

  /** Everything pushed has been reported, is being worked on or is still queued, each exactly once and in order. */
  ghost predicate Conserved(s: State) {
    s.pushed == Reported(s.reports) + InHand(s.tx) + Flatten(s.queue)
  }

  /** The reports are those of the attempts, and of failures from the time when the queue is drained. */
  ghost predicate Truthful(s: State) {
    var n := |s.reports| + if s.tx.Sent? then 1 else 0;
    && (if Shutting(s.tx) then |s.tried| <= n else |s.tried| == n)
    && (s.tx.Sent? ==> var last := s.tried[n - 1]; s.tx.cur == last.bundle && s.tx.ok == Outcome(last))
    && Matching(s.tried, s.reports)
  }

  ghost predicate Matching(tried: seq<Attempt>, reports: seq<Report>) {
    && (forall i :: 0 <= i < |reports| && i < |tried| ==> reports[i] == Report(tried[i].bundle, Outcome(tried[i])))
    && (forall i :: |tried| <= i < |reports| ==> !reports[i].success)
  }

  predicate Locked(tx: Tx) { tx.Drain? || tx.DrainWork? || tx.Signal? || tx.Exited? }

  predicate Critical(p: Producer) { p.Holding? || p.HasQueue? || p.Finished? }

  /** Until the handle is invalidated the semaphore is held by one thread at most; after it, no producer has the queue. */
  ghost predicate Excluded(s: State) {
    if s.handleValid then
      && s.queueSem <= 1
      && (s.queueSem == 1 ==> !Locked(s.tx) && forall p :: p in s.producers ==> !Critical(s.producers[p]))
      && (Locked(s.tx) ==> forall p :: p in s.producers ==> !Critical(s.producers[p]))
      && (forall p, q :: p in s.producers && q in s.producers && p != q ==> !Critical(s.producers[p]) || !Critical(s.producers[q]))
    else
      forall p :: p in s.producers ==> !s.producers[p].HasQueue? && !s.producers[p].Finished?
  }

  predicate ValidIn(c: Cleanup) { c.WaitRx? || c.WaitTx? || c.Invalidate? }

  /** The order of the shutdown. */
  ghost predicate Ordered(s: State) {
    && (s.txSem > 0 ==> s.tx.Exited?)
    && (s.cleanup.Invalidate? || !ValidIn(s.cleanup) ==> s.tx.Exited? && s.rx.RxExited?)
    && (s.cleanup.WaitTx? || s.rxSem > 0 ==> s.rx.RxExited?)
    && s.handleValid == ValidIn(s.cleanup)
    && (s.tx.Signal? || s.tx.Exited? ==> Flatten(s.queue) == [])
  }

  ghost predicate Inv(s: State) { Conserved(s) && Truthful(s) && Excluded(s) && Ordered(s) }

  lemma {:induction false} ProducerConserves(s: State, a: Action)
    requires Conserved(s) && ProducerEnabled(s, a)
    ensures Conserved(ProducerNext(s, a))
  {
    if a.Push? { FlattenAppend(s.queue, Bundles(ProducerAt(s, a.p).batch)); }
  }

  /** What no producer changes. */
  lemma {:induction false} ProducerFrame(s: State, a: Action)
    requires ProducerEnabled(s, a)
    ensures var t := ProducerNext(s, a);
            && t.tx == s.tx && t.tried == s.tried && t.reports == s.reports && t.capacity == s.capacity
            && t.handleValid == s.handleValid && t.assertFailed == s.assertFailed && t.metDeleted == s.metDeleted
            && t.outside == s.outside && t.cleanup == s.cleanup && t.active == s.active
  {
  }

  /** Only the producer that holds the semaphore pushes, so the queue is neither locked nor invalid. */
  lemma {:induction false} PushWhileValid(s: State, p: nat)
    requires Excluded(s) && ProducerAt(s, p).HasQueue?
    ensures s.handleValid && !Locked(s.tx)
  {
    assert s.producers[p].HasQueue? && Critical(s.producers[p]);
  }

  lemma {:induction false} ProducerExcluded(s: State, a: Action)
    requires Excluded(s) && ProducerEnabled(s, a)
    ensures Excluded(ProducerNext(s, a))
  {
    if a.Push? || a.GiveUp? { PushWhileValid(s, a.p); }
  }

  lemma {:induction false} ProducerOrdered(s: State, a: Action)
    requires Excluded(s) && Ordered(s) && ProducerEnabled(s, a)
    ensures Ordered(ProducerNext(s, a))
  {
    if a.Push? { PushWhileValid(s, a.p); }
  }

  lemma {:induction false} ProducerTruthful(s: State, a: Action)
    requires Truthful(s) && ProducerEnabled(s, a)
    ensures Truthful(ProducerNext(s, a))
  {
    ProducerFrame(s, a);
  }

  /** Moving the first of the bundles in hand to the reports. */
  lemma {:induction false} ReportConserves(s: State, t: State, r: Report)
    requires Conserved(s) && t.pushed == s.pushed && t.queue == s.queue
    requires t.reports == s.reports + [r] && InHand(s.tx) == [r.bundle] + InHand(t.tx)
    ensures Conserved(t)
  {
    assert Reported(t.reports) == Reported(s.reports) + [r.bundle];
    assert Reported(t.reports) + InHand(t.tx) == Reported(s.reports) + InHand(s.tx);
  }

  /** Moving the first of the commands from the queue into the hand. */
  lemma {:induction false} PopConserves(s: State, t: State)
    requires Conserved(s) && t.pushed == s.pushed && t.reports == s.reports && s.queue != [] && t.queue == s.queue[1..]
    requires InHand(s.tx) == [] && InHand(t.tx) == if s.queue[0].Bundles? then s.queue[0].list else []
    ensures Conserved(t)
  {
    var done := Reported(s.reports);
    assert InHand(t.tx) + Flatten(t.queue) == Flatten(s.queue);
    assert done + InHand(t.tx) + Flatten(t.queue) == done + (InHand(t.tx) + Flatten(t.queue));
    assert done + [] + Flatten(s.queue) == done + Flatten(s.queue);
  }

  lemma {:induction false} SendConserves(s: State, a: Action)
    requires Conserved(s) && SendEnabled(s, a)
    ensures Conserved(SendNext(s, a))
  {
    var t := SendNext(s, a);
    if a.TxReport? { ReportConserves(s, t, Report(s.tx.cur, s.tx.ok)); }
    else if a.TxReceive? { PopConserves(s, t); }
    else if LoopEnabled(s, a) { LoopKeepsHand(s, a); }
    else {
      TxCallKeepsHand(s, a);
      CommandConserves(s, t);
    }
  }

  lemma {:induction false} LoopKeepsHand(s: State, a: Action)
    requires LoopEnabled(s, a) && !a.TxReport? && !a.TxReceive?
    ensures KeepsHand(s, LoopNext(s, a))
  {
    assert InHand(LoopNext(s, a).tx) == InHand(s.tx);
  }

  ghost predicate KeepsHand(s: State, t: State) {
    exists x :: x == t.tx && InHand(x) == InHand(s.tx) && t.queue == s.queue && t.reports == s.reports && t.pushed == s.pushed
  }

  lemma {:induction false} TxCallKeepsHand(s: State, a: Action)
    requires TxCallEnabled(s, a)
    ensures SendsOn(s, TxCallNext(s, a))
  {
    assert InHand(TxCallNext(s, a).tx) == InHand(s.tx);
  }

  ghost predicate SendsOn(s: State, t: State) {
    exists x ::
    && x == t.tx && InHand(x) == InHand(s.tx) && s.tx.Sending? && x.Sending? && t.reports == s.reports && t.tried == s.tried && t.pushed == s.pushed
    && (t.queue == s.queue || t.queue == s.queue + [Finalize])
  }

  /** An exit command in the queue holds no bundle. */
  lemma {:induction false} CommandConserves(s: State, t: State)
    requires Conserved(s) && t.reports == s.reports && t.pushed == s.pushed && InHand(t.tx) == InHand(s.tx)
    requires t.queue == s.queue || t.queue == s.queue + [Finalize]
    ensures Conserved(t) && Flatten(t.queue) == Flatten(s.queue)
  {
    FlattenAppend(s.queue, Finalize);
  }

  lemma {:induction false} DrainConserves(s: State, a: Action)
    requires Conserved(s) && DrainEnabled(s, a)
    ensures Conserved(DrainNext(s, a))
  {
    var t := DrainNext(s, a);
    if a.TxDrainNext? && s.tx.list != [] { ReportConserves(s, t, Report(s.tx.list[0], false)); }
    else if a.TxDrain? && s.queue != [] { PopConserves(s, t); }
    else { assert t.queue == s.queue && t.reports == s.reports && t.pushed == s.pushed && InHand(t.tx) == InHand(s.tx); }
  }

  lemma {:induction false} SendTruthful(s: State, a: Action)
    requires Truthful(s) && SendEnabled(s, a)
    ensures Truthful(SendNext(s, a))
  {
    if LoopEnabled(s, a) { LoopTruthful(s, a); } else { TxCallKeepsHand(s, a); }
  }

  lemma {:induction false} LoopTruthful(s: State, a: Action)
    requires Truthful(s) && LoopEnabled(s, a)
    ensures Truthful(LoopNext(s, a))
  {
    if !a.TxReport? { assert LoopNext(s, a).reports == s.reports; }
  }

  lemma {:induction false} DrainTruthful(s: State, a: Action)
    requires Truthful(s) && DrainEnabled(s, a)
    ensures Truthful(DrainNext(s, a))
  {
    var t := DrainNext(s, a);
    if a.TxDrainNext? && s.tx.list != [] { FailureTruthful(s, t, s.tx.list[0]); } else { SameTruthful(s, t); }
  }

  lemma {:induction false} SameTruthful(s: State, t: State)
    requires Truthful(s) && Shutting(s.tx) && Shutting(t.tx) && t.tried == s.tried && t.reports == s.reports
    ensures Truthful(t)
  {
  }

  /** A bundle drained from the queue is reported as a failure. */
  lemma {:induction false} FailureTruthful(s: State, t: State, x: Routed)
    requires Truthful(s) && Shutting(s.tx) && Shutting(t.tx) && t.tried == s.tried && t.reports == s.reports + [Report(x, false)]
    ensures Truthful(t)
  {
  }

  /** What the transmission task does not change. */
  ghost predicate TxFramed(s: State, t: State) {
    && t.handleValid == s.handleValid && t.outside == s.outside && t.producers == s.producers && t.capacity == s.capacity
    && t.rx == s.rx && t.rxSem == s.rxSem && t.cleanup == s.cleanup && t.pushed == s.pushed
    && (t.assertFailed == s.assertFailed || (s.tx.Sending? && !s.handleValid))
    && (t.metDeleted == s.metDeleted || (s.tx.Sending? && s.cleanup.Deleted?))
  }

  /** What the sending loop does not change either. */
  ghost predicate SendFramed(s: State, t: State) {
    exists x :: x == t.tx && !Locked(x) && !Locked(s.tx) && TxFramed(s, t) && t.queueSem == s.queueSem && t.txSem == s.txSem
  }

  lemma {:induction false} LoopFrame(s: State, a: Action)
    requires LoopEnabled(s, a)
    ensures SendFramed(s, LoopNext(s, a))
  {
    assert !Locked(LoopNext(s, a).tx);
  }

  lemma {:induction false} TxCallFrame(s: State, a: Action)
    requires TxCallEnabled(s, a)
    ensures SendFramed(s, TxCallNext(s, a))
  {
    assert !Locked(TxCallNext(s, a).tx);
  }

  lemma {:induction false} SendFrame(s: State, a: Action)
    requires SendEnabled(s, a)
    ensures SendFramed(s, SendNext(s, a))
  {
    if LoopEnabled(s, a) { LoopFrame(s, a); } else { TxCallFrame(s, a); }
  }

  lemma {:induction false} DrainFrame(s: State, a: Action)
    requires DrainEnabled(s, a)
    ensures DrainFramed(s, DrainNext(s, a))
  {
    assert Locked(DrainNext(s, a).tx);
  }

  /** What draining does not change. */
  ghost predicate DrainFramed(s: State, t: State) {
    exists x :: x == t.tx && Locked(x) && TxFramed(s, t) && t.queueSem <= s.queueSem
  }

  lemma {:induction false} TxFrame(s: State, a: Action)
    requires TxEnabled(s, a)
    ensures TxFramed(s, TxNextState(s, a))
  {
    if SendEnabled(s, a) { SendFrame(s, a); } else { DrainFrame(s, a); }
  }

  lemma {:induction false} SendOrder(s: State, a: Action)
    requires Excluded(s) && Ordered(s) && SendEnabled(s, a)
    ensures Excluded(SendNext(s, a)) && Ordered(SendNext(s, a))
  {
    SendFrame(s, a);
  }

  lemma {:induction false} DrainOrder(s: State, a: Action)
    requires Excluded(s) && Ordered(s) && DrainEnabled(s, a)
    ensures Excluded(DrainNext(s, a)) && Ordered(DrainNext(s, a))
  {
    DrainFrame(s, a);
  }

  lemma {:induction false} TxKeeps(s: State, a: Action)
    requires Inv(s) && TxEnabled(s, a)
    ensures Inv(TxNextState(s, a))
  {
    if SendEnabled(s, a) { SendConserves(s, a); SendTruthful(s, a); SendOrder(s, a); }
    else { DrainConserves(s, a); DrainTruthful(s, a); DrainOrder(s, a); }
  }

  /** What no other thread changes. */
  ghost predicate OtherFramed(s: State, t: State) {
    exists x ::
    && x == t.tx == s.tx && InHand(x) == InHand(s.tx) && t.tried == s.tried && t.reports == s.reports && t.pushed == s.pushed
    && t.producers == s.producers && t.capacity == s.capacity && (t.queue == s.queue || t.queue == s.queue + [Finalize])
  }

  lemma {:induction false} CallFrame(s: State, a: Action)
    requires CallEnabled(s, a)
    ensures CallFramed(s, CallNext(s, a))
  {
    if a.RxDisconnect? || a.RxRead? || a.RxPush? || a.RxSignal? { RxFrame(s, a); } else { OutsideFrame(s, a); }
  }

  lemma {:induction false} RxFrame(s: State, a: Action)
    requires CallEnabled(s, a) && (a.RxDisconnect? || a.RxRead? || a.RxPush? || a.RxSignal?)
    ensures CallFramed(s, CallNext(s, a))
  {
    assert InHand(CallNext(s, a).tx) == InHand(s.tx) && ValidIn(CallNext(s, a).cleanup) == ValidIn(s.cleanup);
  }

  lemma {:induction false} OutsideFrame(s: State, a: Action)
    requires CallEnabled(s, a) && (a.OutsideDisconnect? || a.OutsideRead? || a.OutsidePush?)
    ensures CallFramed(s, CallNext(s, a))
  {
    assert InHand(CallNext(s, a).tx) == InHand(s.tx) && ValidIn(CallNext(s, a).cleanup) == ValidIn(s.cleanup);
  }

  ghost predicate CallFramed(s: State, t: State) {
    exists c ::
    && c == t.cleanup == s.cleanup && ValidIn(c) == ValidIn(s.cleanup) && OtherFramed(s, t) && t.handleValid == s.handleValid
    && t.queueSem == s.queueSem && t.txSem == s.txSem && (s.rx.RxExited? ==> t.rx.RxExited? && t.rxSem == s.rxSem)
  }

  lemma {:induction false} CleanupFrame(s: State, a: Action)
    requires CleanupEnabled(s, a)
    ensures CleanupFramed(s, CleanupNext(s, a)) && CleanupNext(s, a).handleValid == (s.handleValid && !a.SetNull?)
  {
    assert InHand(CleanupNext(s, a).tx) == InHand(s.tx);
  }

  ghost predicate CleanupFramed(s: State, t: State) {
    exists x ::
    && x == t.tx && InHand(x) == InHand(s.tx) && OtherFramed(s, t) && t.queue == s.queue && t.active == s.active
    && t.rx == s.rx && t.outside == s.outside && t.assertFailed == s.assertFailed && t.metDeleted == s.metDeleted
  }

  lemma {:induction false} OtherFrame(s: State, a: Action)
    requires OtherEnabled(s, a)
    ensures OtherFramed(s, OtherNext(s, a)) && OtherNext(s, a).handleValid == (s.handleValid && !a.SetNull?)
  {
    if CallEnabled(s, a) { CallFrame(s, a); } else { CleanupFrame(s, a); }
  }

  lemma {:induction false} OtherConserves(s: State, a: Action)
    requires Conserved(s) && OtherEnabled(s, a)
    ensures Conserved(OtherNext(s, a)) && Flatten(OtherNext(s, a).queue) == Flatten(s.queue)
  {
    OtherFrame(s, a);
    CommandConserves(s, OtherNext(s, a));
  }

  lemma {:induction false} OtherTruthful(s: State, a: Action)
    requires Truthful(s) && OtherEnabled(s, a)
    ensures Truthful(OtherNext(s, a))
  {
    OtherFrame(s, a);
  }

  lemma {:induction false} OtherExcluded(s: State, a: Action)
    requires Excluded(s) && Ordered(s) && OtherEnabled(s, a)
    ensures Excluded(OtherNext(s, a))
  {
    if CallEnabled(s, a) { CallFrame(s, a); } else { CleanupFrame(s, a); }
  }

  lemma {:induction false} OtherOrdered(s: State, a: Action)
    requires Inv(s) && OtherEnabled(s, a)
    ensures Ordered(OtherNext(s, a))
  {
    OtherConserves(s, a);
    if CallEnabled(s, a) { CallFrame(s, a); } else { CleanupFrame(s, a); }
  }

  lemma {:induction false} StepKeeps(s: State, a: Action)
    requires Inv(s) && Enabled(s, a)
    ensures Inv(Next(s, a))
  {
    if ProducerEnabled(s, a) { ProducerConserves(s, a); ProducerTruthful(s, a); ProducerExcluded(s, a); ProducerOrdered(s, a); }
    else if TxEnabled(s, a) { TxKeeps(s, a); }
    else { OtherConserves(s, a); OtherTruthful(s, a); OtherExcluded(s, a); OtherOrdered(s, a); }
  }

  /** Every interleaving keeps the invariant. */
  lemma {:induction false} ExecKeeps(s: State, actions: seq<Action>)
    requires Inv(s) && Exec(s, actions).Some?
    ensures Inv(Exec(s, actions).value)
  {
    if actions != [] {
      var n := |actions| - 1;
      ExecKeeps(s, actions[..n]);
      StepKeeps(Exec(s, actions[..n]).value, actions[n]);
    }
  }

  // ---------------------------------------------------------------- Whole runs

  /** The state reached from the start by an interleaving. */
  ghost predicate Reaches(capacity: nat, actions: seq<Action>, s: State) {
    Exec(Init(capacity), actions) == Some(s)
  }

  lemma {:induction false} ReachableOk(capacity: nat, actions: seq<Action>, s: State)
    requires Reaches(capacity, actions, s)
    ensures Inv(s)
  {
    ExecKeeps(Init(capacity), actions);
  }

  /** The reports are at any time those of the first bundles pushed; all of them once the task has signalled its exit. */
  lemma {:induction false} ReportedOnceInOrder(capacity: nat, actions: seq<Action>, s: State)
    requires Reaches(capacity, actions, s)
    ensures Reported(s.reports) <= s.pushed
    ensures s.tx.Exited? ==> Reported(s.reports) == s.pushed
  {
    ReachableOk(capacity, actions, s);
    assert s.pushed == Reported(s.reports) + (InHand(s.tx) + Flatten(s.queue));
  }

  /** The exit is prepared in a single step that finds the queue empty and locked. */
  lemma {:induction false} QueueEmptyAtExit(capacity: nat, actions: seq<Action>, s: State, a: Action)
    requires Reaches(capacity, actions, s) && Enabled(s, a) && !s.tx.Signal? && Next(s, a).tx.Signal?
    ensures s.queue == [] && s.handleValid && s.queueSem == 0 && Reported(s.reports) == s.pushed
    ensures forall p :: p in s.producers ==> !Critical(s.producers[p])
  {
    ReachableOk(capacity, actions, s);
    OnlyDrainSignals(s, a);
  }

  lemma {:induction false} OnlyDrainSignals(s: State, a: Action)
    requires Enabled(s, a) && !s.tx.Signal? && Next(s, a).tx.Signal?
    ensures s.tx.Drain? && s.queue == []
  {
    if ProducerEnabled(s, a) { ProducerFrame(s, a); }
    else if TxEnabled(s, a) { TxDrainSignals(s, a); }
    else { OtherFrame(s, a); }
  }

  lemma {:induction false} TxDrainSignals(s: State, a: Action)
    requires TxEnabled(s, a) && !s.tx.Signal? && TxNextState(s, a).tx.Signal?
    ensures a.TxDrain? && s.tx.Drain? && s.queue == []
  {
    if SendEnabled(s, a) {
      SendFrame(s, a);
      assert false;
    }
  }

  predicate Leaving(tx: Tx) { tx.Signal? || tx.Exited? }

  lemma {:induction false} NoPushWhileLeaving(s: State, a: Action)
    requires Excluded(s) && Leaving(s.tx) && ProducerEnabled(s, a)
    ensures ProducerNext(s, a).queue == s.queue && ProducerNext(s, a).pushed == s.pushed
  {
    if a.Push? {
      PushWhileValid(s, a.p);
      assert false;
    }
  }

  lemma {:induction false} StepAfterExit(s: State, a: Action)
    requires Inv(s) && s.tx.Exited? && Enabled(s, a)
    ensures var t := Next(s, a); t.tx.Exited? && t.pushed == s.pushed && t.reports == s.reports && t.tried == s.tried
  {
    if ProducerEnabled(s, a) { ProducerFrame(s, a); NoPushWhileLeaving(s, a); } else { OtherFrame(s, a); }
  }

  /** After the exit no bundle can be pushed, and nothing is reported any more. */
  lemma {:induction false} NothingAfterExit(s: State, actions: seq<Action>)
    requires Inv(s) && s.tx.Exited? && Exec(s, actions).Some?
    ensures var t := Exec(s, actions).value;
            t.tx.Exited? && t.pushed == s.pushed && t.reports == s.reports && t.tried == s.tried && Flatten(t.queue) == []
  {
    ExecKeeps(s, actions);
    if actions != [] {
      var n := |actions| - 1;
      NothingAfterExit(s, actions[..n]);
      ExecKeeps(s, actions[..n]);
      StepAfterExit(Exec(s, actions[..n]).value, actions[n]);
    }
  }

  lemma {:induction false} ExecStep(s: State, actions: seq<Action>, t: State, a: Action)
    requires Exec(s, actions) == Some(t) && Enabled(t, a)
    ensures Exec(s, actions + [a]) == Some(Next(t, a))
  {
    assert (actions + [a])[..|actions|] == actions;
  }

  lemma {:induction false} ReachesNext(capacity: nat, actions: seq<Action>, t: State, a: Action, u: State)
    requires Reaches(capacity, actions, t) && Enabled(t, a) && Next(t, a) == u
    ensures Reaches(capacity, actions + [a], u)
  {
    ExecStep(Init(capacity), actions, t, a);
  }
}
