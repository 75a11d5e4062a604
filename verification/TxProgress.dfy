/** When the transmission task can still exit. */
module TxProgress {
  import opened Wrappers
  import opened BundleSerializer
  import opened TxShutdown
  import TxReports

  // ---------------------------------------------------------------- Dead ends

  predicate Full(s: State) { |s.queue| >= s.capacity }

  /** A producer that will push however long it takes. */
  predicate Patient(p: Producer) { (p.Holding? || p.HasQueue?) && p.patient }

  ghost predicate PatientHolder(s: State) { exists p :: p in s.producers && Patient(s.producers[p]) }

  predicate Calling(tx: Tx) { tx.Sending? && !tx.call.Over? }

  /** The task will not receive from the queue again before it takes the semaphore. */
  predicate PopsNoMore(s: State) { s.tx.Lock? || (!s.active && !s.tx.Receive? && !Locked(s.tx)) }

  /** The task waits to push its own exit command into a full queue that nobody but the task takes from. */
  predicate WaitsForRoom(s: State) { Calling(s.tx) && Full(s) }

  /** A producer that holds the semaphore waits for room, and the task, which alone can make room, for the semaphore. */
  ghost predicate WaitForEachOther(s: State) { PatientHolder(s) && Full(s) && PopsNoMore(s) }

  /** The task and a producer that holds the semaphore are to push into the last free place. */
  ghost predicate Compete(s: State) { PatientHolder(s) && Calling(s.tx) && |s.queue| + 1 >= s.capacity }

  ghost predicate Stuck(s: State) { WaitsForRoom(s) || WaitForEachOther(s) || Compete(s) }

  /** Some continuation, in which no endless wait for the queue fails, lets the transmission task exit. */
  ghost predicate CanExit(s: State) { exists actions :: Exits(s, actions) }

  ghost predicate Exits(s: State, actions: seq<Action>) {
    && Exec(s, actions).Some? && Exec(s, actions).value.tx.Exited?
    && forall i :: 0 <= i < |actions| ==> !actions[i].TxReceiveFails?
  }

  lemma {:induction false} ExecFirst(s: State, a: Action, rest: seq<Action>)
    requires Enabled(s, a) && Exec(Next(s, a), rest).Some?
    ensures Exec(s, [a] + rest) == Exec(Next(s, a), rest)
  {
    if rest == [] {
      assert [a] + rest == [] + [a];
      ExecStep(s, [], s, a);
    } else {
      var n := |rest| - 1;
      ExecFirst(s, a, rest[..n]);
      assert ([a] + rest)[..n + 1] == [a] + rest[..n];
      SameLast(s, [a] + rest, Next(s, a), rest);
    }
  }

  /** Two runs that come to the same state and go on with the same step. */
  lemma {:induction false} SameLast(s: State, x: seq<Action>, t: State, y: seq<Action>)
    requires x != [] && y != [] && x[|x| - 1] == y[|y| - 1] && Exec(s, x[..|x| - 1]) == Exec(t, y[..|y| - 1])
    ensures Exec(s, x) == Exec(t, y)
  {
  }

  lemma {:induction false} CanExitBefore(s: State, a: Action)
    requires Enabled(s, a) && !a.TxReceiveFails? && CanExit(Next(s, a))
    ensures CanExit(s)
  {
    var rest :| Exits(Next(s, a), rest);
    ExecFirst(s, a, rest);
    assert Exits(s, [a] + rest);
  }

  // ---------------------------------------------------------------- Stuck for ever

  /** A failing send callback has reset `active` before it pushes. */
  predicate CallsInactive(s: State) { Calling(s.tx) ==> !s.active }

  lemma {:induction false} LoopInactive(s: State, a: Action)
    requires CallsInactive(s) && LoopEnabled(s, a)
    ensures CallsInactive(LoopNext(s, a)) && LoopNext(s, a).active == s.active
  {
  }

  lemma {:induction false} TxCallInactive(s: State, a: Action)
    requires CallsInactive(s) && TxCallEnabled(s, a)
    ensures CallsInactive(TxCallNext(s, a)) && !TxCallNext(s, a).active
  {
  }

  lemma {:induction false} CallInactive(s: State, a: Action)
    requires CallEnabled(s, a)
    ensures CallNext(s, a).active ==> s.active
  {
  }

  lemma {:induction false} StepInactive(s: State, a: Action)
    requires CallsInactive(s) && Enabled(s, a)
    ensures CallsInactive(Next(s, a)) && (Next(s, a).active ==> s.active)
  {
    if ProducerEnabled(s, a) { ProducerFrame(s, a); }
    else if LoopEnabled(s, a) { LoopInactive(s, a); }
    else if TxCallEnabled(s, a) { TxCallInactive(s, a); }
    else if DrainEnabled(s, a) { DrainFrame(s, a); DrainInactive(s, a); }
    else if CallEnabled(s, a) { CallFrame(s, a); CallInactive(s, a); }
    else { CleanupFrame(s, a); }
  }

  lemma {:induction false} DrainInactive(s: State, a: Action)
    requires DrainEnabled(s, a)
    ensures DrainNext(s, a).active == s.active
  {
  }

  /** Where there is hardly room, producers take it away or stay. */
  lemma {:induction false} ProducerStuck(s: State, a: Action)
    requires Inv(s) && ProducerEnabled(s, a) && !Locked(s.tx) && PatientHolder(s) && s.handleValid
    ensures var t := ProducerNext(s, a); (PatientHolder(t) && t.queue == s.queue) || (|t.queue| == |s.queue| + 1 && !Full(s))
  {
    var p :| p in s.producers && Patient(s.producers[p]);
    assert Critical(s.producers[p]);
    var t := ProducerNext(s, a);
    if a.Push? {
    } else if a.p == p {
      assert a.Look?;
      assert Patient(t.producers[p]);
    } else {
      assert p in t.producers && t.producers[p] == s.producers[p];
    }
  }

  lemma {:induction false} ProducerQueue(s: State, a: Action)
    requires ProducerEnabled(s, a)
    ensures ProducerNext(s, a).queue == s.queue || (|ProducerNext(s, a).queue| == |s.queue| + 1 && !Full(s))
  {
  }

  lemma {:induction false} ProducerStaysStuck(s: State, a: Action)
    requires Inv(s) && Stuck(s) && s.handleValid && !Locked(s.tx) && ProducerEnabled(s, a)
    ensures Stuck(ProducerNext(s, a))
  {
    var t := ProducerNext(s, a);
    ProducerFrame(s, a);
    ProducerQueue(s, a);
    if WaitsForRoom(s) {
      assert WaitsForRoom(t);
    } else {
      ProducerStuck(s, a);
      if |t.queue| == |s.queue| + 1 {
        assert Compete(s);
        assert WaitsForRoom(t);
      } else {
        assert PatientHolder(t) && t.queue == s.queue;
        assert WaitForEachOther(s) ==> WaitForEachOther(t);
        assert Compete(s) ==> Compete(t);
      }
    }
  }

  /** Within the loop, a task that is not to receive again does not. */
  lemma {:induction false} LoopStuck(s: State, a: Action)
    requires LoopEnabled(s, a) && !s.active && !s.tx.Receive? && !s.tx.Lock?
    ensures var t := LoopNext(s, a); t.queue == s.queue && !t.tx.Receive? && !Locked(t.tx) && !t.active && !Calling(s.tx)
  {
  }

  lemma {:induction false} TxCallStuck(s: State, a: Action)
    requires CallsInactive(s) && TxCallEnabled(s, a) && s.handleValid && !s.cleanup.Deleted?
    ensures var t := TxCallNext(s, a);
            && t.tx.Sending? && !t.active
            && ((t.queue == s.queue && Calling(t.tx)) || (!Full(s) && |t.queue| == |s.queue| + 1 && !Calling(t.tx) && Calling(s.tx)))
  {
  }

  lemma {:induction false} TxStaysStuck(s: State, a: Action)
    requires Inv(s) && CallsInactive(s) && Stuck(s) && s.handleValid && !Locked(s.tx) && TxEnabled(s, a)
    ensures Stuck(TxNextState(s, a))
  {
    var t := TxNextState(s, a);
    TxFrame(s, a);
    if DrainEnabled(s, a) {
      NoLock(s, a);
      assert false;
    } else if LoopEnabled(s, a) {
      assert !Calling(s.tx);
      LoopStuck(s, a);
      SamePatience(s, t);
    } else {
      TxCallStuck(s, a);
      SamePatience(s, t);
      if Calling(t.tx) {
        assert Full(s) ==> WaitsForRoom(t);
        assert Compete(s) ==> Compete(t);
      } else {
        assert Compete(s) && WaitForEachOther(t);
      }
    }
  }

  lemma {:induction false} SamePatience(s: State, t: State)
    requires t.producers == s.producers
    ensures PatientHolder(t) == PatientHolder(s)
  {
  }

  /** The semaphore cannot be taken while a producer holds it. */
  lemma {:induction false} NoLock(s: State, a: Action)
    requires Inv(s) && Stuck(s) && s.handleValid && !Locked(s.tx)
    ensures !DrainEnabled(s, a)
  {
    if PatientHolder(s) {
      var p :| p in s.producers && Patient(s.producers[p]);
      assert Critical(s.producers[p]);
    }
  }

  lemma {:induction false} CallQueue(s: State, a: Action)
    requires CallEnabled(s, a) && !s.cleanup.Deleted?
    ensures CallNext(s, a).queue == s.queue || (!Full(s) && |CallNext(s, a).queue| == |s.queue| + 1)
  {
  }

  lemma {:induction false} OtherStaysStuck(s: State, a: Action)
    requires Inv(s) && Stuck(s) && s.handleValid && !Locked(s.tx) && OtherEnabled(s, a)
    ensures Stuck(OtherNext(s, a))
  {
    var t := OtherNext(s, a);
    OtherFrame(s, a);
    SamePatience(s, t);
    if CallEnabled(s, a) { CallQueue(s, a); CallInactive(s, a); } else { CleanupFrame(s, a); }
  }

  lemma {:induction false} StuckValid(s: State)
    requires Inv(s) && Stuck(s)
    ensures s.handleValid && !Locked(s.tx) && !s.cleanup.Deleted?
  {
  }

  lemma {:induction false} StuckStep(s: State, a: Action)
    requires Inv(s) && CallsInactive(s) && Stuck(s) && Enabled(s, a)
    ensures Stuck(Next(s, a))
  {
    StuckValid(s);
    if ProducerEnabled(s, a) { ProducerStaysStuck(s, a); }
    else if TxEnabled(s, a) { TxStaysStuck(s, a); }
    else { OtherStaysStuck(s, a); }
  }

  /** Once the task is stuck, no step whatever helps. */
  lemma {:induction false} StuckForever(s: State, actions: seq<Action>)
    requires Inv(s) && CallsInactive(s) && Stuck(s) && Exec(s, actions).Some?
    ensures Stuck(Exec(s, actions).value) && CallsInactive(Exec(s, actions).value) && !Exec(s, actions).value.tx.Exited?
  {
    ExecKeeps(s, actions);
    if actions != [] {
      var n := |actions| - 1;
      StuckForever(s, actions[..n]);
      ExecKeeps(s, actions[..n]);
      StuckStep(Exec(s, actions[..n]).value, actions[n]);
      StepInactive(Exec(s, actions[..n]).value, actions[n]);
    }
    StuckValid(Exec(s, actions).value);
  }

  // ---------------------------------------------------------------- The semaphore has a holder

  ghost predicate SomeCritical(s: State) { exists p :: p in s.producers && Critical(s.producers[p]) }

  /** Unless the task has locked the queue, a semaphore that is taken is held by a producer. */
  ghost predicate Held(s: State) { s.handleValid && s.queueSem == 0 && !Locked(s.tx) ==> SomeCritical(s) }

  lemma {:induction false} ProducerHeld(s: State, a: Action)
    requires Held(s) && ProducerEnabled(s, a)
    ensures Held(ProducerNext(s, a))
  {
    ProducerFrame(s, a);
    var t := ProducerNext(s, a);
    if a.Ask? {
      if s.handleValid && s.queueSem == 0 && !Locked(s.tx) {
        var p :| p in s.producers && Critical(s.producers[p]);
        assert p in t.producers && Critical(t.producers[p]);
      }
    } else {
      assert a.p in t.producers;
    }
  }

  lemma {:induction false} TxHeld(s: State, a: Action)
    requires Held(s) && TxEnabled(s, a)
    ensures Held(TxNextState(s, a))
  {
    if SendEnabled(s, a) { SendFrame(s, a); } else { DrainFrame(s, a); }
  }

  lemma {:induction false} OtherHeld(s: State, a: Action)
    requires Held(s) && Ordered(s) && OtherEnabled(s, a)
    ensures Held(OtherNext(s, a))
  {
    OtherFrame(s, a);
    if CallEnabled(s, a) { CallFrame(s, a); }
    else { assert OtherNext(s, a).handleValid ==> OtherNext(s, a).queueSem == s.queueSem; }
  }

  predicate Bounded(s: State) { |s.queue| <= s.capacity }

  lemma {:induction false} SendBounded(s: State, a: Action)
    requires Bounded(s) && SendEnabled(s, a)
    ensures |SendNext(s, a).queue| <= s.capacity
  {
    if LoopEnabled(s, a) { LoopBounded(s, a); } else { TxCallBounded(s, a); }
  }

  lemma {:induction false} LoopBounded(s: State, a: Action)
    requires Bounded(s) && LoopEnabled(s, a)
    ensures |LoopNext(s, a).queue| <= s.capacity
  {
  }

  lemma {:induction false} TxCallBounded(s: State, a: Action)
    requires Bounded(s) && TxCallEnabled(s, a)
    ensures |TxCallNext(s, a).queue| <= s.capacity
  {
  }

  lemma {:induction false} DrainBounded(s: State, a: Action)
    requires Bounded(s) && DrainEnabled(s, a)
    ensures |DrainNext(s, a).queue| <= s.capacity
  {
  }

  lemma {:induction false} CallBounded(s: State, a: Action)
    requires Bounded(s) && CallEnabled(s, a)
    ensures |CallNext(s, a).queue| <= s.capacity
  {
    if !s.cleanup.Deleted? { CallQueue(s, a); } else { CallLeaves(s, a); }
  }

  lemma {:induction false} CallLeaves(s: State, a: Action)
    requires CallEnabled(s, a) && s.cleanup.Deleted?
    ensures CallNext(s, a).queue == s.queue
  {
  }

  lemma {:induction false} StepBounded(s: State, a: Action)
    requires Bounded(s) && Enabled(s, a)
    ensures Bounded(Next(s, a))
  {
    if ProducerEnabled(s, a) { ProducerFrame(s, a); ProducerQueue(s, a); }
    else if SendEnabled(s, a) { SendFrame(s, a); SendBounded(s, a); }
    else if DrainEnabled(s, a) { DrainFrame(s, a); DrainBounded(s, a); }
    else if CallEnabled(s, a) { CallFrame(s, a); CallBounded(s, a); }
    else { CleanupFrame(s, a); }
  }

  lemma {:induction false} ReachableHeld(capacity: nat, actions: seq<Action>, s: State)
    requires Reaches(capacity, actions, s)
    ensures Held(s) && CallsInactive(s) && Bounded(s) && s.capacity == capacity
  {
    if actions != [] {
      var n := |actions| - 1;
      var t, a := Exec(Init(capacity), actions[..n]).value, actions[n];
      ReachableHeld(capacity, actions[..n], t);
      ReachableOk(capacity, actions[..n], t);
      StepInactive(t, a);
      StepBounded(t, a);
      if ProducerEnabled(t, a) { ProducerHeld(t, a); ProducerFrame(t, a); }
      else if TxEnabled(t, a) { TxHeld(t, a); TxFrame(t, a); }
      else { OtherHeld(t, a); OtherFrame(t, a); }
    }
  }

  // ---------------------------------------------------------------- A way out

  function DrainRank(tx: Tx): nat { if tx.DrainWork? then 3 + |tx.list| else if tx.Drain? then 2 else if tx.Signal? then 1 else 0 }

  lemma {:induction false} DrainExits(s: State)
    requires Locked(s.tx)
    ensures CanExit(s)
    decreases |s.queue|, DrainRank(s.tx)
  {
    if s.tx.Exited? {
      assert Exits(s, []);
    } else {
      var a := if s.tx.Drain? then TxDrain else if s.tx.DrainWork? then TxDrainNext else TxSignal;
      DrainExits(Next(s, a));
      CanExitBefore(s, a);
    }
  }

  lemma {:induction false} LockExits(s: State)
    requires s.tx.Lock? && s.queueSem > 0
    ensures CanExit(s)
  {
    DrainExits(Next(s, TxLock));
    CanExitBefore(s, TxLock);
  }

  /** A task that waits for an empty queue exits after a disconnect call by another thread. */
  lemma {:induction false} EmptyExits(s: State)
    requires s.tx.Receive? && s.queue == [] && s.handleValid && !s.cleanup.Deleted? && s.capacity > 0 && s.queueSem > 0
    ensures CanExit(s)
  {
    var c := |s.outside|;
    var s1 := s.(active := false, outside := s.outside + [Begun]);
    assert Next(s, OutsideDisconnect) == s1;
    CommandExits(s1, c);
    CanExitBefore(s, OutsideDisconnect);
  }

  lemma {:induction false} CommandExits(s: State, c: nat)
    requires s.tx.Receive? && s.queue == [] && s.handleValid && !s.cleanup.Deleted? && s.capacity > 0 && s.queueSem > 0
    requires c < |s.outside| && s.outside[c].Begun?
    ensures CanExit(s)
  {
    var s1 := s.(outside := s.outside[c := Armed]);
    assert Next(s, OutsideRead(c)) == s1;
    var s2 := s1.(queue := [Finalize], outside := s1.outside[c := Over]);
    assert Next(s1, OutsidePush(c)) == s2;
    ReceiveExits(s2);
    CanExitBefore(s1, OutsidePush(c));
    CanExitBefore(s, OutsideRead(c));
  }

  lemma {:induction false} ReceiveExits(s: State)
    requires s.tx.Receive? && s.queue == [Finalize] && s.queueSem > 0
    ensures CanExit(s)
  {
    var t := s.(queue := [], tx := Lock);
    assert Next(s, TxReceive) == t;
    LockExits(t);
    CanExitBefore(s, TxReceive);
  }

  function CallRank(tx: Tx): nat { if !tx.Sending? || tx.call.Over? then 0 else if tx.call.Armed? then 1 else 2 }

  function LoopRank(tx: Tx): nat {
    match tx
    case TestActive => 1
    case Receive => 2
    case Work(list) => 2 + 5 * |list|
    case Fetching(_, rest) => 6 + 5 * |rest|
    case Sending(_, rest, _, _, _) => 4 + 5 * |rest|
    case Sent(_, rest, _) => 3 + 5 * |rest|
    case _ => 0
  }

  /** The step that takes the loop on. */
  function LoopStep(tx: Tx): Action {
    match tx
    case Receive => TxReceive
    case Work(_) => TxNext
    case Fetching(_, _) => TxFetch(None)
    case Sending(_, _, _, _, call) => if call.Begun? then TxRead else if call.Armed? then TxPush else TxSerialize
    case Sent(_, _, _) => TxReport
    case _ => TxTest
  }

  /** What remains as it is while the loop goes on. */
  predicate Ready(s: State) { s.handleValid && !s.cleanup.Deleted? && s.capacity > 0 && (Calling(s.tx) ==> !Full(s)) }

  ghost predicate Nearer(s: State, t: State) {
    exists x ::
    && x == t.tx && !Locked(x) && !t.active && t.queueSem == s.queueSem && Ready(t)
    && (CallRank(x) < CallRank(s.tx)
        || (CallRank(x) == CallRank(s.tx) && (|t.queue| < |s.queue| || (t.queue == s.queue && LoopRank(x) < LoopRank(s.tx)))))
  }

  lemma {:induction false} LoopNearer(s: State)
    requires !s.active && Ready(s) && !Shutting(s.tx) && !Calling(s.tx) && (s.tx.Receive? ==> s.queue != [])
    ensures LoopEnabled(s, LoopStep(s.tx)) && Nearer(s, LoopNext(s, LoopStep(s.tx)))
  {
    assert !Locked(LoopNext(s, LoopStep(s.tx)).tx);
  }

  lemma {:induction false} CallNearer(s: State)
    requires !s.active && Ready(s) && Calling(s.tx)
    ensures TxCallEnabled(s, LoopStep(s.tx)) && Nearer(s, TxCallNext(s, LoopStep(s.tx)))
  {
    assert !Locked(TxCallNext(s, LoopStep(s.tx)).tx);
  }

  /** With the semaphore free, an inactive loop comes to its end. */
  lemma {:induction false} LoopExits(s: State)
    requires !s.active && Ready(s) && !Locked(s.tx) && s.queueSem > 0
    ensures CanExit(s)
    decreases CallRank(s.tx), |s.queue|, LoopRank(s.tx)
  {
    if s.tx.Lock? {
      LockExits(s);
    } else if s.tx.Receive? && s.queue == [] {
      EmptyExits(s);
    } else {
      if Calling(s.tx) { CallNearer(s); } else { LoopNearer(s); }
      var a := LoopStep(s.tx);
      LoopExits(Next(s, a));
      CanExitBefore(s, a);
    }
  }

  lemma {:induction false} FreeExits(s: State)
    requires Ready(s) && !Locked(s.tx) && s.queueSem > 0
    ensures CanExit(s)
  {
    LoopExits(Next(s, OutsideDisconnect));
    CanExitBefore(s, OutsideDisconnect);
  }

  function ProducerRank(p: Producer): nat { if p.Holding? then 3 else if p.HasQueue? then 2 else if p.Finished? then 1 else 0 }

  /** The room that the task and the producer need. */
  predicate RoomFor(s: State, p: Producer) {
    |s.queue| + (if Patient(p) then 1 else 0) + (if Calling(s.tx) then 1 else 0) <= s.capacity
  }

  /** The producer that holds the semaphore releases it. */
  lemma {:induction false} ReleaseExits(s: State, p: nat)
    requires Ready(s) && !Locked(s.tx) && p in s.producers && Critical(s.producers[p]) && RoomFor(s, s.producers[p])
    ensures CanExit(s)
    decreases ProducerRank(s.producers[p])
  {
    var q := s.producers[p];
    var a := if q.Holding? then Look(p) else if q.HasQueue? && q.patient then Push(p) else if q.HasQueue? then GiveUp(p) else ReleaseQueue(p);
    var t := Next(s, a);
    assert ProducerEnabled(s, a) && t == ProducerNext(s, a);
    if a.ReleaseQueue? { FreeExits(t); } else { ReleaseExits(t, p); }
    CanExitBefore(s, a);
  }

  function PopRank(tx: Tx): nat { if tx.Receive? then 0 else if tx.TestActive? then 1 else LoopRank(tx) }

  lemma {:induction false} LoopToReceive(s: State)
    requires s.active && !Shutting(s.tx) && !Calling(s.tx) && !s.tx.Receive?
    ensures var a := LoopStep(s.tx);
            && LoopEnabled(s, a)
            && var t := LoopNext(s, a);
               && t.active && !Shutting(t.tx) && !Calling(t.tx) && PopRank(t.tx) < PopRank(s.tx)
               && t.queue == s.queue && t.producers == s.producers && t.handleValid == s.handleValid && t.cleanup == s.cleanup && t.capacity == s.capacity
  {
  }

  /** A task that receives again makes room for the producer that waits for it. */
  lemma {:induction false} PopExits(s: State, p: nat)
    requires Ready(s) && !Shutting(s.tx) && !Calling(s.tx) && (s.active || s.tx.Receive?)
    requires Full(s) && |s.queue| == s.capacity && p in s.producers && Critical(s.producers[p])
    ensures CanExit(s)
    decreases PopRank(s.tx)
  {
    if s.tx.Receive? {
      var t := Next(s, TxReceive);
      assert LoopEnabled(s, TxReceive) && t == LoopNext(s, TxReceive);
      ReleaseExits(t, p);
      CanExitBefore(s, TxReceive);
    } else {
      LoopToReceive(s);
      var a := LoopStep(s.tx);
      PopExits(Next(s, a), p);
      CanExitBefore(s, a);
    }
  }

  /** From every reachable state the exit can still be reached, unless the task is stuck. */
  lemma {:induction false} ExitReachableIff(capacity: nat, actions: seq<Action>, s: State)
    requires Reaches(capacity, actions, s) && capacity > 0
    ensures CanExit(s) <==> !Stuck(s)
  {
    ReachableOk(capacity, actions, s);
    ReachableHeld(capacity, actions, s);
    if Stuck(s) {
      if CanExit(s) {
        var rest :| Exits(s, rest);
        StuckForever(s, rest);
        assert false;
      }
    } else if Locked(s.tx) {
      DrainExits(s);
    } else {
      NotStuckExits(s);
    }
  }

  lemma {:induction false} NotStuckExits(s: State)
    requires Inv(s) && Held(s) && CallsInactive(s) && Bounded(s) && s.capacity > 0 && !Locked(s.tx) && !Stuck(s)
    ensures CanExit(s)
  {
    if s.queueSem > 0 {
      FreeExits(s);
    } else {
      var p :| p in s.producers && Critical(s.producers[p]);
      if RoomFor(s, s.producers[p]) { ReleaseExits(s, p); } else { PopExits(s, p); }
    }
  }

  // ---------------------------------------------------------------- Reaching the dead ends

  /** Producers fill the queue. */
  lemma {:induction false} Fill(capacity: nat, before: seq<Action>, s: State, x: Routed) returns (actions: seq<Action>, t: State)
    requires Reaches(capacity, before, s) && s.capacity == capacity && |s.queue| <= capacity
    requires s.handleValid && s.cleanup.WaitRx? && s.queueSem == 1 && ProducerAt(s, 0).Idle?
    ensures Reaches(capacity, actions, t) && |t.queue| == capacity
    ensures t == s.(queue := t.queue, pushed := t.pushed, producers := t.producers) && ProducerAt(t, 0).Idle?
    decreases capacity - |s.queue|
  {
    if |s.queue| == capacity {
      actions, t := before, s;
    } else {
      actions, t := PushOne(capacity, before, s, x);
      actions, t := Fill(capacity, actions, t, x);
    }
  }

  lemma {:induction false} PushOne(capacity: nat, before: seq<Action>, s: State, x: Routed) returns (actions: seq<Action>, t: State)
    requires Reaches(capacity, before, s) && |s.queue| < s.capacity
    requires s.handleValid && s.cleanup.WaitRx? && s.queueSem == 1 && ProducerAt(s, 0).Idle?
    ensures Reaches(capacity, actions, t)
    ensures t == s.(queue := s.queue + [Bundles([x])], pushed := s.pushed + [x], producers := s.producers[0 := Idle])
  {
    actions := TakesQueue(capacity, before, s, [x], true);
    var looked := s.(queueSem := 0, producers := s.producers[0 := HasQueue([x], true)]);
    actions, t := PushHeld(capacity, actions, looked, x);
    assert looked.producers[0 := Idle] == s.producers[0 := Idle];
  }

  lemma {:induction false} TakesQueue(capacity: nat, before: seq<Action>, s: State, batch: seq<Routed>, patient: bool) returns (actions: seq<Action>)
    requires Reaches(capacity, before, s) && s.handleValid && s.cleanup.WaitRx? && s.queueSem == 1 && ProducerAt(s, 0).Idle?
    ensures Reaches(capacity, actions, s.(queueSem := 0, producers := s.producers[0 := HasQueue(batch, patient)]))
  {
    var asked := s.(producers := s.producers[0 := Waiting(batch, patient)]);
    ReachesNext(capacity, before, s, Ask(0, batch, patient), asked);
    var holding := s.(queueSem := 0, producers := s.producers[0 := Holding(batch, patient)]);
    assert asked.producers[0 := Holding(batch, patient)] == holding.producers;
    ReachesNext(capacity, before + [Ask(0, batch, patient)], asked, TakeQueue(0), holding);
    actions := Looks(capacity, before + [Ask(0, batch, patient)] + [TakeQueue(0)], holding, batch, patient);
    assert holding.producers[0 := HasQueue(batch, patient)] == s.producers[0 := HasQueue(batch, patient)];
  }

  lemma {:induction false} Looks(capacity: nat, before: seq<Action>, s: State, batch: seq<Routed>, patient: bool) returns (actions: seq<Action>)
    requires Reaches(capacity, before, s) && s.handleValid && ProducerAt(s, 0) == Holding(batch, patient)
    ensures Reaches(capacity, actions, s.(producers := s.producers[0 := HasQueue(batch, patient)]))
  {
    ReachesNext(capacity, before, s, Look(0), s.(producers := s.producers[0 := HasQueue(batch, patient)]));
    actions := before + [Look(0)];
  }

  lemma {:induction false} PushHeld(capacity: nat, before: seq<Action>, s: State, x: Routed) returns (actions: seq<Action>, t: State)
    requires Reaches(capacity, before, s) && |s.queue| < s.capacity && s.queueSem == 0 && ProducerAt(s, 0) == HasQueue([x], true)
    ensures Reaches(capacity, actions, t)
    ensures t == s.(queueSem := 1, queue := s.queue + [Bundles([x])], pushed := s.pushed + [x], producers := s.producers[0 := Idle])
  {
    var pushed := s.(queue := s.queue + [Bundles([x])], pushed := s.pushed + [x], producers := s.producers[0 := Finished]);
    ReachesNext(capacity, before, s, Push(0), pushed);
    t := pushed.(queueSem := 1, producers := s.producers[0 := Idle]);
    assert pushed.producers[0 := Idle] == t.producers;
    ReachesNext(capacity, before + [Push(0)], pushed, ReleaseQueue(0), t);
    actions := before + [Push(0)] + [ReleaseQueue(0)];
  }

  /** With every capacity the link can break while the queue is full, and then the task waits for itself. */
  lemma {:induction false} StuckReached(capacity: nat, x: Routed, stored: Stored) returns (actions: seq<Action>, s: State)
    requires capacity > 0
    ensures Reaches(capacity, actions, s) && WaitsForRoom(s) && !CanExit(s)
  {
    actions := TxReports.TookReached(capacity, x);
    var took := TxReports.Took(capacity, x);
    s := took.(queueSem := 1, producers := map[0 := Idle]);
    ReachesNext(capacity, actions, took, ReleaseQueue(0), s);
    actions, s := Fill(capacity, actions + [ReleaseQueue(0)], s, x);
    var sending := s.(tx := Sending(x, [], stored, false, Over));
    ReachesNext(capacity, actions, s, TxFetch(Some(stored)), sending);
    s := sending.(active := false, tx := Sending(x, [], stored, true, Begun));
    ReachesNext(capacity, actions + [TxFetch(Some(stored))], sending, TxDisconnect, s);
    actions := actions + [TxFetch(Some(stored))] + [TxDisconnect];
    ExitReachableIff(capacity, actions, s);
  }

  /** A link that breaks while a patient producer waits for room in a full queue leaves both waiting for each other. */
  lemma {:induction false} WaitForEachOtherReached(capacity: nat, x: Routed) returns (actions: seq<Action>, s: State)
    requires capacity > 0
    ensures Reaches(capacity, actions, s) && WaitForEachOther(s) && !CanExit(s)
  {
    actions, s := Fill(capacity, [], Init(capacity), x);
    actions := TakesQueue(capacity, actions, s, [x], true);
    var waiting := s.(queueSem := 0, producers := s.producers[0 := HasQueue([x], true)]);
    assert Patient(waiting.producers[0]);
    s := waiting.(active := false, rx := RxBegun);
    ReachesNext(capacity, actions, waiting, RxDisconnect, s);
    actions := actions + [RxDisconnect];
    assert Patient(s.producers[0]);
    ExitReachableIff(capacity, actions, s);
  }
}
