/**
 Disconnect calls that come late: when the assertion in them fails, when they push into a queue that has been deleted,
 and when their command stays in the queue.
 */
module TxDisconnects {
  import opened Wrappers
  import opened TxShutdown

  // ---------------------------------------------------------------- What the cleanup has done

  /** Whether the cleanup has reset the queue's handle in the first `j` steps. */
  predicate NullBefore(actions: seq<Action>, j: nat)
    requires j <= |actions|
  {
    exists i :: 0 <= i < j && actions[i].SetNull?
  }

  /** Whether it has deleted the queue. */
  predicate DeletedBefore(actions: seq<Action>, j: nat)
    requires j <= |actions|
  {
    exists i :: 0 <= i < j && actions[i].DeleteQueue?
  }

  lemma {:induction false} BeforeStep(actions: seq<Action>, n: nat, j: nat)
    requires j <= n <= |actions|
    ensures NullBefore(actions[..n], j) == NullBefore(actions, j) && DeletedBefore(actions[..n], j) == DeletedBefore(actions, j)
  {
    if NullBefore(actions, j) {
      var i :| 0 <= i < j && actions[i].SetNull?;
      assert actions[..n][i].SetNull?;
    }
    if DeletedBefore(actions, j) {
      var i :| 0 <= i < j && actions[i].DeleteQueue?;
      assert actions[..n][i].DeleteQueue?;
    }
  }

  lemma {:induction false} HandleStep(s: State, a: Action)
    requires Enabled(s, a)
    ensures Next(s, a).handleValid == (s.handleValid && !a.SetNull?)
  {
    if ProducerEnabled(s, a) { ProducerFrame(s, a); } else if TxEnabled(s, a) { TxFrame(s, a); } else { OtherFrame(s, a); }
  }

  lemma {:induction false} CleanupDeletes(s: State, a: Action)
    requires CleanupEnabled(s, a)
    ensures CleanupNext(s, a).cleanup.Deleted? == (s.cleanup.Deleted? || a.DeleteQueue?)
  {
  }

  lemma {:induction false} DeletedStep(s: State, a: Action)
    requires Enabled(s, a)
    ensures Next(s, a).cleanup.Deleted? == (s.cleanup.Deleted? || a.DeleteQueue?)
  {
    if ProducerEnabled(s, a) { ProducerFrame(s, a); }
    else if TxEnabled(s, a) { TxFrame(s, a); }
    else if CallEnabled(s, a) { CallFrame(s, a); }
    else { CleanupDeletes(s, a); }
  }

  /** The handle is valid until the cleanup resets it, and the queue is there until the cleanup deletes it. */
  lemma {:induction false} CleanupIff(capacity: nat, actions: seq<Action>, s: State)
    requires Reaches(capacity, actions, s)
    ensures s.handleValid <==> !NullBefore(actions, |actions|)
    ensures s.cleanup.Deleted? <==> DeletedBefore(actions, |actions|)
  {
    if actions != [] {
      var n := |actions| - 1;
      var t := Exec(Init(capacity), actions[..n]).value;
      CleanupIff(capacity, actions[..n], t);
      HandleStep(t, actions[n]);
      DeletedStep(t, actions[n]);
      BeforeStep(actions, n, n);
    }
  }

  // ---------------------------------------------------------------- When the assertion fails

  /** A disconnect call by another thread that reads the handle after it has been reset. */
  predicate TooLate(actions: seq<Action>, j: nat)
    requires j < |actions|
  {
    actions[j].OutsideRead? && NullBefore(actions, j)
  }

  lemma {:induction false} CallAsserts(s: State, a: Action)
    requires Inv(s) && CallEnabled(s, a)
    ensures var t := CallNext(s, a);
            && t.assertFailed == (s.assertFailed || (a.OutsideRead? && !s.handleValid))
            && t.metDeleted == (s.metDeleted || (a.OutsidePush? && s.cleanup.Deleted?))
  {
    assert s.rx.RxBegun? || s.rx.RxArmed? ==> s.handleValid && !s.cleanup.Deleted?;
  }

  lemma {:induction false} AssertStep(s: State, a: Action)
    requires Inv(s) && Enabled(s, a)
    ensures var t := Next(s, a);
            && t.assertFailed == (s.assertFailed || (a.OutsideRead? && !s.handleValid))
            && t.metDeleted == (s.metDeleted || (a.OutsidePush? && s.cleanup.Deleted?))
  {
    if ProducerEnabled(s, a) { ProducerFrame(s, a); }
    else if TxEnabled(s, a) { TxFrame(s, a); }
    else if CallEnabled(s, a) { CallAsserts(s, a); }
    else { CleanupFrame(s, a); }
  }

  predicate SomeTooLate(actions: seq<Action>) { exists j :: 0 <= j < |actions| && TooLate(actions, j) }

  lemma {:induction false} SomeTooLateStep(actions: seq<Action>, n: nat)
    requires |actions| == n + 1
    ensures SomeTooLate(actions) <==> SomeTooLate(actions[..n]) || TooLate(actions, n)
  {
    forall j | 0 <= j < n ensures TooLate(actions[..n], j) == TooLate(actions, j) { BeforeStep(actions, n, j); }
    if SomeTooLate(actions[..n]) {
      var j :| 0 <= j < n && TooLate(actions[..n], j);
      assert TooLate(actions, j);
    }
  }

  /** The assertion that there is a queue fails if and only if another thread's call reads the handle after it was reset. */
  lemma {:induction false} FailsIff(capacity: nat, actions: seq<Action>, s: State)
    requires Reaches(capacity, actions, s)
    ensures s.assertFailed <==> SomeTooLate(actions)
  {
    if actions != [] {
      var n := |actions| - 1;
      var t := Exec(Init(capacity), actions[..n]).value;
      FailsIff(capacity, actions[..n], t);
      ReachableOk(capacity, actions[..n], t);
      AssertStep(t, actions[n]);
      CleanupIff(capacity, actions[..n], t);
      BeforeStep(actions, n, n);
      SomeTooLateStep(actions, n);
    }
  }

  // ---------------------------------------------------------------- When a push meets a deleted queue

  /** The call of number `c` has read the handle before it was reset. */
  predicate ReadInTime(actions: seq<Action>, c: nat, j: nat)
    requires j <= |actions|
  {
    exists i :: 0 <= i < j && actions[i] == OutsideRead(c) && !NullBefore(actions, i)
  }

  lemma {:induction false} ReadInTimeStep(actions: seq<Action>, c: nat, n: nat, j: nat)
    requires j <= n <= |actions|
    ensures ReadInTime(actions[..n], c, j) == ReadInTime(actions, c, j)
  {
    if i :| 0 <= i < j && actions[i] == OutsideRead(c) && !NullBefore(actions, i) {
      BeforeStep(actions, n, i);
      assert actions[..n][i] == OutsideRead(c);
    }
    if i :| 0 <= i < j && actions[..n][i] == OutsideRead(c) && !NullBefore(actions[..n], i) {
      BeforeStep(actions, n, i);
      assert actions[i] == OutsideRead(c);
    }
  }

  /** A call that can push has read a valid handle. */
  ghost predicate ArmedRead(actions: seq<Action>, s: State) {
    forall c :: 0 <= c < |s.outside| && s.outside[c].Armed? ==> ReadInTime(actions, c, |actions|)
  }

  lemma {:induction false} CallArms(s: State, a: Action, c: nat)
    requires CallEnabled(s, a) && c < |CallNext(s, a).outside| && CallNext(s, a).outside[c].Armed?
    ensures (c < |s.outside| && s.outside[c].Armed?) || (a == OutsideRead(c) && s.handleValid)
  {
  }

  lemma {:induction false} OutsideArms(s: State, a: Action, c: nat)
    requires Enabled(s, a) && c < |Next(s, a).outside| && Next(s, a).outside[c].Armed?
    ensures (c < |s.outside| && s.outside[c].Armed?) || (a == OutsideRead(c) && s.handleValid)
  {
    if ProducerEnabled(s, a) { ProducerFrame(s, a); }
    else if TxEnabled(s, a) { TxFrame(s, a); }
    else if CallEnabled(s, a) { CallArms(s, a, c); }
    else { CleanupFrame(s, a); }
  }

  lemma {:induction false} ArmedHaveRead(capacity: nat, actions: seq<Action>, s: State)
    requires Reaches(capacity, actions, s)
    ensures ArmedRead(actions, s)
  {
    if actions != [] {
      var n := |actions| - 1;
      var t := Exec(Init(capacity), actions[..n]).value;
      ArmedHaveRead(capacity, actions[..n], t);
      CleanupIff(capacity, actions[..n], t);
      BeforeStep(actions, n, n);
      forall c: nat | c < |s.outside| && s.outside[c].Armed? ensures ReadInTime(actions, c, |actions|) {
        OutsideArms(t, actions[n], c);
        ReadInTimeStep(actions, c, n, n);
        ReadLater(actions, c, n);
      }
    }
  }

  lemma {:induction false} ReadLater(actions: seq<Action>, c: nat, n: nat)
    requires |actions| == n + 1
    requires ReadInTime(actions, c, n) || (actions[n] == OutsideRead(c) && !NullBefore(actions, n))
    ensures ReadInTime(actions, c, |actions|)
  {
  }

  /** A push, after the queue was deleted, by a call that read the handle before it was reset. */
  predicate IntoDeleted(actions: seq<Action>, j: nat)
    requires j < |actions|
  {
    actions[j].OutsidePush? && DeletedBefore(actions, j) && ReadInTime(actions, actions[j].c, j)
  }

  predicate SomeIntoDeleted(actions: seq<Action>) { exists j :: 0 <= j < |actions| && IntoDeleted(actions, j) }

  lemma {:induction false} SomeIntoDeletedStep(actions: seq<Action>, n: nat)
    requires |actions| == n + 1
    ensures SomeIntoDeleted(actions) <==> SomeIntoDeleted(actions[..n]) || IntoDeleted(actions, n)
  {
    forall j | 0 <= j < n ensures IntoDeleted(actions[..n], j) == IntoDeleted(actions, j) {
      BeforeStep(actions, n, j);
      if actions[j].OutsidePush? { ReadInTimeStep(actions, actions[j].c, n, j); }
    }
    if SomeIntoDeleted(actions[..n]) {
      var j :| 0 <= j < n && IntoDeleted(actions[..n], j);
      assert IntoDeleted(actions, j);
    }
  }

  lemma {:induction false} PushHasRead(capacity: nat, actions: seq<Action>, t: State, a: Action)
    requires Reaches(capacity, actions, t) && Enabled(t, a) && a.OutsidePush?
    ensures ReadInTime(actions, a.c, |actions|)
  {
    ArmedHaveRead(capacity, actions, t);
  }

  /**
   A push meets a deleted queue if and only if another thread's call read the handle before it was reset and pushes
   after the deletion.
   */
  lemma {:induction false} MeetsDeletedIff(capacity: nat, actions: seq<Action>, s: State)
    requires Reaches(capacity, actions, s)
    ensures s.metDeleted <==> SomeIntoDeleted(actions)
  {
    if actions != [] {
      var n := |actions| - 1;
      var t := Exec(Init(capacity), actions[..n]).value;
      MeetsDeletedIff(capacity, actions[..n], t);
      ReachableOk(capacity, actions[..n], t);
      AssertStep(t, actions[n]);
      CleanupIff(capacity, actions[..n], t);
      BeforeStep(actions, n, n);
      if actions[n].OutsidePush? {
        PushHasRead(capacity, actions[..n], t, actions[n]);
        ReadInTimeStep(actions, actions[n].c, n, n);
      }
      SomeIntoDeletedStep(actions, n);
    }
  }

  // ---------------------------------------------------------------- Calls by the link's own tasks

  ghost predicate NoOutside(actions: seq<Action>) {
    forall i :: 0 <= i < |actions| ==> !actions[i].OutsideDisconnect?
  }

  lemma {:induction false} NoCall(s: State, a: Action)
    requires CallEnabled(s, a) && s.outside == [] && !a.OutsideDisconnect?
    ensures CallNext(s, a).outside == []
  {
  }

  lemma {:induction false} OutsideStep(s: State, a: Action)
    requires Inv(s) && Enabled(s, a) && s.outside == [] && !a.OutsideDisconnect?
    ensures Next(s, a).outside == [] && !a.OutsideRead? && !a.OutsidePush?
  {
    if ProducerEnabled(s, a) { ProducerFrame(s, a); }
    else if TxEnabled(s, a) { TxFrame(s, a); }
    else if CallEnabled(s, a) { NoCall(s, a); }
    else { CleanupFrame(s, a); }
  }

  /** If only the link's own tasks call the disconnect handler, they find the handle valid and the queue there. */
  lemma {:induction false} OwnTasksFindQueue(capacity: nat, actions: seq<Action>, s: State)
    requires Reaches(capacity, actions, s) && NoOutside(actions)
    ensures s.outside == [] && !s.assertFailed && !s.metDeleted
  {
    if actions != [] {
      var n := |actions| - 1;
      var t := Exec(Init(capacity), actions[..n]).value;
      OwnTasksFindQueue(capacity, actions[..n], t);
      ReachableOk(capacity, actions[..n], t);
      OutsideStep(t, actions[n]);
      AssertStep(t, actions[n]);
    }
  }

  // ---------------------------------------------------------------- When a command stays in the queue

  predicate IsPush(a: Action) { a.TxPush? || a.RxPush? || a.OutsidePush? }

  /** An exit command that is pushed before the queue is deleted, and that no attempt to drain the queue follows. */
  predicate Undrained(actions: seq<Action>, k: nat)
    requires k < |actions|
  {
    && IsPush(actions[k]) && !DeletedBefore(actions, k)
    && forall i :: k < i < |actions| ==> !actions[i].TxDrain?
  }

  /** The number of such commands. */
  function Late(actions: seq<Action>): nat {
    if actions == [] then 0
    else
      var n := |actions| - 1;
      if actions[n].TxDrain? then 0
      else Late(actions[..n]) + if IsPush(actions[n]) && !DeletedBefore(actions, n) then 1 else 0
  }

  lemma {:induction false} LateIff(actions: seq<Action>)
    ensures Late(actions) > 0 <==> exists k :: 0 <= k < |actions| && Undrained(actions, k)
  {
    if actions != [] {
      var n := |actions| - 1;
      LateIff(actions[..n]);
      if actions[n].TxDrain? { return; }
      assert Undrained(actions, n) <==> IsPush(actions[n]) && !DeletedBefore(actions, n);
      forall k | 0 <= k < n ensures Undrained(actions[..n], k) == Undrained(actions, k) {
        BeforeStep(actions, n, k);
        assert forall i :: k < i < n ==> actions[..n][i] == actions[i];
        if Undrained(actions[..n], k) {
          assert forall i :: k < i < |actions| ==> i == n || !actions[..n][i].TxDrain?;
        }
      }
      if Late(actions[..n]) > 0 {
        var k :| 0 <= k < n && Undrained(actions[..n], k);
        assert Undrained(actions, k);
      }
    }
  }

  function Finalizes(n: nat): seq<Command> { seq(n, i requires 0 <= i < n => Finalize) }

  lemma {:induction false} LeavingSignals(s: State, a: Action)
    requires Leaving(s.tx) && TxEnabled(s, a)
    ensures a.TxSignal? && TxNextState(s, a).queue == s.queue
  {
    if SendEnabled(s, a) {
      SendFrame(s, a);
      assert false;
    }
  }

  lemma {:induction false} LeavingCall(s: State, a: Action)
    requires CallEnabled(s, a)
    ensures !a.TxDrain? && CallNext(s, a).queue == s.queue + if IsPush(a) && !s.cleanup.Deleted? then [Finalize] else []
  {
  }

  /** Once the task is leaving, nothing but exit commands reaches the queue. */
  lemma {:induction false} LeavingStep(s: State, a: Action)
    requires Inv(s) && Leaving(s.tx) && Enabled(s, a)
    ensures !a.TxDrain? && Next(s, a).queue == s.queue + if IsPush(a) && !s.cleanup.Deleted? then [Finalize] else []
  {
    if ProducerEnabled(s, a) { NoPushWhileLeaving(s, a); }
    else if TxEnabled(s, a) { LeavingSignals(s, a); }
    else if CallEnabled(s, a) { LeavingCall(s, a); }
    else { CleanupFrame(s, a); }
  }

  /** When the task is leaving, the queue holds the commands that no attempt to drain it has followed. */
  lemma {:induction false} LateInQueue(capacity: nat, actions: seq<Action>, s: State)
    requires Reaches(capacity, actions, s) && Leaving(s.tx)
    ensures s.queue == Finalizes(Late(actions))
  {
    if actions != [] {
      var n := |actions| - 1;
      var t, a := Exec(Init(capacity), actions[..n]).value, actions[n];
      ReachableOk(capacity, actions[..n], t);
      if Leaving(t.tx) {
        LateInQueue(capacity, actions[..n], t);
        LeavingStep(t, a);
        CleanupIff(capacity, actions[..n], t);
        BeforeStep(actions, n, n);
      } else {
        LeavingBegins(t, a);
      }
    }
  }

  lemma {:induction false} LeavingBegins(s: State, a: Action)
    requires Enabled(s, a) && !Leaving(s.tx) && Leaving(Next(s, a).tx)
    ensures a.TxDrain? && Next(s, a).queue == []
  {
    if ProducerEnabled(s, a) { ProducerFrame(s, a); }
    else if SendEnabled(s, a) {
      SendFrame(s, a);
      assert false;
    }
    else if DrainEnabled(s, a) {}
    else { OtherFrame(s, a); }
  }

  /**
   The queue is not empty after the exit if and only if some disconnect call has pushed its command after the last
   attempt to drain the queue and before the queue was deleted, whether or not the handle was still valid then.
   */
  lemma {:induction false} CommandLeftIff(capacity: nat, actions: seq<Action>, s: State)
    requires Reaches(capacity, actions, s) && s.tx.Exited?
    ensures s.queue != [] <==> exists k :: 0 <= k < |actions| && Undrained(actions, k)
  {
    LateInQueue(capacity, actions, s);
    LateIff(actions);
  }

  // ---------------------------------------------------------------- All of it happens

  /** The state after the transmission task has exited on an idle link whose disconnection has begun. */
  function Gone(capacity: nat, rx: Rx, outside: seq<Call>): State {
    Init(capacity).(active := false, queueSem := 0, txSem := 1, tx := Exited, rx := rx, outside := outside)
  }

  lemma {:induction false} ExitFollows(capacity: nat, before: seq<Action>, s: State) returns (actions: seq<Action>)
    requires Reaches(capacity, before, s) && !s.active && s.tx.TestActive? && s.queue == [] && s.queueSem == 1 && s.txSem == 0
    ensures Reaches(capacity, actions, s.(queueSem := 0, txSem := 1, tx := Exited))
  {
    var s0 := s.(tx := Lock);
    ReachesNext(capacity, before, s, TxTest, s0);
    var s1 := s.(tx := Drain, queueSem := 0);
    ReachesNext(capacity, before + [TxTest], s0, TxLock, s1);
    var s2 := s1.(tx := Signal);
    ReachesNext(capacity, before + [TxTest] + [TxLock], s1, TxDrain, s2);
    ReachesNext(capacity, before + [TxTest] + [TxLock] + [TxDrain], s2, TxSignal, s2.(tx := Exited, txSem := 1));
    actions := before + [TxTest] + [TxLock] + [TxDrain] + [TxSignal];
  }

  /** The receiving task's command can still reach the queue after the transmission task has gone. */
  lemma {:induction false} CommandAfterExit(capacity: nat) returns (actions: seq<Action>, s: State)
    requires capacity > 0
    ensures Reaches(capacity, actions, s) && s.tx.Exited? && s.queue == [Finalize]
  {
    var s1 := Init(capacity).(active := false, rx := RxBegun);
    ReachesNext(capacity, [], Init(capacity), RxDisconnect, s1);
    actions := ExitFollows(capacity, [] + [RxDisconnect], s1);
    actions, s := RxPushes(capacity, actions, Gone(capacity, RxBegun, []));
  }

  lemma {:induction false} RxPushes(capacity: nat, before: seq<Action>, s: State) returns (actions: seq<Action>, t: State)
    requires Reaches(capacity, before, s) && s.rx.RxBegun? && s.handleValid && !s.cleanup.Deleted? && s.queue == [] && s.capacity > 0
    ensures Reaches(capacity, actions, t) && t == s.(queue := [Finalize], rx := RxRunning)
  {
    var s1 := s.(rx := RxArmed);
    ReachesNext(capacity, before, s, RxRead, s1);
    t := s.(queue := [Finalize], rx := RxRunning);
    ReachesNext(capacity, before + [RxRead], s1, RxPush, t);
    actions := before + [RxRead] + [RxPush];
  }

  /** A call by another thread has begun, and has read the handle if `armed`; then everything is gone but the queue. */
  lemma {:induction false} OutsideOutlives(capacity: nat, armed: bool) returns (actions: seq<Action>, s: State)
    ensures Reaches(capacity, actions, s)
    ensures s == Gone(capacity, RxExited, [if armed then Armed else Begun]).(rxSem := 0, txSem := 0, cleanup := Unblock, handleValid := false)
  {
    actions, s := OutsideBegins(capacity, armed);
    actions := ExitFollows(capacity, actions, s);
    s := Gone(capacity, RxRunning, s.outside);
    var s1 := s.(rx := RxExited, rxSem := 1);
    ReachesNext(capacity, actions, s, RxSignal, s1);
    actions, s := CleanupFollows(capacity, actions + [RxSignal], s1);
  }

  lemma {:induction false} OutsideBegins(capacity: nat, armed: bool) returns (actions: seq<Action>, s: State)
    ensures Reaches(capacity, actions, s) && s == Init(capacity).(active := false, outside := [if armed then Armed else Begun])
  {
    var s0 := Init(capacity).(active := false, outside := [Begun]);
    ReachesNext(capacity, [], Init(capacity), OutsideDisconnect, s0);
    actions, s := [] + [OutsideDisconnect], s0;
    if armed {
      s := s0.(outside := [Armed]);
      assert s0.outside[0 := Armed] == [Armed];
      ReachesNext(capacity, actions, s0, OutsideRead(0), s);
      actions := actions + [OutsideRead(0)];
    }
  }

  lemma {:induction false} CleanupFollows(capacity: nat, before: seq<Action>, s: State) returns (actions: seq<Action>, t: State)
    requires Reaches(capacity, before, s) && s.rxSem == 1 && s.txSem == 1 && s.cleanup.WaitRx?
    ensures Reaches(capacity, actions, t) && t == s.(rxSem := 0, txSem := 0, cleanup := Unblock, handleValid := false)
  {
    var s1 := s.(rxSem := 0, cleanup := WaitTx);
    ReachesNext(capacity, before, s, TakeRx, s1);
    var s2 := s1.(txSem := 0, cleanup := Invalidate);
    ReachesNext(capacity, before + [TakeRx], s1, TakeTx, s2);
    t := s2.(cleanup := Unblock, handleValid := false);
    ReachesNext(capacity, before + [TakeRx] + [TakeTx], s2, SetNull, t);
    actions := before + [TakeRx] + [TakeTx] + [SetNull];
  }

  /** With a disconnect call from another thread, the handle may be gone when the call reads it. */
  lemma {:induction false} OutsideCallFails(capacity: nat) returns (actions: seq<Action>, s: State)
    ensures Reaches(capacity, actions, s) && s.assertFailed
  {
    var t;
    actions, t := OutsideOutlives(capacity, false);
    assert t.outside[0 := Over] == [Over];
    s := t.(outside := [Over], assertFailed := true);
    ReachesNext(capacity, actions, t, OutsideRead(0), s);
    actions := actions + [OutsideRead(0)];
  }

  /** A call that read the handle in time may push after the reset, into a queue that nobody empties any more. */
  lemma {:induction false} CommandAfterReset(capacity: nat) returns (actions: seq<Action>, s: State)
    requires capacity > 0
    ensures Reaches(capacity, actions, s) && !s.handleValid && !s.assertFailed && s.queue == [Finalize]
  {
    var t;
    actions, t := OutsideOutlives(capacity, true);
    assert t.outside[0 := Over] == [Over];
    s := t.(outside := [Over], queue := [Finalize]);
    ReachesNext(capacity, actions, t, OutsidePush(0), s);
    actions := actions + [OutsidePush(0)];
  }

  /** Or even after the deletion of the queue, although the assertion has passed. */
  lemma {:induction false} PushMeetsDeleted(capacity: nat) returns (actions: seq<Action>, s: State)
    ensures Reaches(capacity, actions, s) && s.metDeleted && !s.assertFailed
  {
    var t;
    actions, t := OutsideOutlives(capacity, true);
    actions, t := DeletionFollows(capacity, actions, t);
    assert t.outside[0 := Over] == [Over];
    s := t.(outside := [Over], metDeleted := true);
    ReachesNext(capacity, actions, t, OutsidePush(0), s);
    actions := actions + [OutsidePush(0)];
  }

  lemma {:induction false} DeletionFollows(capacity: nat, before: seq<Action>, s: State) returns (actions: seq<Action>, t: State)
    requires Reaches(capacity, before, s) && s.cleanup.Unblock? && s.queueSem == 0
    ensures Reaches(capacity, actions, t) && t == s.(cleanup := Deleted)
  {
    var s1 := s.(queueSem := 1);
    ReachesNext(capacity, before, s, TryTake, s1);
    var s2 := s.(cleanup := Drop);
    ReachesNext(capacity, before + [TryTake], s1, TryTake, s2);
    t := s.(cleanup := Deleted);
    ReachesNext(capacity, before + [TryTake] + [TryTake], s2, DeleteQueue, t);
    actions := before + [TryTake] + [TryTake] + [DeleteQueue];
  }
}
