/** What a report of the transmission task says about the bytes on the link. */
module TxReports {
  import opened Wrappers
  import opened BundleSerializer
  import opened TxShutdown
  import Bundles
  import Bundle7

  /** The whole bundle has been handed to a link that took it. */
  predicate Transmitted(scan: Bundle7.Scan, a: Attempt) { a.stored.Some? && Whole(scan, a.stored.value) && !a.broken }

  /** A success is reported for exactly the attempts that found a bundle of version 6 or 7. */
  lemma {:induction false} SuccessIffAccepted(capacity: nat, actions: seq<Action>, s: State, i: nat)
    requires Reaches(capacity, actions, s) && i < |s.reports|
    ensures s.reports[i].success <==> i < |s.tried| && Outcome(s.tried[i])
    ensures i < |s.tried| ==> s.reports[i].bundle == s.tried[i].bundle
  {
    ReachableOk(capacity, actions, s);
  }

  /**
   A report is right about the transmission unless a bundle was found whose version has a serializer, and the link
   broke while it was sent or one of its EIDs cannot be written. A report of a failure is always right.
   */
  lemma {:induction false} ReportRightIff(capacity: nat, actions: seq<Action>, s: State, scan: Bundle7.Scan, i: nat)
    requires Reaches(capacity, actions, s) && i < |s.reports| && i < |s.tried|
    ensures s.reports[i].success == Transmitted(scan, s.tried[i]) <==>
            s.tried[i].stored.None? || !Accepted(s.tried[i].stored.value) || (!s.tried[i].broken && Whole(scan, s.tried[i].stored.value))
    ensures !s.reports[i].success ==> !Transmitted(scan, s.tried[i])
  {
    SuccessIffAccepted(capacity, actions, s, i);
  }

  // ---------------------------------------------------------------- A run that reports a success

  /** A link whose transmission task has taken out the only bundle. */
  function Took(capacity: nat, x: Routed): State {
    Init(capacity).(queueSem := 0, producers := map[0 := Finished], tx := Fetching(x, []), pushed := [x])
  }

  lemma {:induction false} TookReached(capacity: nat, x: Routed) returns (actions: seq<Action>)
    requires capacity > 0
    ensures Reaches(capacity, actions, Took(capacity, x))
  {
    var before := PushReached(capacity, x);
    var s0 := Init(capacity).(queueSem := 0, producers := map[0 := Finished], queue := [TxShutdown.Bundles([x])], pushed := [x]);
    ReachesNext(capacity, before, s0, TxTest, s0.(tx := Receive));
    var s1 := s0.(queue := [], tx := Work([x]));
    ReachesNext(capacity, before + [TxTest], s0.(tx := Receive), TxReceive, s1);
    assert [x][1..] == [];
    ReachesNext(capacity, before + [TxTest] + [TxReceive], s1, TxNext, Took(capacity, x));
    actions := before + [TxTest] + [TxReceive] + [TxNext];
  }

  lemma {:induction false} PushReached(capacity: nat, x: Routed) returns (actions: seq<Action>)
    requires capacity > 0
    ensures Reaches(capacity, actions, Init(capacity).(queueSem := 0, producers := map[0 := Finished], queue := [TxShutdown.Bundles([x])], pushed := [x]))
  {
    var s0 := Init(capacity);
    var s1 := s0.(producers := map[0 := Waiting([x], false)]);
    ReachesNext(capacity, [], s0, Ask(0, [x], false), s1);
    var s2 := s0.(queueSem := 0, producers := map[0 := Holding([x], false)]);
    ReachesNext(capacity, [] + [Ask(0, [x], false)], s1, TakeQueue(0), s2);
    var s3 := s2.(producers := map[0 := HasQueue([x], false)]);
    ReachesNext(capacity, [] + [Ask(0, [x], false)] + [TakeQueue(0)], s2, Look(0), s3);
    ReachesNext(capacity, [] + [Ask(0, [x], false)] + [TakeQueue(0)] + [Look(0)], s3, Push(0), s2.(producers := map[0 := Finished], queue := [TxShutdown.Bundles([x])], pushed := [x]));
    actions := [] + [Ask(0, [x], false)] + [TakeQueue(0)] + [Look(0)] + [Push(0)];
  }

  /** The link breaks while the bundle is sent. */
  lemma {:induction false} Breaks(capacity: nat, before: seq<Action>, s: State) returns (actions: seq<Action>, t: State)
    requires capacity > 0 && s.capacity == capacity && Reaches(capacity, before, s) && s.handleValid && s.queue == []
    requires s.tx.Sending? && !s.tx.broken && s.tx.call.Over? && s.cleanup.WaitRx?
    ensures Reaches(capacity, actions, t)
    ensures t == s.(active := false, queue := [Finalize], tx := s.tx.(broken := true))
  {
    var s1 := s.(active := false, tx := s.tx.(broken := true, call := Begun));
    ReachesNext(capacity, before, s, TxDisconnect, s1);
    var s2 := s1.(tx := s.tx.(broken := true, call := Armed));
    ReachesNext(capacity, before + [TxDisconnect], s1, TxRead, s2);
    t := s.(active := false, queue := [Finalize], tx := s.tx.(broken := true));
    ReachesNext(capacity, before + [TxDisconnect] + [TxRead], s2, TxPush, t);
    actions := before + [TxDisconnect] + [TxRead] + [TxPush];
  }

  /** Every bundle of version 6 or 7 can be reported as transmitted, whether or not the link takes it and it can be written. */
  lemma {:induction false} SuccessAnyway(capacity: nat, x: Routed, stored: Stored, broken: bool) returns (actions: seq<Action>, s: State)
    requires capacity > 0 && Accepted(stored)
    ensures Reaches(capacity, actions, s) && s.reports == [Report(x, true)] && s.tried == [Attempt(x, Some(stored), broken)]
  {
    actions := TookReached(capacity, x);
    s := Took(capacity, x).(tx := Sending(x, [], stored, false, Over));
    ReachesNext(capacity, actions, Took(capacity, x), TxFetch(Some(stored)), s);
    actions := actions + [TxFetch(Some(stored))];
    if broken { actions, s := Breaks(capacity, actions, s); }
    var attempt := Attempt(x, Some(stored), broken);
    var sent := s.(tx := Sent(x, [], true), tried := [attempt]);
    ReachesNext(capacity, actions, s, TxSerialize, sent);
    s := sent.(tx := Work([]), reports := [Report(x, true)]);
    ReachesNext(capacity, actions + [TxSerialize], sent, TxReport, s);
    actions := actions + [TxSerialize] + [TxReport];
  }

  /** A success is reported for a BPv7 bundle of which only the start is on the link, shorter than announced. */
  lemma {:induction false} SuccessForStump(capacity: nat, x: Routed, scan: Bundle7.Scan, b: Bundles.Bundle) returns (actions: seq<Action>, s: State)
    requires capacity > 0 && |b.destination| > 128 && Bundle7.StartsWith(b.destination, "dtn:")
    requires b.primaryLength == Bundle7.PrimarySize(scan, b)
    ensures Reaches(capacity, actions, s) && s.reports == [Report(x, true)] && s.tried == [Attempt(x, Some(Version7(b)), false)]
    ensures !Transmitted(scan, s.tried[0])
    ensures !Bundle7.EidsFit(scan, b) && |Bundle7.Stump(scan, b)| < Bundle7.SerializedSize(b)
  {
    DtnEidFits(scan, b.destination);
    AnnouncedTooMuch(scan, b);
    actions, s := SuccessAnyway(capacity, x, Version7(b), false);
  }
}
