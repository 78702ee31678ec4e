/**
Calls that undo and calls that do again: a call that was to undo something is finished before the
same thing is done again, and no way to publish or to detach a volume takes fewer calls than the
volume manager sends.
*/
module CsiCalls {
  import opened Options
  import opened CsiVolume
  import opened CsiOrder
  import opened CsiManager

  // ----- undo before redo

  /** The call that does again what the first undoes. */
  predicate DoesAgain(undo: Rpc, redo: Rpc) {
    || (undo.UnpublishCall? && redo.PublishCall?)
    || (undo.UnstageCall? && redo.StageCall?)
    || (undo.DetachCall? && redo.AttachCall?)
  }

  /** Between the two actions the undo is answered with success, or a reboot has undone it. */
  ghost predicate Finished(actions: seq<Action>, undo: Rpc, i: int, j: int) {
    exists k :: 0 <= i < k < j < |actions| && (actions[k] == Succeed(undo) || (!undo.DetachCall? && actions[k].Reboot?))
  }

  /** No call does again what an earlier one was to undo, unless that is finished. */
  ghost predicate FinishedFirst(actions: seq<Action>, undo: Rpc) {
    forall i, j, redo :: 0 <= i < j < |actions| && actions[i] == Send(undo) && actions[j] == Send(redo) && DoesAgain(undo, redo)
      ==> Finished(actions, undo, i, j)
  }

  /** The undo has been sent, and nothing has ended it. */
  ghost predicate Outstanding(n: Node, undo: Rpc) {
    && Inv(n) && n.mem.Some?
    && match undo
       case UnpublishCall => n.mem.value.state == NodeUnpublish
       case UnstageCall => n.mem.value.state == NodeUnstage && n.plugin.staged != No
       case DetachCall => n.mem.value.state == ControllerUnpublish
       case _ => false
  }

  /** What can end an undo: its success, for a mount also a reboot, and the restart that loses an unstage. */
  ghost predicate Ends(n: Node, a: Action, undo: Rpc) {
    || a == Succeed(undo)
    || (!undo.DetachCall? && a.Reboot?)
    || (undo.UnstageCall? && LosesUnstage(n, a))
  }

  lemma SentIsOutstanding(n: Node, undo: Rpc, redo: Rpc)
    requires Inv(n) && Enabled(n, Send(undo)) && DoesAgain(undo, redo)
    ensures Outstanding(Apply(n, Send(undo)), undo)
  {
    InvStep(n, Send(undo));
  }

  lemma StaysOutstanding(n: Node, a: Action, undo: Rpc, redo: Rpc)
    requires Outstanding(n, undo) && Enabled(n, a) && !Ends(n, a, undo) && DoesAgain(undo, redo)
    ensures Outstanding(Apply(n, a), undo) && a != Send(redo)
  {
    InvStep(n, a);
  }

  /** An outstanding undo ends before the call that does again. */
  lemma {:induction false} EndsBefore(n: Node, actions: seq<Action>, undo: Rpc, redo: Rpc) returns (k: nat)
    requires Outstanding(n, undo) && Legal(n, actions) && DoesAgain(undo, redo)
    requires actions != [] && actions[|actions| - 1] == Send(redo)
    ensures k < |actions| - 1 && Legal(n, actions[..k]) && Ends(Exec(n, actions[..k]), actions[k], undo)
    decreases |actions|
  {
    assert !Ends(n, Send(redo), undo);
    hide Outstanding, Ends, Enabled, Apply, DoesAgain;
    if Ends(n, actions[0], undo) {
      k := 0;
      assert actions[..0] == [];
    } else {
      StaysOutstanding(n, actions[0], undo, redo);
      var rest := actions[1..];
      assert |rest| > 0 && rest[|rest| - 1] == Send(redo);
      k := EndsBefore(Apply(n, actions[0]), rest, undo, redo);
      assert actions[..k + 1][1..] == rest[..k];
      assert Exec(n, actions[..k + 1]) == Exec(Apply(n, actions[0]), rest[..k]);
      k := k + 1;
    }
  }

  lemma {:induction false} LegalSplit(n: Node, actions: seq<Action>, i: nat)
    requires Legal(n, actions) && i <= |actions|
    ensures Legal(n, actions[..i]) && Legal(Exec(n, actions[..i]), actions[i..])
    ensures Exec(n, actions) == Exec(Exec(n, actions[..i]), actions[i..])
    decreases i
  {
    if i == 0 {
      assert actions[..0] == [] && actions[0..] == actions;
    } else {
      assert actions[..i][1..] == actions[1..][..i - 1] && actions[1..][i - 1..] == actions[i..];
      LegalSplit(Apply(n, actions[0]), actions[1..], i - 1);
    }
  }

  /**
  In every run: between a call that undoes and the next that does the same again there is a success
  of the first, or for a mount a reboot, or for a stage the restart that takes an unfinished unstage
  for a finished one.
  */
  lemma {:induction false} EndedBetween(n: Node, actions: seq<Action>, i: nat, j: nat, undo: Rpc, redo: Rpc) returns (k: nat)
    requires Initial(n) && Legal(n, actions) && DoesAgain(undo, redo)
    requires i < j < |actions| && actions[i] == Send(undo) && actions[j] == Send(redo)
    ensures i < k < j && Legal(n, actions[..k]) && Ends(Exec(n, actions[..k]), actions[k], undo)
  {
    hide Enabled, Apply, Inv, Outstanding, Ends, Legal, Exec, Initial;
    InvInitial(n);
    LegalSplit(n, actions, i);
    LegalSplit(n, actions, i + 1);
    InvRun(n, actions[..i]);
    ExecNext(n, actions, i);
    SentIsOutstanding(Exec(n, actions[..i]), undo, redo);
    var m, rest := Exec(n, actions[..i + 1]), actions[i + 1..];
    LegalSplit(m, rest, j - i);
    assert rest[..j - i][j - i - 1] == Send(redo);
    var l := EndsBefore(m, rest[..j - i], undo, redo);
    assert rest[..j - i][..l] == rest[..l] && rest[..j - i][l] == rest[l];
    k := i + 1 + l;
    LegalSplit(n, actions, k);
    LegalSplit(n, actions[..k], i + 1);
    assert actions[..k][..i + 1] == actions[..i + 1] && actions[..k][i + 1..] == rest[..l];
  }

  lemma ExecNext(n: Node, actions: seq<Action>, i: nat)
    requires Legal(n, actions) && i < |actions| && Legal(n, actions[..i]) && Legal(n, actions[..i + 1])
    ensures Enabled(Exec(n, actions[..i]), actions[i]) && Exec(n, actions[..i + 1]) == Apply(Exec(n, actions[..i]), actions[i])
  {
    var longer := actions[..i + 1];
    assert longer[..i] == actions[..i] && longer[i..] == [actions[i]];
    LegalSplit(n, longer, i);
    var m := Exec(n, actions[..i]);
    assert [actions[i]][1..] == [];
    assert Legal(m, [actions[i]]);
    assert Exec(m, [actions[i]]) == Exec(Apply(m, actions[i]), []);
  }

  /** In every run, unpublishing and detaching are finished before they are done again. */
  lemma {:induction false} UndoneFirst(n: Node, actions: seq<Action>, undo: Rpc)
    requires Initial(n) && Legal(n, actions)
    ensures !undo.UnstageCall? || NeverLosesUnstage(n, actions) ==> FinishedFirst(actions, undo)
  {
    forall i, j, redo | !undo.UnstageCall? || NeverLosesUnstage(n, actions)
      ensures 0 <= i < j < |actions| && actions[i] == Send(undo) && actions[j] == Send(redo) && DoesAgain(undo, redo)
        ==> Finished(actions, undo, i, j)
    {
      if 0 <= i < j < |actions| && actions[i] == Send(undo) && actions[j] == Send(redo) && DoesAgain(undo, redo) {
        var k := EndedBetween(n, actions, i, j, undo, redo);
        if undo.UnstageCall? {
          NeverLosesAt(n, actions, k);
        }
      }
    }
  }

  lemma {:induction false} NeverLosesAt(n: Node, actions: seq<Action>, k: nat)
    requires Legal(n, actions) && NeverLosesUnstage(n, actions) && k < |actions| && Legal(n, actions[..k])
    ensures !LosesUnstage(Exec(n, actions[..k]), actions[k])
    decreases k
  {
    if k == 0 {
      assert actions[..0] == [];
    } else {
      assert actions[..k][1..] == actions[1..][..k - 1];
      NeverLosesAt(Apply(n, actions[0]), actions[1..], k - 1);
    }
  }

  ghost predicate AlwaysFinishedFirst(n: Node) {
    forall actions, undo :: Legal(n, actions) ==> FinishedFirst(actions, undo)
  }

  /** The exact condition, on the plugin's capabilities: every undo of every run is finished first if and only if the plugin does not stage. */
  lemma {:induction false} AlwaysFinishedFirstIff(n: Node)
    requires Initial(n)
    ensures AlwaysFinishedFirst(n) <==> !n.caps.stage
  {
    if n.caps.stage {
      var actions := StagedAgain(n);
      assert !FinishedFirst(actions, UnstageCall);
    } else {
      InvInitial(n);
      forall actions, undo | Legal(n, actions) ensures FinishedFirst(actions, undo) {
        NothingToLose(n, actions);
        UndoneFirst(n, actions, undo);
      }
    }
  }

  /** The unstage of the lossy run is sent, a restart loses it, and the volume is staged again. */
  lemma {:induction false} StagedAgain(n: Node) returns (run: seq<Action>)
    requires Initial(n) && n.caps.stage
    ensures Legal(n, run) && !FinishedFirst(run, UnstageCall)
  {
    InvInitial(n);
    run := LossyRun(n);
    LenientRun(n, run);
    var i := |run|;
    var more := RestagedAfter(Exec(n, run));
    ExecConcat(n, run, more);
    run := run + more;
    assert run[i] == Send(UnstageCall) && run[i + 1] == Restart && run[i + 2] == Mark(StageCall) && run[i + 3] == Send(StageCall);
    assert DoesAgain(UnstageCall, StageCall) && !Finished(run, UnstageCall, i, i + 3);
  }

  lemma RestagedAfter(n: Node) returns (run: seq<Action>)
    requires Inv(n) && n.caps.stage && Idle(n) && LosesUnstage(n, Restart)
    ensures run == [Send(UnstageCall), Restart, Mark(StageCall), Send(StageCall)] && Legal(n, run)
  {
    run := Extend(n, [], Send(UnstageCall));
    run := Extend(n, run, Restart);
    run := Extend(n, run, Mark(StageCall));
    run := Extend(n, run, Send(StageCall));
  }

  // ----- nothing is done twice

  /** The thing is done, and nothing has begun to undo it. */
  ghost predicate Achieved(n: Node, does: Rpc) {
    && Inv(n) && n.mem.Some? && Supported(n.caps, does)
    && match does
       case AttachCall => n.mem.value.state !in {Created, ControllerPublish} && n.disk.value.state !in {Created, ControllerPublish}
       case StageCall => n.mem.value.state in {VolReady, NodePublish, Published, NodeUnpublish, NodeUnstage} && n.mem.value.bootId != ""
       case PublishCall => n.mem.value.state in {Published, NodeUnpublish}
       case _ => false
  }

  /** What can undo it: the success of the call for that, and for a mount a reboot. */
  predicate Undoes(a: Action, does: Rpc) {
    (a.Succeed? && DoesAgain(a.rpc, does)) || (!does.AttachCall? && a.Reboot?)
  }

  lemma SuccessAchieves(n: Node, does: Rpc, undo: Rpc)
    requires Inv(n) && Enabled(n, Succeed(does)) && DoesAgain(undo, does)
    ensures Achieved(Apply(n, Succeed(does)), does)
  {
    InvStep(n, Succeed(does));
  }

  lemma StaysAttached(n: Node, a: Action)
    requires Achieved(n, AttachCall) && Enabled(n, a) && !Undoes(a, AttachCall) && Inv(Apply(n, a))
    ensures Achieved(Apply(n, a), AttachCall) && a != Send(AttachCall)
  {
    hide Mounted, BootsOk, Normal, BootRecorded, Begun, Ended;
  }

  lemma StaysStaged(n: Node, a: Action)
    requires Achieved(n, StageCall) && Enabled(n, a) && !Undoes(a, StageCall) && Inv(Apply(n, a))
    ensures Achieved(Apply(n, a), StageCall) && a != Send(StageCall)
  {
    hide Mounted, Begun, Ended;
  }

  lemma StaysPublished(n: Node, a: Action)
    requires Achieved(n, PublishCall) && Enabled(n, a) && !Undoes(a, PublishCall) && Inv(Apply(n, a))
    ensures Achieved(Apply(n, a), PublishCall) && a != Send(PublishCall)
  {
    hide Mounted, Begun, Ended;
  }

  lemma StaysAchieved(n: Node, a: Action, does: Rpc)
    requires Achieved(n, does) && Enabled(n, a) && !Undoes(a, does)
    ensures Achieved(Apply(n, a), does) && a != Send(does)
  {
    assert Inv(n) && (does.AttachCall? || does.StageCall? || does.PublishCall?);
    hide Inv, Enabled, Apply, Achieved, Undoes;
    InvStep(n, a);
    match does
    case AttachCall => StaysAttached(n, a);
    case StageCall => StaysStaged(n, a);
    case PublishCall => StaysPublished(n, a);
  }

  lemma {:induction false} UndoneBefore(n: Node, actions: seq<Action>, does: Rpc) returns (k: nat)
    requires Achieved(n, does) && Legal(n, actions) && actions != [] && actions[|actions| - 1] == Send(does)
    ensures k < |actions| - 1 && Undoes(actions[k], does)
    decreases |actions|
  {
    if Undoes(actions[0], does) {
      k := 0;
    } else {
      StaysAchieved(n, actions[0], does);
      var rest := actions[1..];
      assert |rest| > 0 && rest[|rest| - 1] == Send(does);
      k := UndoneBefore(Apply(n, actions[0]), rest, does);
      k := k + 1;
    }
  }

  /** In every run, what has been attached, staged or published is undone before the call for it is sent again. */
  lemma {:induction false} NothingTwice(n: Node, actions: seq<Action>, i: nat, j: nat, does: Rpc, undo: Rpc)
    requires Initial(n) && Legal(n, actions) && DoesAgain(undo, does)
    requires i < j < |actions| && actions[i] == Succeed(does) && actions[j] == Send(does)
    ensures exists k :: i < k < j && (actions[k] == Succeed(undo) || (!does.AttachCall? && actions[k].Reboot?))
  {
    hide Enabled, Apply, Inv, Achieved, Legal, Exec, Initial;
    InvInitial(n);
    LegalSplit(n, actions, i);
    LegalSplit(n, actions, i + 1);
    InvRun(n, actions[..i]);
    ExecNext(n, actions, i);
    SuccessAchieves(Exec(n, actions[..i]), does, undo);
    var m, rest := Exec(n, actions[..i + 1]), actions[i + 1..];
    LegalSplit(m, rest, j - i);
    assert rest[..j - i][j - i - 1] == Send(does);
    var l := UndoneBefore(m, rest[..j - i], does);
    assert rest[..j - i][l] == actions[i + 1 + l];
  }

  // ----- what is known of the plugin

  /** The last call or answer about one thing, or a reboot for a mount, tells what is known of it. */
  ghost function Known(actions: seq<Action>, does: Rpc, undo: Rpc): Certainty {
    if actions == [] then No
    else
      var a := actions[|actions| - 1];
      if a == Succeed(does) then Yes
      else if a == Succeed(undo) || (a.Reboot? && !does.AttachCall?) then No
      else if a == Send(does) || a == Send(undo) then Maybe
      else Known(actions[..|actions| - 1], does, undo)
  }

  ghost function AllKnown(actions: seq<Action>): Plugin {
    Plugin(Known(actions, AttachCall, DetachCall), Known(actions, StageCall, UnstageCall), Known(actions, PublishCall, UnpublishCall))
  }

  lemma KnownStep(n: Node, actions: seq<Action>)
    requires actions != [] && Enabled(n, actions[|actions| - 1]) && n.plugin == AllKnown(actions[..|actions| - 1])
    ensures Apply(n, actions[|actions| - 1]).plugin == AllKnown(actions)
  {
    hide Enabled, Completed, Recover, Skipped;
  }

  /** In every run the plugin is what its calls and answers so far allow to know. */
  lemma {:induction false} PluginIsKnown(n: Node, actions: seq<Action>)
    requires Initial(n) && Legal(n, actions)
    ensures Exec(n, actions).plugin == AllKnown(actions)
  {
    if actions != [] {
      hide Initial, Enabled, Apply, Legal, Exec, AllKnown;
      var i := |actions| - 1;
      LegalSplit(n, actions, i);
      assert actions[..i + 1] == actions;
      ExecNext(n, actions, i);
      PluginIsKnown(n, actions[..i]);
      KnownStep(Exec(n, actions[..i]), actions);
    }
  }

  // ----- the fewest calls

  predicate Crash(a: Action) {
    a.Restart? || a.Reboot?
  }

  /** The record that the answer to the call in flight can lead to at best. */
  function Promised(n: Node): State {
    if n.mem.None? then Created
    else if n.call.None? then n.mem.value.state
    else Completed(n.mem.value, n.call.value, n.bootId).state
  }

  /** A call brings the volume one call closer to being published at most. */
  lemma OneCallCloser(caps: Capabilities, v: Volume, rpc: Rpc, bootId: string)
    requires v.state == Transient(rpc) && Supported(caps, rpc)
    ensures PublishCost(caps, Completed(v, rpc, bootId).state) <= PublishCost(caps, v.state) <= PublishCost(caps, Completed(v, rpc, bootId).state) + 1
  {
  }

  lemma PublishMove(caps: Capabilities, v: Volume, a: Action, bootId: string)
    ensures CanSkip(caps, a, v.state) && Capable(caps, v.state) ==> PublishCost(caps, v.state) <= PublishCost(caps, Skipped(v, a, bootId).state)
    ensures a.Mark? && Supported(caps, a.rpc) && v.state in Sources(a.rpc) ==> PublishCost(caps, v.state) <= PublishCost(caps, Transient(a.rpc))
  {
  }

  lemma PublishStep(n: Node, a: Action)
    requires Inv(n) && Enabled(n, a) && !Crash(a)
    ensures var m := Apply(n, a);
      PublishCost(n.caps, Promised(n)) + n.sent <= PublishCost(m.caps, Promised(m)) + m.sent
  {
    hide PublishCost, CanSkip, Skipped, Completed, Sources, Transient, Capable, BootRecorded, Mounted, Normal, RecoverVolume;
    if n.mem.Some? {
      InvChecks(n);
      PublishMove(n.caps, n.mem.value, a, n.bootId);
      if n.call.Some? {
        OneCallCloser(n.caps, n.mem.value, n.call.value, n.bootId);
      }
      if a.Send? {
        OneCallCloser(n.caps, n.mem.value, a.rpc, n.bootId);
      }
      DeletedIsCreated(n.mem.value, n.bootId);
    }
  }

  lemma DeletedIsCreated(v: Volume, bootId: string)
    ensures Transient(DeleteCall) == Created && Completed(v, DeleteCall, bootId) == v
  {
  }

  /** A call brings the volume one call closer to being detached at most. */
  lemma OneCallNearer(caps: Capabilities, v: Volume, rpc: Rpc, bootId: string)
    requires v.state == Transient(rpc) && Supported(caps, rpc)
    ensures DetachCost(caps, v.state) <= DetachCost(caps, Completed(v, rpc, bootId).state) + 1
  {
  }

  /** A failed call leaves at least as far to go as its success. */
  lemma DetachFails(caps: Capabilities, v: Volume, rpc: Rpc, bootId: string)
    requires v.state == Transient(rpc) && Supported(caps, rpc)
    ensures DetachCost(caps, Completed(v, rpc, bootId).state) <= DetachCost(caps, v.state)
  {
  }

  lemma DetachMove(caps: Capabilities, v: Volume, a: Action, bootId: string)
    ensures CanSkip(caps, a, v.state) && Capable(caps, v.state) ==> DetachCost(caps, v.state) <= DetachCost(caps, Skipped(v, a, bootId).state)
    ensures a.Mark? && Supported(caps, a.rpc) && v.state in Sources(a.rpc) ==> DetachCost(caps, v.state) <= DetachCost(caps, Transient(a.rpc))
  {
  }

  lemma DetachStep(n: Node, a: Action)
    requires Inv(n) && Enabled(n, a) && !Crash(a)
    ensures var m := Apply(n, a);
      DetachCost(n.caps, Promised(n)) + n.sent <= DetachCost(m.caps, Promised(m)) + m.sent
  {
    hide DetachCost, CanSkip, Skipped, Completed, Sources, Transient, Capable, BootRecorded, Mounted, Normal, RecoverVolume;
    if n.mem.Some? {
      InvChecks(n);
      DetachMove(n.caps, n.mem.value, a, n.bootId);
      if n.call.Some? {
        DetachFails(n.caps, n.mem.value, n.call.value, n.bootId);
      }
      if a.Send? {
        OneCallNearer(n.caps, n.mem.value, a.rpc, n.bootId);
      }
      DeletedIsCreated(n.mem.value, n.bootId);
    }
  }

  lemma {:induction false} CostsPaid(n: Node, actions: seq<Action>)
    requires Inv(n) && Legal(n, actions) && forall a :: a in actions ==> !Crash(a)
    ensures var m := Exec(n, actions);
      && PublishCost(n.caps, Promised(n)) + n.sent <= PublishCost(m.caps, Promised(m)) + m.sent
      && DetachCost(n.caps, Promised(n)) + n.sent <= DetachCost(m.caps, Promised(m)) + m.sent
    decreases |actions|
  {
    hide PublishCost, DetachCost, Promised, Inv, Enabled, Apply;
    if actions != [] {
      InvStep(n, actions[0]);
      PublishStep(n, actions[0]);
      DetachStep(n, actions[0]);
      CostsPaid(Apply(n, actions[0]), actions[1..]);
    }
  }

  /** No run without a crash publishes or detaches a volume with fewer calls than are stated of the volume manager. */
  lemma {:induction false} FewestCalls(n: Node, actions: seq<Action>)
    requires Inv(n) && Idle(n) && Legal(n, actions) && forall a :: a in actions ==> !Crash(a)
    ensures var m := Exec(n, actions); m.mem.Some? && m.call.None? ==>
      && (m.mem.value.state == Published ==> m.sent >= n.sent + PublishCost(n.caps, n.mem.value.state))
      && (m.mem.value.state == Created ==> m.sent >= n.sent + DetachCost(n.caps, n.mem.value.state))
  {
    CostsPaid(n, actions);
  }
}
