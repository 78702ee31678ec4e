/**
The order of calls that the CSI specification v0.2.0 prescribes, against what the plugin may have
done: whether the record in memory tells the truth about the plugin, and the one kind of step that
makes it lie.
*/
module CsiOrder {
  import opened Options
  import opened CsiVolume

  /** The call in flight finds the plugin where the CSI specification wants it. */
  ghost predicate CallInOrder(n: Node) {
    n.call.Some? ==>
      var p := n.plugin;
      match n.call.value
      case AttachCall => p.staged == No && p.published == No
      case DetachCall => p.staged == No && p.published == No
      case StageCall => (n.caps.attach ==> p.attached == Yes) && p.published == No
      case UnstageCall => (n.caps.attach ==> p.attached == Yes) && p.published == No
      case PublishCall => (n.caps.attach ==> p.attached == Yes) && (n.caps.stage ==> p.staged == Yes)
      case UnpublishCall => (n.caps.attach ==> p.attached == Yes) && (n.caps.stage ==> p.staged == Yes)
      case DeleteCall => p == Plugin(No, No, No)
  }

  /** The record tells whether the volume is attached. */
  ghost predicate TellsAttached(n: Node) {
    var p := n.plugin;
    && (!n.caps.attach ==> p.attached == No)
    && (if n.mem.None? then p.attached == No else
        match n.mem.value.state
        case Created => p.attached == No
        case ControllerPublish => true
        case ControllerUnpublish => true
        case _ => n.caps.attach ==> p.attached == Yes)
  }

  /** A volume that is recorded as staged is. */
  ghost predicate StagedWhereTold(n: Node) {
    n.mem.Some? && n.caps.stage && n.mem.value.state in {VolReady, NodePublish, Published, NodeUnpublish} ==>
      n.plugin.staged == Yes
  }

  /** A volume that may be staged is recorded so. */
  ghost predicate ToldWhereStaged(n: Node) {
    n.plugin.staged != No ==>
      n.caps.stage && n.mem.Some? &&
      n.mem.value.state in {NodeStage, NodeUnstage, VolReady, NodePublish, Published, NodeUnpublish}
  }

  /** The record tells whether the volume is published. */
  ghost predicate TellsPublished(n: Node) {
    var p := n.plugin;
    if n.mem.None? then p.published == No else
    match n.mem.value.state
    case NodePublish => true
    case NodeUnpublish => true
    case Published => p.published == Yes
    case _ => p.published == No
  }

  /** Truthful but for one thing: a volume may be staged that the record takes for unstaged. */
  ghost predicate Lenient(n: Node) {
    TellsAttached(n) && StagedWhereTold(n) && TellsPublished(n)
  }

  /** The record in memory tells the truth about the plugin. */
  ghost predicate Faithful(n: Node) {
    Lenient(n) && ToldWhereStaged(n)
  }

  /** A restart on the same boot that takes an unfinished unstage for a finished one. */
  ghost predicate LosesUnstage(n: Node, a: Action) {
    a.Restart? && n.mem.Some? && UnbootedUnstage(n.mem.value) && n.plugin.staged != No
  }

  lemma FaithfulInOrder(n: Node)
    requires Inv(n) && Faithful(n)
    ensures CallInOrder(n)
  {
  }

  /** Calls that need the record to be truthful about staging are those to detach and to delete. */
  lemma LenientInOrder(n: Node)
    requires Inv(n) && Lenient(n) && !n.caps.attach && !n.caps.delete
    ensures CallInOrder(n)
  {
  }

  // ----- one step, by kind of action

  lemma LenientSkip(n: Node, a: Action)
    requires Inv(n) && Lenient(n) && Enabled(n, a)
    requires a.SkipAttach? || a.SkipDetach? || a.SkipStage? || a.SkipUnstage?
    ensures Lenient(Apply(n, a))
  {
  }

  lemma LenientMark(n: Node, rpc: Rpc)
    requires Inv(n) && Lenient(n) && Enabled(n, Mark(rpc))
    ensures Lenient(Apply(n, Mark(rpc)))
  {
  }

  lemma LenientSend(n: Node, rpc: Rpc)
    requires Inv(n) && Lenient(n) && Enabled(n, Send(rpc))
    ensures Lenient(Apply(n, Send(rpc)))
  {
  }

  lemma LenientSucceed(n: Node, rpc: Rpc)
    requires Inv(n) && Lenient(n) && Enabled(n, Succeed(rpc))
    ensures Lenient(Apply(n, Succeed(rpc)))
  {
  }

  lemma LenientReload(n: Node, a: Action)
    requires Inv(n) && Lenient(n) && Enabled(n, a) && (a.Restart? || a.Reboot?)
    ensures Lenient(Apply(n, a))
  {
  }

  /** Every step keeps the record truthful but for staging. */
  lemma LenientStep(n: Node, a: Action)
    requires Inv(n) && Enabled(n, a)
    ensures Lenient(n) ==> Lenient(Apply(n, a))
  {
    if Lenient(n) {
      match a
      case SkipAttach => LenientSkip(n, a);
      case SkipDetach => LenientSkip(n, a);
      case SkipStage => LenientSkip(n, a);
      case SkipUnstage => LenientSkip(n, a);
      case Mark(rpc) => LenientMark(n, rpc);
      case Send(rpc) => LenientSend(n, rpc);
      case Succeed(rpc) => LenientSucceed(n, rpc);
      case Restart => LenientReload(n, a);
      case Reboot(_) => LenientReload(n, a);
      case _ =>
    }
  }

  lemma StagedReload(n: Node, a: Action)
    requires Inv(n) && ToldWhereStaged(n) && Enabled(n, a) && (a.Restart? || a.Reboot?)
    ensures ToldWhereStaged(Apply(n, a)) <==> !LosesUnstage(n, a)
  {
  }

  lemma StagedStep(n: Node, a: Action)
    requires Inv(n) && ToldWhereStaged(n) && Enabled(n, a)
    ensures ToldWhereStaged(Apply(n, a)) <==> !LosesUnstage(n, a)
  {
    match a
    case Restart => StagedReload(n, a);
    case Reboot(_) => StagedReload(n, a);
    case _ =>
  }

  /** Exactly one kind of step makes the record lie. */
  lemma FaithfulStep(n: Node, a: Action)
    requires Inv(n) && Enabled(n, a)
    ensures Faithful(n) ==> (Faithful(Apply(n, a)) <==> !LosesUnstage(n, a))
  {
    hide Inv, Enabled, Apply, Lenient, ToldWhereStaged;
    LenientStep(n, a);
    if ToldWhereStaged(n) {
      StagedStep(n, a);
    }
  }

  ghost predicate NeverLosesUnstage(n: Node, actions: seq<Action>)
    requires Legal(n, actions)
    decreases |actions|
  {
    actions == [] || (!LosesUnstage(n, actions[0]) && NeverLosesUnstage(Apply(n, actions[0]), actions[1..]))
  }

  lemma {:induction false} FaithfulRun(n: Node, actions: seq<Action>)
    requires Inv(n) && Legal(n, actions)
    ensures Faithful(n) && NeverLosesUnstage(n, actions) ==> Inv(Exec(n, actions)) && Faithful(Exec(n, actions))
    decreases |actions|
  {
    if actions != [] {
      InvStep(n, actions[0]);
      FaithfulStep(n, actions[0]);
      FaithfulRun(Apply(n, actions[0]), actions[1..]);
    }
  }

  lemma CapsStay(n: Node, a: Action)
    requires Enabled(n, a)
    ensures Apply(n, a).caps == n.caps
  {
  }

  lemma {:induction false} LenientRun(n: Node, actions: seq<Action>)
    requires Inv(n) && Legal(n, actions)
    ensures Inv(Exec(n, actions)) && Exec(n, actions).caps == n.caps && (Lenient(n) ==> Lenient(Exec(n, actions)))
    decreases |actions|
  {
    hide Inv, Enabled, Apply, Lenient;
    if actions != [] {
      InvStep(n, actions[0]);
      LenientStep(n, actions[0]);
      CapsStay(n, actions[0]);
      LenientRun(Apply(n, actions[0]), actions[1..]);
    }
  }

  /** In every run without a lost unstage, every call is sent in the prescribed order. */
  lemma {:induction false} CallsInOrder(n: Node, actions: seq<Action>)
    requires Initial(n) && Legal(n, actions)
    ensures NeverLosesUnstage(n, actions) ==> CallInOrder(Exec(n, actions))
  {
    InvInitial(n);
    FaithfulRun(n, actions);
    if NeverLosesUnstage(n, actions) {
      FaithfulInOrder(Exec(n, actions));
    }
  }

  /** Without staging there is nothing to lose. */
  lemma {:induction false} NothingToLose(n: Node, actions: seq<Action>)
    requires Inv(n) && Legal(n, actions) && !n.caps.stage
    ensures NeverLosesUnstage(n, actions)
    decreases |actions|
  {
    if actions != [] {
      InvStep(n, actions[0]);
      CapsStay(n, actions[0]);
      NothingToLose(Apply(n, actions[0]), actions[1..]);
    }
  }

  ghost predicate AlwaysInOrder(n: Node) {
    forall actions :: Legal(n, actions) ==> CallInOrder(Exec(n, actions))
  }

  /**
  The exact condition, on the plugin's capabilities: every call of every run is in order if and only
  if the plugin does not stage, or neither attaches nor deletes.
  */
  lemma {:induction false} AlwaysInOrderIff(n: Node)
    requires Initial(n)
    ensures AlwaysInOrder(n) <==> !(n.caps.stage && (n.caps.attach || n.caps.delete))
  {
    InvInitial(n);
    if n.caps.stage && (n.caps.attach || n.caps.delete) {
      OutOfOrder(n);
    } else {
      forall actions | Legal(n, actions) ensures CallInOrder(Exec(n, actions)) {
        if n.caps.stage {
          LenientRun(n, actions);
          LenientInOrder(Exec(n, actions));
        } else {
          NothingToLose(n, actions);
          CallsInOrder(n, actions);
        }
      }
    }
  }

  lemma OutOfOrder(n: Node)
    requires Initial(n) && n.caps.stage && (n.caps.attach || n.caps.delete)
    ensures !AlwaysInOrder(n)
  {
    InvInitial(n);
    var run := LossyRun(n);
    LenientRun(n, run);
    var m := Exec(n, run);
    LostUnstageBreaksOrder(m);
    var more :| Legal(m, more) && |more| == 3 && more[0] == Restart && !CallInOrder(Exec(m, more));
    ExecConcat(n, run, more);
    assert Legal(n, run + more) && !CallInOrder(Exec(n, run + more));
  }

  /**
  The condition is needed: a lost unstage lets the manager detach, or else delete, a volume that
  may still be staged.
  */
  lemma {:induction false} LostUnstageBreaksOrder(n: Node)
    requires Inv(n) && LosesUnstage(n, Restart) && (n.caps.attach || n.caps.delete)
    ensures exists actions :: Legal(n, actions) && |actions| == 3 && actions[0] == Restart && !CallInOrder(Exec(n, actions))
  {
    if n.caps.attach {
      var run := DetachAfterRestart(n);
    } else {
      var run := DeleteAfterRestart(n);
    }
  }

  lemma DetachAfterRestart(n: Node) returns (run: seq<Action>)
    requires Inv(n) && LosesUnstage(n, Restart) && n.caps.attach
    ensures Legal(n, run) && |run| == 3 && run[0] == Restart && !CallInOrder(Exec(n, run))
  {
    run := Extend(n, [], Restart);
    run := Extend(n, run, Mark(DetachCall));
    run := Extend(n, run, Send(DetachCall));
  }

  lemma DeleteAfterRestart(n: Node) returns (run: seq<Action>)
    requires Inv(n) && LosesUnstage(n, Restart) && !n.caps.attach && n.caps.delete
    ensures Legal(n, run) && |run| == 3 && run[0] == Restart && !CallInOrder(Exec(n, run))
  {
    run := Extend(n, [], Restart);
    run := Extend(n, run, SkipDetach);
    run := Extend(n, run, Send(DeleteCall));
  }

  lemma Extend(n: Node, run: seq<Action>, a: Action) returns (longer: seq<Action>)
    requires Legal(n, run) && Enabled(Exec(n, run), a)
    ensures longer == run + [a]
    ensures Legal(n, longer) && Exec(n, longer) == Apply(Exec(n, run), a)
  {
    longer := run + [a];
    var m := Exec(n, run);
    assert [a][1..] == [];
    assert Legal(m, [a]);
    assert Exec(m, [a]) == Exec(Apply(m, a), []);
    ExecConcat(n, run, [a]);
  }

  lemma {:induction false} AttachedRun(n: Node) returns (run: seq<Action>)
    requires Initial(n)
    ensures Legal(n, run)
    ensures var m := Exec(n, run);
      m.mem == Some(Volume(NodeReady, "", false)) && m.call == None && m.caps == n.caps && m.plugin.staged == No
  {
    run := Extend(n, [], Create);
    if n.caps.attach {
      run := Extend(n, run, Mark(AttachCall));
      run := Extend(n, run, Send(AttachCall));
      run := Extend(n, run, Succeed(AttachCall));
    } else {
      run := Extend(n, run, SkipAttach);
    }
  }

  /** A run that loses an unstage: a stage call fails, and a restart cuts off the unstage that undoes it. */
  lemma {:induction false} LossyRun(n: Node) returns (run: seq<Action>)
    requires Initial(n) && n.caps.stage
    ensures Legal(n, run) && Idle(Exec(n, run)) && LosesUnstage(Exec(n, run), Restart)
  {
    run := AttachedRun(n);
    run := Extend(n, run, MakeStaging);
    run := Extend(n, run, Mark(StageCall));
    run := Extend(n, run, Send(StageCall));
    run := Extend(n, run, Fail(StageCall));
    run := Extend(n, run, Mark(UnstageCall));
  }
}
