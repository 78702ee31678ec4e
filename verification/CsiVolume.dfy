/**
The life of one CSI volume on one agent, as a crash-recoverable state machine.

A `Node` holds everything the lifecycle of the volume depends on: the record the
process keeps in memory, the record synced to disk, the two mount directories, the
boot ID, the CSI call in flight, the number of calls sent so far, and what the plugin
may be in the middle of. An `Action` is one indivisible effect of the volume manager or of its environment, so
a restart or a reboot may fall between any two of them.
*/
module CsiVolume {

  import opened Options

  datatype State =
    | Created | NodeReady | VolReady | Published
    | ControllerPublish | ControllerUnpublish
    | NodeStage | NodeUnstage
    | NodePublish | NodeUnpublish

  /** The part of a `VolumeState` record that the lifecycle reads; `bootId` is "" when unset. */
  datatype Volume = Volume(state: State, bootId: string, publishRequired: bool)

  /** PUBLISH_UNPUBLISH_VOLUME, STAGE_UNSTAGE_VOLUME and CREATE_DELETE_VOLUME. */
  datatype Capabilities = Capabilities(attach: bool, stage: bool, delete: bool)

  datatype Rpc =
    | AttachCall    // ControllerPublishVolume
    | DetachCall    // ControllerUnpublishVolume
    | StageCall     // NodeStageVolume
    | UnstageCall   // NodeUnstageVolume
    | PublishCall   // NodePublishVolume
    | UnpublishCall // NodeUnpublishVolume
    | DeleteCall    // DeleteVolume

  /** What the volume manager can know about an effect of the plugin. */
  datatype Certainty = No | Maybe | Yes

  datatype Plugin = Plugin(attached: Certainty, staged: Certainty, published: Certainty)

  datatype Node = Node(
    caps: Capabilities,
    bootId: string,
    pastBoots: set<string>,
    mem: Option<Volume>,
    disk: Option<Volume>,
    staging: bool,
    target: bool,
    call: Option<Rpc>,
    sent: nat,
    plugin: Plugin)

  datatype Action =
    | Create
    | SkipAttach | SkipDetach | SkipStage | SkipUnstage
    | MakeStaging | MakeTarget
    | Mark(rpc: Rpc)
    | Send(rpc: Rpc)
    | Succeed(rpc: Rpc)
    | Fail(rpc: Rpc)
    | Forget
    | Drop
    | Collect
    | Restart
    | Reboot(boot: string)

  predicate IsTransient(s: State) {
    s in {ControllerPublish, ControllerUnpublish, NodeStage, NodeUnstage, NodePublish, NodeUnpublish}
  }

  /** The state a volume is in while the call is outstanding. */
  function Transient(rpc: Rpc): State {
    match rpc
    case AttachCall => ControllerPublish
    case DetachCall => ControllerUnpublish
    case StageCall => NodeStage
    case UnstageCall => NodeUnstage
    case PublishCall => NodePublish
    case UnpublishCall => NodeUnpublish
    case DeleteCall => Created
  }

  /** The states from which the volume manager moves to `Transient(rpc)`. */
  function Sources(rpc: Rpc): set<State> {
    match rpc
    case AttachCall => {Created}
    case DetachCall => {NodeReady, ControllerPublish}
    case StageCall => {NodeReady}
    case UnstageCall => {VolReady, NodeStage}
    case PublishCall => {VolReady}
    case UnpublishCall => {Published, NodePublish}
    case DeleteCall => {}
  }

  predicate Supported(caps: Capabilities, rpc: Rpc) {
    match rpc
    case AttachCall => caps.attach
    case DetachCall => caps.attach
    case StageCall => caps.stage
    case UnstageCall => caps.stage
    case PublishCall => true
    case UnpublishCall => true
    case DeleteCall => caps.delete
  }

  /** Moves that the plugin's capabilities make trivial: no call, nothing to checkpoint. */
  predicate CanSkip(caps: Capabilities, a: Action, s: State) {
    match a
    case SkipAttach => !caps.attach && s in {Created, ControllerPublish, ControllerUnpublish}
    case SkipDetach => !caps.attach && s in {NodeReady, ControllerPublish, ControllerUnpublish}
    case SkipStage => !caps.stage && s in {NodeReady, NodeStage, NodeUnstage}
    case SkipUnstage => !caps.stage && s in {VolReady, NodeStage, NodeUnstage}
    case _ => false
  }

  function Skipped(v: Volume, a: Action, bootId: string): Volume {
    match a
    case SkipAttach => v.(state := NodeReady)
    case SkipDetach => v.(state := Created)
    case SkipStage => v.(state := VolReady, bootId := bootId)
    case SkipUnstage => v.(state := NodeReady, bootId := "")
    case _ => v
  }

  predicate CanMake(caps: Capabilities, a: Action, s: State) {
    match a
    case MakeStaging => caps.stage && s in {NodeReady, NodeStage}
    case MakeTarget => s in {VolReady, NodePublish}
    case _ => false
  }

  predicate Enabled(n: Node, a: Action) {
    match a
    case Create => n.mem.None? && n.disk.None?
    case SkipAttach => Idle(n) && CanSkip(n.caps, a, n.mem.value.state)
    case SkipDetach => Idle(n) && CanSkip(n.caps, a, n.mem.value.state)
    case SkipStage => Idle(n) && CanSkip(n.caps, a, n.mem.value.state)
    case SkipUnstage => Idle(n) && CanSkip(n.caps, a, n.mem.value.state)
    case MakeStaging => Idle(n) && CanMake(n.caps, a, n.mem.value.state)
    case MakeTarget => Idle(n) && CanMake(n.caps, a, n.mem.value.state)
    case Mark(rpc) =>
      && Idle(n) && Supported(n.caps, rpc) && n.mem.value.state in Sources(rpc)
      && (rpc.StageCall? ==> n.staging) && (rpc.PublishCall? ==> n.target)
    case Send(rpc) => Idle(n) && Supported(n.caps, rpc) && n.mem.value.state == Transient(rpc)
    case Succeed(rpc) => n.mem.Some? && n.call == Some(rpc)
    case Fail(rpc) => n.mem.Some? && n.call == Some(rpc)
    case Forget => Idle(n) && n.mem.value.state == Published && n.mem.value.publishRequired
    case Drop => Idle(n) && n.mem.value.state == Created && !n.caps.delete
    case Collect => n.mem.None?
    case Restart => true
    case Reboot(boot) => boot != "" && boot !in n.pastBoots
  }

  predicate Idle(n: Node) {
    n.mem.Some? && n.call.None?
  }

  function Apply(n: Node, a: Action): Node
    requires Enabled(n, a)
  {
    match a
    case Create => Checkpoint(n, Volume(Created, "", false))
    case SkipAttach => n.(mem := Some(Skipped(n.mem.value, a, n.bootId)))
    case SkipDetach => n.(mem := Some(Skipped(n.mem.value, a, n.bootId)))
    case SkipStage => n.(mem := Some(Skipped(n.mem.value, a, n.bootId)))
    case SkipUnstage => n.(mem := Some(Skipped(n.mem.value, a, n.bootId)))
    case MakeStaging => n.(staging := true)
    case MakeTarget => n.(target := true)
    case Mark(rpc) => Checkpoint(n, n.mem.value.(state := Transient(rpc)))
    case Send(rpc) => n.(call := Some(rpc), sent := n.sent + 1, plugin := Begun(n.plugin, rpc))
    case Succeed(rpc) =>
      var m := n.(call := None, plugin := Ended(n.plugin, rpc));
      if rpc.DeleteCall? then Erase(m) else Checkpoint(m, Completed(n.mem.value, rpc, n.bootId))
    case Fail(rpc) => n.(call := None)
    case Forget => Checkpoint(n, n.mem.value.(publishRequired := false))
    case Drop => Erase(n)
    case Collect => n.(staging := false, target := false)
    case Restart => n.(mem := Recover(n.disk, n.bootId), call := None)
    case Reboot(boot) =>
      n.(bootId := boot, pastBoots := n.pastBoots + {boot}, mem := Recover(n.disk, boot), call := None,
         plugin := n.plugin.(staged := No, published := No))
  }

  function Checkpoint(n: Node, v: Volume): Node {
    n.(mem := Some(v), disk := Some(v))
  }

  function Erase(n: Node): Node {
    n.(mem := None, disk := None)
  }

  /** The record after the plugin answered the call with success. */
  function Completed(v: Volume, rpc: Rpc, bootId: string): Volume {
    match rpc
    case AttachCall => v.(state := NodeReady)
    case DetachCall => v.(state := Created)
    case StageCall => v.(state := VolReady, bootId := bootId)
    case UnstageCall => v.(state := NodeReady, bootId := "")
    case PublishCall => v.(state := Published, publishRequired := true)
    case UnpublishCall => v.(state := VolReady)
    case DeleteCall => v
  }

  /** Once sent, a call may or may not take effect, whether or not it is answered. */
  function Begun(p: Plugin, rpc: Rpc): Plugin {
    match rpc
    case AttachCall => p.(attached := Maybe)
    case DetachCall => p.(attached := Maybe)
    case StageCall => p.(staged := Maybe)
    case UnstageCall => p.(staged := Maybe)
    case PublishCall => p.(published := Maybe)
    case UnpublishCall => p.(published := Maybe)
    case DeleteCall => p
  }

  function Ended(p: Plugin, rpc: Rpc): Plugin {
    match rpc
    case AttachCall => p.(attached := Yes)
    case DetachCall => p.(attached := No)
    case StageCall => p.(staged := Yes)
    case UnstageCall => p.(staged := No)
    case PublishCall => p.(published := Yes)
    case UnpublishCall => p.(published := No)
    case DeleteCall => p
  }

  /** What recovery loads: a volume made publishable on an earlier boot goes back to `NodeReady`. */
  function RecoverVolume(v: Volume, bootId: string): Volume {
    if v.state in {VolReady, Published, NodeUnstage, NodePublish, NodeUnpublish} && v.bootId != bootId
    then v.(state := NodeReady, bootId := "")
    else v
  }

  function Recover(disk: Option<Volume>, bootId: string): Option<Volume> {
    if disk.Some? then Some(RecoverVolume(disk.value, bootId)) else None
  }

  // ----- runs

  ghost predicate Legal(n: Node, actions: seq<Action>)
    decreases |actions|
  {
    actions == [] || (Enabled(n, actions[0]) && Legal(Apply(n, actions[0]), actions[1..]))
  }

  ghost function Exec(n: Node, actions: seq<Action>): Node
    requires Legal(n, actions)
    decreases |actions|
  {
    if actions == [] then n else Exec(Apply(n, actions[0]), actions[1..])
  }

  lemma {:induction false} ExecConcat(n: Node, xs: seq<Action>, ys: seq<Action>)
    requires Legal(n, xs) && Legal(Exec(n, xs), ys)
    ensures Legal(n, xs + ys) && Exec(n, xs + ys) == Exec(Exec(n, xs), ys)
    decreases |xs|
  {
    if xs == [] {
      assert xs + ys == ys;
    } else {
      assert (xs + ys)[1..] == xs[1..] + ys;
      ExecConcat(Apply(n, xs[0]), xs[1..], ys);
    }
  }

  ghost predicate Initial(n: Node) {
    && n.mem.None? && n.disk.None? && n.call.None?
    && n.plugin == Plugin(No, No, No)
    && n.bootId != "" && n.pastBoots == {n.bootId}
  }

  // ----- what every run keeps

  /** A boot ID is recorded exactly in the states between staging and unstaging. */
  ghost predicate BootRecorded(v: Volume, bootId: string) {
    match v.state
    case VolReady => v.bootId == bootId
    case Published => v.bootId == bootId
    case NodePublish => v.bootId == bootId
    case NodeUnpublish => v.bootId == bootId
    case NodeUnstage => v.bootId == bootId || v.bootId == ""
    case _ => v.bootId == ""
  }

  /** The mount directories that the process checks for are there. */
  ghost predicate Mounted(n: Node, s: State) {
    && (n.caps.stage && s in {NodeStage, VolReady, NodePublish, Published, NodeUnpublish, NodeUnstage} ==> n.staging)
    && (s in {NodePublish, Published, NodeUnpublish} ==> n.target)
  }

  ghost predicate Capable(caps: Capabilities, s: State) {
    && (s in {ControllerPublish, ControllerUnpublish} ==> caps.attach)
    && (s in {NodeStage, NodeUnstage} ==> caps.stage)
  }

  /** Identifies states that the manager moves between without any call. */
  function Normal(caps: Capabilities, v: Volume): Volume {
    var w := if !caps.stage && v.state == VolReady then v.(state := NodeReady, bootId := "") else v;
    if !caps.attach && w.state == NodeReady then w.(state := Created) else w
  }

  /** An unstage that started from an unanswered stage call carries no boot ID. */
  predicate UnbootedUnstage(v: Volume) {
    v.state == NodeUnstage && v.bootId == ""
  }

  ghost predicate BootsOk(n: Node) {
    && n.bootId != "" && n.bootId in n.pastBoots
    && (n.disk.Some? ==> n.disk.value.bootId == "" || n.disk.value.bootId in n.pastBoots)
  }

  ghost predicate CallOk(n: Node) {
    n.call.Some? ==>
      && n.mem.Some? && n.mem.value.state == Transient(n.call.value) && Supported(n.caps, n.call.value)
      && (n.call != Some(DeleteCall) ==> n.disk == n.mem)
  }

  ghost predicate Inv(n: Node) {
    && BootsOk(n)
    && CallOk(n)
    && n.mem.Some? == n.disk.Some?
    && (n.mem.Some? ==>
      var v, d := n.mem.value, n.disk.value;
      && BootRecorded(v, n.bootId)
      && Mounted(n, v.state)
      && Capable(n.caps, v.state) && Capable(n.caps, d.state)
      && (IsTransient(v.state) ==> d == v)
      && (UnbootedUnstage(v) || Normal(n.caps, v) == Normal(n.caps, RecoverVolume(d, n.bootId))))
  }

  /** What the lifecycle functions assert of a tracked volume. */
  lemma InvChecks(n: Node)
    requires Inv(n) && n.mem.Some?
    ensures BootRecorded(n.mem.value, n.bootId) && Mounted(n, n.mem.value.state) && Capable(n.caps, n.mem.value.state)
    ensures n.bootId != ""
  {
  }

  lemma InvInitial(n: Node)
    requires Initial(n)
    ensures Inv(n)
  {
  }

  lemma InvSkip(n: Node, a: Action)
    requires Inv(n) && Enabled(n, a)
    requires a.SkipAttach? || a.SkipDetach? || a.SkipStage? || a.SkipUnstage?
    ensures Inv(Apply(n, a))
  {
  }

  lemma InvMark(n: Node, rpc: Rpc)
    requires Inv(n) && Enabled(n, Mark(rpc))
    ensures Inv(Apply(n, Mark(rpc)))
  {
  }

  lemma InvSucceed(n: Node, rpc: Rpc)
    requires Inv(n) && Enabled(n, Succeed(rpc))
    ensures Inv(Apply(n, Succeed(rpc)))
  {
  }

  lemma InvRestart(n: Node)
    requires Inv(n)
    ensures Inv(Apply(n, Restart))
  {
  }

  lemma InvReboot(n: Node, boot: string)
    requires Inv(n) && Enabled(n, Reboot(boot))
    ensures Inv(Apply(n, Reboot(boot)))
  {
  }

  /** Every action, also a restart or a reboot between any two others, keeps the invariant. */
  lemma InvStep(n: Node, a: Action)
    requires Inv(n) && Enabled(n, a)
    ensures Inv(Apply(n, a))
  {
    match a
    case SkipAttach => InvSkip(n, a);
    case SkipDetach => InvSkip(n, a);
    case SkipStage => InvSkip(n, a);
    case SkipUnstage => InvSkip(n, a);
    case Mark(rpc) => InvMark(n, rpc);
    case Succeed(rpc) => InvSucceed(n, rpc);
    case Restart => InvRestart(n);
    case Reboot(boot) => InvReboot(n, boot);
    case _ =>
  }

  lemma {:induction false} InvRun(n: Node, actions: seq<Action>)
    requires Inv(n) && Legal(n, actions)
    ensures Inv(Exec(n, actions))
    decreases |actions|
  {
    if actions != [] {
      InvStep(n, actions[0]);
      InvRun(Apply(n, actions[0]), actions[1..]);
    }
  }

  /**
  Write-ahead, in every state of every run: a transient record in memory is the synced record,
  so a call is in flight only while the state that announces it is durable.
  */
  lemma {:induction false} WriteAhead(n: Node, actions: seq<Action>)
    requires Initial(n) && Legal(n, actions)
    ensures var m := Exec(n, actions);
      && (m.mem.Some? && m.mem.value.state !in {Created, NodeReady, VolReady, Published} ==> m.disk == m.mem)
      && (m.call.Some? && m.call != Some(DeleteCall) ==>
            m.disk.Some? && m.disk.value.state == Transient(m.call.value) && m.disk == m.mem)
  {
    InvInitial(n);
    InvRun(n, actions);
  }

  /**
  Crash refinement, in every state of every run: recovering the synced record on the current boot
  gives back the record in memory, up to moves that make no call, except exactly for an unstage
  that carries no boot ID.
  */
  lemma {:induction false} CrashRefinement(n: Node, actions: seq<Action>)
    requires Initial(n) && Legal(n, actions)
    ensures var m := Exec(n, actions);
      && m.mem.Some? == m.disk.Some?
      && (m.mem.Some? ==>
            (Normal(m.caps, RecoverVolume(m.disk.value, m.bootId)) == Normal(m.caps, m.mem.value)
             <==> !UnbootedUnstage(m.mem.value)))
      && (m.mem.Some? && UnbootedUnstage(m.mem.value) ==>
            RecoverVolume(m.disk.value, m.bootId) == m.mem.value.(state := NodeReady))
  {
    InvInitial(n);
    InvRun(n, actions);
  }

  /** The assertions of the lifecycle functions hold in every state of every run. */
  lemma {:induction false} ChecksHold(n: Node, actions: seq<Action>)
    requires Initial(n) && Legal(n, actions)
    ensures var m := Exec(n, actions); m.mem.Some? ==>
      var v := m.mem.value;
      && (v.state in {VolReady, NodePublish, Published, NodeUnpublish} ==> v.bootId == m.bootId && v.bootId != "")
      && (v.state in {Created, NodeReady, ControllerPublish, ControllerUnpublish, NodeStage} ==> v.bootId == "")
      && (v.state in {NodePublish, NodeUnpublish} ==> m.target)
      && (v.state in {NodePublish, NodeUnstage} && m.caps.stage ==> m.staging)
  {
    InvInitial(n);
    InvRun(n, actions);
  }
}
