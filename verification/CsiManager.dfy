/**
The volume manager process: the map of volumes it updates in place, the checkpoints it syncs, and
the six mutually recursive functions that move a volume through its lifecycle.

Every method returns, as a ghost result, the run of machine actions it took, so that all
that is proved about runs of `CsiVolume` holds of the methods.
*/
module CsiManager {
  import opened Options
  import opened CsiVolume

  /** `Aborted` is a failed CHECK: the process dies and is restarted. */
  datatype Outcome = Done | Failed | Aborted

  function Get<V>(m: map<string, V>, id: string): Option<V> {
    if id in m then Some(m[id]) else None
  }

  function PluginOf(plugins: map<string, Plugin>, id: string): Plugin {
    if id in plugins then plugins[id] else Plugin(No, No, No)
  }

  /** A run of the machine with the states it passes through. */
  datatype Run = Run(states: seq<Node>, actions: seq<Action>)

  ghost predicate Runs(run: Run, n: Node, m: Node) {
    && |run.states| == |run.actions| + 1
    && run.states[0] == n && run.states[|run.actions|] == m
    && forall i :: 0 <= i < |run.actions| ==>
         Enabled(run.states[i], run.actions[i]) && run.states[i + 1] == Apply(run.states[i], run.actions[i])
  }

  ghost predicate Reaches(n: Node, m: Node) {
    exists run :: Runs(run, n, m)
  }

  lemma Reached(run: Run, n: Node, m: Node)
    requires Runs(run, n, m)
    ensures Reaches(n, m)
  {
  }

  lemma Idles(n: Node)
    ensures Reaches(n, n)
  {
    Reached(Stay(n), n, n);
  }

  function Stay(n: Node): (run: Run)
    ensures Runs(run, n, n)
  {
    Run([n], [])
  }

  function Took(n: Node, a: Action): (run: Run)
    requires Enabled(n, a)
    ensures Runs(run, n, Apply(n, a))
  {
    Run([n, Apply(n, a)], [a])
  }

  lemma Join(n: Node, r1: Run, m: Node, r2: Run, k: Node)
    requires Runs(r1, n, m) && Runs(r2, m, k)
    ensures Runs(Run(r1.states + r2.states[1..], r1.actions + r2.actions), n, k)
  {
    hide Enabled, Apply;
    var states, actions := r1.states + r2.states[1..], r1.actions + r2.actions;
    forall i | 0 <= i < |actions|
      ensures Enabled(states[i], actions[i]) && states[i + 1] == Apply(states[i], actions[i])
    {
      if i < |r1.actions| {
        assert states[i] == r1.states[i] && actions[i] == r1.actions[i];
      } else {
        var j := i - |r1.actions|;
        assert states[i] == r2.states[j] && states[i + 1] == r2.states[j + 1] && actions[i] == r2.actions[j];
      }
    }
  }

  ghost function Then(n: Node, r1: Run, m: Node, r2: Run, k: Node): (run: Run)
    requires Runs(r1, n, m) && Runs(r2, m, k)
    ensures Runs(run, n, k)
  {
    var run := Run(r1.states + r2.states[1..], r1.actions + r2.actions);
    Join(n, r1, m, r2, k);
    run
  }

  /** What is proved of all runs of the machine holds of the runs of the methods. */
  lemma {:induction false} RunIsLegal(run: Run, n: Node, m: Node)
    requires Runs(run, n, m)
    ensures Legal(n, run.actions) && Exec(n, run.actions) == m
    decreases |run.actions|
  {
    if run.actions != [] {
      RunIsLegal(Run(run.states[1..], run.actions[1..]), run.states[1], m);
    }
  }

  // ----- the number of calls each function needs when none fails

  function One(b: bool): nat { if b then 1 else 0 }

  function UnpublishNodeCost(s: State): nat {
    One(s in {Published, NodePublish, NodeUnpublish})
  }

  function UnpublishCost(caps: Capabilities, s: State): nat {
    match s
    case Created => 0
    case ControllerPublish => 0
    case ControllerUnpublish => 0
    case NodeReady => 0
    case _ => UnpublishNodeCost(s) + One(caps.stage)
  }

  function DetachCost(caps: Capabilities, s: State): nat {
    if s == Created then 0 else UnpublishCost(caps, s) + One(caps.attach)
  }

  function AttachCost(caps: Capabilities, s: State): nat {
    match s
    case Created => One(caps.attach)
    case ControllerPublish => One(caps.attach)
    case ControllerUnpublish => One(caps.attach) + One(caps.attach)
    case _ => 0
  }

  function StageCost(caps: Capabilities, s: State): nat {
    match s
    case VolReady => 0
    case NodeUnstage => One(caps.stage) + One(caps.stage)
    case _ => AttachCost(caps, s) + One(caps.stage)
  }

  function PublishCost(caps: Capabilities, s: State): nat {
    match s
    case Published => 0
    case VolReady => 1
    case NodePublish => 1
    case NodeUnpublish => 2
    case _ => StageCost(caps, s) + 1
  }

  /** Publishing takes at most four calls from any state, detaching at most three. */
  lemma CostBounds(caps: Capabilities, s: State)
    ensures PublishCost(caps, s) <= 4 && DetachCost(caps, s) <= 3
    ensures PublishCost(Capabilities(true, true, true), ControllerUnpublish) == 4
    ensures DetachCost(Capabilities(true, true, true), Published) == 3
  {
  }

  lemma CanSend(n: Node, rpc: Rpc)
    requires n.mem.Some? && n.call.None? && Supported(n.caps, rpc) && n.mem.value.state == Transient(rpc)
    ensures Enabled(n, Send(rpc))
  {
  }

  /** A call and its answer, as two actions. */
  lemma Answered(n: Node, rpc: Rpc, ok: bool) returns (run: Run)
    requires Inv(n) && Enabled(n, Send(rpc)) && !rpc.DeleteCall?
    ensures var m, a := Apply(n, Send(rpc)), if ok then Succeed(rpc) else Fail(rpc);
      && m.mem == n.mem && m.mem.Some? && m.call == Some(rpc) && Enabled(m, a)
      && var k := Apply(m, a);
         && Inv(k) && Runs(run, n, k) && k.call == None && k.sent == n.sent + 1 && k.bootId == n.bootId
         && k.mem == Some(if ok then Completed(n.mem.value, rpc, n.bootId) else n.mem.value)
  {
    var m, a := Apply(n, Send(rpc)), if ok then Succeed(rpc) else Fail(rpc);
    InvStep(n, Send(rpc));
    InvStep(m, a);
    run := Then(n, Took(n, Send(rpc)), m, Took(m, a), Apply(m, a));
  }

  /** What the plugin and the file system answer, fixed in advance: the k-th answer for each volume. */
  class Environment {
    const answers: (string, nat) -> bool
    var asked: map<string, nat>

    constructor (answers: (string, nat) -> bool)
      ensures this.answers == answers && forall id :: Asked(id) == 0
    {
      this.answers, asked := answers, map[];
    }

    /** How many answers have been given for the volume. */
    function Asked(id: string): nat
      reads this
    {
      if id in asked then asked[id] else 0
    }

    method Ask(id: string) returns (ok: bool)
      modifies this
      ensures ok == answers(id, old(Asked(id)))
      ensures Asked(id) == old(Asked(id)) + 1 && forall other :: other != id ==> Asked(other) == old(Asked(other))
    {
      ok := answers(id, Asked(id));
      asked := asked[id := Asked(id) + 1];
    }

    /** No answer in a stretch is a failure. */
    ghost predicate Good(id: string, from: nat, to: nat) {
      forall k :: from <= k < to ==> answers(id, k)
    }

    /** Every answer given meanwhile is for this volume. */
    twostate predicate Asks(id: string)
      reads this
    {
      old(Asked(id)) <= Asked(id) && forall other :: other != id ==> Asked(other) == old(Asked(other))
    }
  }

  class VolumeManager {
    const caps: Capabilities
    const env: Environment
    var bootId: string
    var volumes: map<string, Volume>
    var checkpoints: map<string, Volume>
    var stagingPaths: set<string>
    var targetPaths: set<string>

    ghost var pastBoots: set<string>
    ghost var inFlight: map<string, Rpc>
    ghost var sent: map<string, nat>
    ghost var plugins: map<string, Plugin>

    constructor (caps: Capabilities, bootId: string, env: Environment)
      requires bootId != ""
      ensures this.caps == caps && this.bootId == bootId && this.env == env
      ensures forall id :: Initial(View(id))
    {
      this.caps, this.bootId, this.env := caps, bootId, env;
      volumes, checkpoints, stagingPaths, targetPaths := map[], map[], {}, {};
      pastBoots, inFlight, sent, plugins := {bootId}, map[], map[], map[];
    }

    ghost function View(id: string): Node
      reads this
    {
      Node(caps, bootId, pastBoots, Get(volumes, id), Get(checkpoints, id),
           id in stagingPaths, id in targetPaths, Get(inFlight, id), if id in sent then sent[id] else 0,
           PluginOf(plugins, id))
    }

    /** No call is outstanding for a tracked volume, and the machine invariant holds of it. */
    ghost predicate Ready(id: string)
      reads this
    {
      id in volumes && id !in inFlight && Inv(View(id))
    }

    lemma Checks(id: string)
      requires Ready(id)
      ensures BootRecorded(volumes[id], bootId) && bootId != "" && Capable(caps, volumes[id].state)
      ensures caps.stage && volumes[id].state in {NodeStage, VolReady, NodePublish, NodeUnstage} ==> id in stagingPaths
      ensures volumes[id].state in {NodePublish, Published, NodeUnpublish} ==> id in targetPaths
    {
      InvChecks(View(id));
    }

    lemma Seen(id: string)
      ensures View(id).call == None <==> id !in inFlight
      ensures Used(View(id)) <==> id in volumes && volumes[id].publishRequired
    {
    }

    twostate predicate Only(id: string)
      reads this
    {
      && bootId == old(bootId) && pastBoots == old(pastBoots)
      && forall other :: other != id ==> View(other) == old(View(other))
    }

    /** Nothing asked meanwhile for the volume has failed. */
    twostate predicate Well(id: string)
      reads env
    {
      env.Good(id, old(env.Asked(id)), env.Asked(id))
    }

    // ----- primitives: each is one action of the machine

    method SetVolume(id: string, v: Volume)
      modifies this
      ensures View(id) == old(View(id)).(mem := Some(v)) && Only(id)
    {
      volumes := volumes[id := v];
    }

    method CheckpointVolumeState(id: string)
      requires id in volumes
      modifies this
      ensures volumes == old(volumes) && View(id) == old(View(id)).(disk := Some(volumes[id])) && Only(id)
    {
      checkpoints := checkpoints[id := volumes[id]];
    }

    /** Sets the transient state and syncs it, unless a previous attempt already did. */
    method Announce(id: string, rpc: Rpc) returns (ghost run: Run)
      requires Ready(id)
      requires Supported(caps, rpc) && !rpc.DeleteCall?
      requires volumes[id].state in Sources(rpc) || volumes[id].state == Transient(rpc)
      requires rpc.StageCall? ==> id in stagingPaths
      requires rpc.PublishCall? ==> id in targetPaths
      modifies this
      ensures Ready(id) && Only(id) && Runs(run, old(View(id)), View(id)) && View(id).sent == old(View(id).sent)
      ensures volumes[id] == old(volumes[id]).(state := Transient(rpc))
    {
      run := Stay(View(id));
      if volumes[id].state != Transient(rpc) {
        run := Took(View(id), Mark(rpc));
        InvStep(View(id), Mark(rpc));
        SetVolume(id, volumes[id].(state := Transient(rpc)));
        CheckpointVolumeState(id);
      }
    }

    method SendCall(id: string, rpc: Rpc)
      requires Enabled(View(id), Send(rpc))
      modifies this
      ensures View(id) == Apply(old(View(id)), Send(rpc)) && Only(id)
    {
      ghost var n := View(id);
      inFlight, sent, plugins := inFlight[id := rpc], sent[id := n.sent + 1], plugins[id := Begun(n.plugin, rpc)];
    }

    /** The continuation of a call: a success is recorded and synced, a failure leaves the record. */
    method HandleAnswer(id: string, rpc: Rpc, ok: bool)
      requires id in volumes && Get(inFlight, id) == Some(rpc) && !(rpc.DeleteCall? && ok)
      modifies this
      ensures View(id) == Apply(old(View(id)), if ok then Succeed(rpc) else Fail(rpc)) && Only(id)
    {
      ghost var p := View(id).plugin;
      inFlight := inFlight - {id};
      if ok {
        plugins := plugins[id := Ended(p, rpc)];
        SetVolume(id, Completed(volumes[id], rpc, bootId));
        CheckpointVolumeState(id);
      }
    }

    /** Sends the call and awaits the plugin's answer. */
    method Call(id: string, rpc: Rpc) returns (ok: bool, ghost run: Run)
      requires Ready(id)
      requires Supported(caps, rpc) && !rpc.DeleteCall? && volumes[id].state == Transient(rpc)
      modifies this, env
      ensures Ready(id) && Only(id) && env.Asks(id) && Runs(run, old(View(id)), View(id)) && View(id).sent == old(View(id).sent) + 1
      ensures volumes[id] == if ok then Completed(old(volumes[id]), rpc, bootId) else old(volumes[id])
      ensures ok <==> Well(id)
    {
      hide Inv, Runs, Enabled, Apply, Completed, PluginOf;
      ghost var n := View(id);
      CanSend(n, rpc);
      SendCall(id, rpc);
      ok := env.Ask(id);
      run := Answered(n, rpc, ok);
      HandleAnswer(id, rpc, ok);
    }

    /** Announces the call and makes it. */
    method Perform(id: string, rpc: Rpc) returns (ok: bool, ghost run: Run)
      requires Ready(id)
      requires Supported(caps, rpc) && !rpc.DeleteCall?
      requires volumes[id].state in Sources(rpc) || volumes[id].state == Transient(rpc)
      requires rpc.StageCall? ==> id in stagingPaths
      requires rpc.PublishCall? ==> id in targetPaths
      modifies this, env
      ensures Ready(id) && Only(id) && env.Asks(id) && Runs(run, old(View(id)), View(id)) && View(id).sent == old(View(id).sent) + 1
      ensures volumes[id] ==
        if ok then Completed(old(volumes[id]), rpc, bootId) else old(volumes[id]).(state := Transient(rpc))
      ensures ok <==> Well(id)
    {
      ghost var n := View(id);
      run := Announce(id, rpc);
      ghost var m := View(id);
      ghost var rest;
      ok, rest := Call(id, rpc);
      run := Then(n, run, m, rest, View(id));
    }

    /** A move that makes no call and is not checkpointed. */
    method Skip(id: string, a: Action) returns (ghost run: Run)
      requires Ready(id) && CanSkip(caps, a, volumes[id].state)
      modifies this
      ensures Ready(id) && Only(id) && Runs(run, old(View(id)), View(id)) && View(id).sent == old(View(id).sent)
      ensures volumes[id] == Skipped(old(volumes[id]), a, bootId)
    {
      run := Took(View(id), a);
      InvStep(View(id), a);
      SetVolume(id, Skipped(volumes[id], a, bootId));
    }

    /** Creates a mount directory, unless the file system refuses. */
    method MakeDirectory(id: string, a: Action) returns (ok: bool, ghost run: Run)
      requires Ready(id) && CanMake(caps, a, volumes[id].state)
      modifies this, env
      ensures Ready(id) && Only(id) && env.Asks(id) && Runs(run, old(View(id)), View(id)) && View(id).sent == old(View(id).sent)
      ensures volumes[id] == old(volumes[id])
      ensures ok && a.MakeStaging? ==> id in stagingPaths
      ensures ok && a.MakeTarget? ==> id in targetPaths
      ensures ok <==> Well(id)
    {
      hide Inv, Runs;
      ok := env.Ask(id);
      run := Stay(View(id));
      if ok {
        run := Took(View(id), a);
        InvStep(View(id), a);
        if a.MakeStaging? {
          stagingPaths := stagingPaths + {id};
        } else {
          targetPaths := targetPaths + {id};
        }
      }
    }

    // ----- the lifecycle functions

    /** From `Published` to `VolReady`. */
    method UnpublishNode(id: string) returns (ok: bool, ghost run: Run)
      requires Ready(id)
      modifies this, env
      ensures Ready(id) && Only(id) && env.Asks(id) && Runs(run, old(View(id)), View(id))
      ensures ok ==> volumes[id] == old(volumes[id]).(state := VolReady)
      ensures ok ==> View(id).sent == old(View(id).sent) + UnpublishNodeCost(old(volumes[id].state))
      ensures View(id).sent <= old(View(id).sent) + UnpublishNodeCost(old(volumes[id].state))
      ensures ok ==> old(volumes[id].state) in {VolReady, Published, NodePublish, NodeUnpublish}
      ensures ok ==> Well(id)
      ensures !ok && Well(id) ==>
        && old(volumes[id].state) !in {VolReady, Published, NodePublish, NodeUnpublish}
        && View(id) == old(View(id))
      decreases 0, 0
    {
      hide Inv, Runs, View;
      Checks(id);
      if volumes[id].state == VolReady {
        return true, Stay(View(id));
      }
      if volumes[id].state !in {Published, NodePublish, NodeUnpublish} {
        return false, Stay(View(id));
      }
      assert id in targetPaths;
      ok, run := Perform(id, UnpublishCall);
    }

    /** From any state below it to `NodeReady`. */
    method UnpublishVolume(id: string) returns (ok: bool, ghost run: Run)
      requires Ready(id)
      modifies this, env
      ensures Ready(id) && Only(id) && env.Asks(id) && Runs(run, old(View(id)), View(id))
      ensures ok ==> volumes[id] == old(volumes[id]).(state := NodeReady, bootId := "")
      ensures ok ==> View(id).sent == old(View(id).sent) + UnpublishCost(caps, old(volumes[id].state))
      ensures View(id).sent <= old(View(id).sent) + UnpublishCost(caps, old(volumes[id].state))
      ensures ok ==> old(volumes[id].state) !in {Created, ControllerPublish, ControllerUnpublish}
      ensures ok ==> Well(id)
      ensures !ok && Well(id) ==>
        && old(volumes[id].state) in {Created, ControllerPublish, ControllerUnpublish}
        && View(id) == old(View(id))
      decreases 1, if volumes[id].state in {VolReady, NodeStage, NodeUnstage, NodeReady} then 0 else 1
    {
      hide Inv, Runs, View;
      Checks(id);
      ghost var n := View(id);
      if volumes[id].state == NodeReady {
        assert volumes[id].bootId == "";
        return true, Stay(View(id));
      }
      if volumes[id].state !in {VolReady, NodeStage, NodeUnstage} {
        // Retry after transitioning the volume to `VolReady`.
        ok, run := UnpublishNode(id);
        if ok {
          ghost var m := View(id);
          ghost var rest;
          ok, rest := UnpublishVolume(id);
          run := Then(n, run, m, rest, View(id));
        }
        return;
      }
      if !caps.stage {
        // A no-op: nothing to checkpoint.
        run := Skip(id, SkipUnstage);
        return true, run;
      }
      assert id in stagingPaths;
      ok, run := Perform(id, UnstageCall);
    }

    /** From any state to `Created`. */
    method DetachVolume(id: string) returns (ok: bool, ghost run: Run)
      requires Ready(id)
      modifies this, env
      ensures Ready(id) && Only(id) && env.Asks(id) && Runs(run, old(View(id)), View(id))
      ensures ok ==> volumes[id] == old(volumes[id]).(state := Created, bootId := "")
      ensures ok ==> View(id).sent == old(View(id).sent) + DetachCost(caps, old(volumes[id].state))
      ensures View(id).sent <= old(View(id).sent) + DetachCost(caps, old(volumes[id].state))
      ensures ok <==> Well(id)
      decreases 2, if volumes[id].state in {Created, NodeReady, ControllerPublish, ControllerUnpublish} then 0 else 1
    {
      hide Inv, Runs, View;
      Checks(id);
      ghost var n := View(id);
      if volumes[id].state == Created {
        return true, Stay(View(id));
      }
      if volumes[id].state !in {NodeReady, ControllerPublish, ControllerUnpublish} {
        // Retry after transitioning the volume to `NodeReady`.
        ok, run := UnpublishVolume(id);
        if ok {
          ghost var m := View(id);
          ghost var rest;
          ok, rest := DetachVolume(id);
          run := Then(n, run, m, rest, View(id));
        }
        return;
      }
      if !caps.attach {
        // A no-op: nothing to checkpoint.
        run := Skip(id, SkipDetach);
        return true, run;
      }
      ok, run := Perform(id, DetachCall);
    }

    /** From `Created` to `NodeReady`. */
    method AttachVolume(id: string) returns (ok: bool, ghost run: Run)
      requires Ready(id)
      modifies this, env
      ensures Ready(id) && Only(id) && env.Asks(id) && Runs(run, old(View(id)), View(id))
      ensures ok ==> volumes[id] == old(volumes[id]).(state := NodeReady)
      ensures ok ==> View(id).sent == old(View(id).sent) + AttachCost(caps, old(volumes[id].state))
      ensures View(id).sent <= old(View(id).sent) + AttachCost(caps, old(volumes[id].state))
      ensures ok ==> old(volumes[id].state) in {NodeReady, Created, ControllerPublish, ControllerUnpublish}
      ensures ok ==> Well(id)
      ensures !ok && Well(id) ==>
        && old(volumes[id].state) !in {NodeReady, Created, ControllerPublish, ControllerUnpublish}
        && View(id) == old(View(id))
      decreases 3, if volumes[id].state == ControllerUnpublish then 1 else 0
    {
      hide Inv, Runs, View;
      Checks(id);
      ghost var n := View(id);
      if volumes[id].state == NodeReady {
        return true, Stay(View(id));
      }
      if volumes[id].state !in {Created, ControllerPublish, ControllerUnpublish} {
        return false, Stay(View(id));
      }
      if !caps.attach {
        // A no-op: nothing to checkpoint.
        run := Skip(id, SkipAttach);
        return true, run;
      }
      if volumes[id].state == ControllerUnpublish {
        // Retry after recovering the volume to `Created`.
        ok, run := DetachVolume(id);
        if ok {
          ghost var m := View(id);
          ghost var rest;
          ok, rest := AttachVolume(id);
          run := Then(n, run, m, rest, View(id));
        }
        return;
      }
      ok, run := Perform(id, AttachCall);
    }

    /** From `NodeReady` to `VolReady`: the staging directory, then the call. */
    method StageNode(id: string) returns (ok: bool, ghost run: Run)
      requires Ready(id) && caps.stage && volumes[id].state in {NodeReady, NodeStage}
      modifies this, env
      ensures Ready(id) && Only(id) && env.Asks(id) && Runs(run, old(View(id)), View(id))
      ensures ok ==> volumes[id] == old(volumes[id]).(state := VolReady, bootId := bootId)
      ensures ok ==> View(id).sent == old(View(id).sent) + 1
      ensures View(id).sent <= old(View(id).sent) + 1
      ensures ok <==> Well(id)
    {
      hide Inv, Runs, View;
      ghost var n := View(id);
      ok, run := MakeDirectory(id, MakeStaging);
      if ok {
        ghost var m := View(id);
        ghost var rest;
        ok, rest := Perform(id, StageCall);
        run := Then(n, run, m, rest, View(id));
      }
    }

    /** From any state above it to `VolReady`. */
    method StageVolume(id: string) returns (ok: bool, ghost run: Run)
      requires Ready(id)
      modifies this, env
      ensures Ready(id) && Only(id) && env.Asks(id) && Runs(run, old(View(id)), View(id))
      ensures ok ==> volumes[id] == old(volumes[id]).(state := VolReady, bootId := bootId)
      ensures ok ==> View(id).sent == old(View(id).sent) + StageCost(caps, old(volumes[id].state))
      ensures View(id).sent <= old(View(id).sent) + StageCost(caps, old(volumes[id].state))
      ensures ok ==> old(volumes[id].state) !in {Published, NodePublish, NodeUnpublish}
      ensures ok ==> Well(id)
      ensures !ok && Well(id) ==>
        && old(volumes[id].state) in {Published, NodePublish, NodeUnpublish}
        && View(id) == old(View(id))
      decreases 4, if volumes[id].state in {VolReady, NodeReady, NodeStage} then 0 else 1
    {
      hide Inv, Runs, View;
      Checks(id);
      ghost var n := View(id);
      if volumes[id].state == VolReady {
        assert volumes[id].bootId != "";
        return true, Stay(View(id));
      }
      if volumes[id].state !in {NodeReady, NodeStage, NodeUnstage} {
        // Retry after transitioning the volume to `NodeReady`.
        ok, run := AttachVolume(id);
        if ok {
          ghost var m := View(id);
          ghost var rest;
          ok, rest := StageVolume(id);
          run := Then(n, run, m, rest, View(id));
        }
        return;
      }
      if !caps.stage {
        // A no-op: nothing to checkpoint.
        run := Skip(id, SkipStage);
        return true, run;
      }
      if volumes[id].state == NodeUnstage {
        // Retry after recovering the volume to `NodeReady`.
        ok, run := UnpublishVolume(id);
        if ok {
          ghost var m := View(id);
          ghost var rest;
          ok, rest := StageVolume(id);
          run := Then(n, run, m, rest, View(id));
        }
        return;
      }
      ok, run := StageNode(id);
    }

    /** From `VolReady` to `Published`: the target directory, then the call. */
    method PublishNode(id: string) returns (ok: bool, ghost run: Run)
      requires Ready(id) && volumes[id].state in {VolReady, NodePublish}
      modifies this, env
      ensures Ready(id) && Only(id) && env.Asks(id) && Runs(run, old(View(id)), View(id))
      ensures ok ==> volumes[id] == Volume(Published, bootId, true)
      ensures ok ==> View(id).sent == old(View(id).sent) + 1
      ensures View(id).sent <= old(View(id).sent) + 1
      ensures ok <==> Well(id)
    {
      hide Inv, Runs, View;
      ghost var n := View(id);
      ok, run := MakeDirectory(id, MakeTarget);
      if ok {
        Checks(id);
        assert caps.stage ==> id in stagingPaths;
        ghost var m := View(id);
        ghost var rest;
        ok, rest := Perform(id, PublishCall);
        run := Then(n, run, m, rest, View(id));
      }
    }

    /** From any state to `Published`. */
    method PublishVolume(id: string) returns (outcome: Outcome, ghost run: Run)
      requires Ready(id)
      modifies this, env
      ensures Ready(id) && Only(id) && env.Asks(id) && Runs(run, old(View(id)), View(id))
      ensures outcome.Done? ==>
        volumes[id] == Volume(Published, bootId, true) && View(id).sent == old(View(id).sent) + PublishCost(caps, old(volumes[id].state))
      ensures View(id).sent <= old(View(id).sent) + PublishCost(caps, old(volumes[id].state))
      ensures outcome.Aborted? <==> old(volumes[id].state) == Published && !old(volumes[id].publishRequired)
      ensures outcome.Failed? <==> !Well(id)
      decreases 5, if volumes[id].state in {Published, VolReady, NodePublish} then 0 else 1
    {
      hide Inv, Runs, View;
      Checks(id);
      ghost var n := View(id);
      var ok;
      if volumes[id].state == Published {
        return if volumes[id].publishRequired then Done else Aborted, Stay(View(id));
      }
      if volumes[id].state !in {VolReady, NodePublish} {
        // Retry after transitioning the volume, or recovering it, to `VolReady`.
        if volumes[id].state == NodeUnpublish {
          ok, run := UnpublishNode(id);
        } else {
          ok, run := StageVolume(id);
        }
        if !ok {
          outcome := Failed;
          return;
        }
        ghost var m := View(id);
        ghost var rest;
        outcome, rest := PublishVolume(id);
        run := Then(n, run, m, rest, View(id));
        return;
      }
      ok, run := PublishNode(id);
      outcome := if ok then Done else Failed;
    }

    // ----- creation, deletion and recovery

    /** Tracks a volume that the plugin has created or validated; a volume already tracked is refused. */
    method TrackVolume(id: string) returns (ok: bool, ghost run: Run)
      requires Inv(View(id))
      modifies this
      ensures Only(id) && Inv(View(id)) && Runs(run, old(View(id)), View(id))
      ensures ok <==> id !in old(volumes)
      ensures ok ==> id in volumes && volumes[id] == Volume(Created, "", false)
      ensures !ok ==> View(id) == old(View(id))
    {
      if id in volumes {
        return false, Stay(View(id));
      }
      ok, run := true, Took(View(id), Create);
      InvStep(View(id), Create);
      SetVolume(id, Volume(Created, "", false));
      CheckpointVolumeState(id);
    }

    method EraseVolume(id: string)
      modifies this
      ensures View(id) == Erase(old(View(id))) && Only(id)
    {
      volumes, checkpoints := volumes - {id}, checkpoints - {id};
    }

    /** Removes the mount directories of a volume that is not tracked; the file system is free to refuse. */
    method GarbageCollectMountPath(id: string) returns (ghost run: Run)
      requires id !in volumes && Inv(View(id))
      modifies this
      ensures Only(id) && Inv(View(id)) && Runs(run, old(View(id)), View(id)) && volumes == old(volumes)
      ensures View(id) == old(View(id)) || View(id) == old(View(id)).(staging := false, target := false)
    {
      hide Inv, Runs;
      run := Stay(View(id));
      var removed := *;
      if removed {
        run := Took(View(id), Collect);
        InvStep(View(id), Collect);
        stagingPaths, targetPaths := stagingPaths - {id}, targetPaths - {id};
      }
    }

    /** Forgets the volume in memory and on disk, then its mount directories. */
    method RemoveVolume(id: string, ghost n: Node, ghost a: Action) returns (ghost run: Run)
      requires a == Drop || a == Succeed(DeleteCall)
      requires Inv(n) && Enabled(n, a) && Apply(n, a) == Erase(View(id))
      modifies this
      ensures Only(id) && Inv(View(id)) && Runs(run, n, View(id)) && View(id).sent == n.sent
      ensures id !in volumes && id !in checkpoints && id !in inFlight
    {
      hide Inv, Runs;
      run := Took(n, a);
      InvStep(n, a);
      EraseVolume(id);
      ghost var m := View(id);
      ghost var rest := GarbageCollectMountPath(id);
      run := Then(n, run, m, rest, View(id));
    }

    method ForgetPublish(id: string) returns (ghost run: Run)
      requires Ready(id) && volumes[id].state == Published && volumes[id].publishRequired
      modifies this
      ensures Ready(id) && Only(id) && Runs(run, old(View(id)), View(id)) && View(id).sent == old(View(id).sent)
      ensures volumes[id] == old(volumes[id]).(publishRequired := false)
    {
      run := Took(View(id), Forget);
      InvStep(View(id), Forget);
      SetVolume(id, volumes[id].(publishRequired := false));
      CheckpointVolumeState(id);
    }

    /** The continuation of `DeleteVolume`. */
    method HandleDelete(id: string, ok: bool) returns (ghost run: Run)
      requires id in volumes && Inv(View(id)) && Get(inFlight, id) == Some(DeleteCall)
      modifies this
      ensures Only(id) && Inv(View(id)) && id !in inFlight && Runs(run, old(View(id)), View(id))
      ensures View(id).sent == old(View(id).sent)
      ensures if ok then id !in volumes && id !in checkpoints else Ready(id)
    {
      hide Inv, Runs;
      ghost var n := View(id);
      if ok {
        inFlight := inFlight - {id};
        run := RemoveVolume(id, n, Succeed(DeleteCall));
      } else {
        run := Took(n, Fail(DeleteCall));
        InvStep(n, Fail(DeleteCall));
        HandleAnswer(id, DeleteCall, false);
      }
    }

    method DeleteCreated(id: string) returns (ok: bool, ghost run: Run)
      requires Ready(id) && volumes[id].state == Created
      modifies this, env
      ensures Only(id) && env.Asks(id) && Inv(View(id)) && id !in inFlight && Runs(run, old(View(id)), View(id))
      ensures View(id).sent == old(View(id).sent) + One(caps.delete)
      ensures if ok then id !in volumes && id !in checkpoints else Ready(id) && caps.delete
      ensures ok <==> Well(id)
    {
      hide Inv, Runs;
      ghost var n := View(id);
      if !caps.delete {
        run := RemoveVolume(id, n, Drop);
        return true, run;
      }
      run := Took(n, Send(DeleteCall));
      InvStep(n, Send(DeleteCall));
      SendCall(id, DeleteCall);
      ghost var m := View(id);
      ok := env.Ask(id);
      ghost var rest := HandleDelete(id, ok);
      run := Then(n, run, m, rest, View(id));
    }

    /** Deletes a tracked volume, detaching it first. */
    method DeleteVolume(id: string) returns (outcome: Outcome, ghost run: Run)
      requires Ready(id)
      modifies this, env
      ensures Only(id) && env.Asks(id) && Inv(View(id)) && id !in inFlight && Runs(run, old(View(id)), View(id))
      ensures outcome.Done? ==> id !in volumes && id !in checkpoints
      ensures !outcome.Done? ==> Ready(id)
      ensures outcome.Aborted? <==> old(volumes[id].publishRequired) && old(volumes[id].state) != Published
      ensures outcome.Failed? <==> !Well(id)
      ensures View(id).sent <= old(View(id).sent) + DetachCost(caps, old(volumes[id].state)) + One(caps.delete)
      ensures outcome.Done? ==>
        View(id).sent == old(View(id).sent) + DetachCost(caps, old(volumes[id].state)) + One(caps.delete)
      decreases 6, One(volumes[id].publishRequired || volumes[id].state != Created)
    {
      hide Inv, Runs, View;
      ghost var n := View(id);
      run := Stay(n);
      if volumes[id].publishRequired {
        if volumes[id].state != Published {
          outcome := Aborted;
          return;
        }
        var cleaned := env.Ask(id);
        if !cleaned {
          outcome := Failed;
          return;
        }
        run := ForgetPublish(id);
      }
      if volumes[id].state != Created {
        ghost var m := View(id);
        ghost var rest;
        var ok;
        ok, rest := DetachVolume(id);
        run := Then(n, run, m, rest, View(id));
        if !ok {
          outcome := Failed;
          return;
        }
        m := View(id);
        outcome, rest := DeleteVolume(id);
        run := Then(n, run, m, rest, View(id));
        return;
      }
      ghost var m := View(id);
      ghost var rest;
      var ok;
      ok, rest := DeleteCreated(id);
      run, outcome := Then(n, run, m, rest, View(id)), if ok then Done else Failed;
    }

    method LoadVolumes()
      modifies this`volumes
      ensures forall id :: Get(volumes, id) == CsiVolume.Recover(Get(checkpoints, id), bootId)
    {
      volumes := map[];
      var todo := checkpoints.Keys;
      while todo != {}
        invariant todo <= checkpoints.Keys && volumes.Keys == checkpoints.Keys - todo
        invariant forall id :: id in volumes ==> volumes[id] == RecoverVolume(checkpoints[id], bootId)
        decreases todo
      {
        var id :| id in todo;
        volumes := volumes[id := RecoverVolume(checkpoints[id], bootId)];
        todo := todo - {id};
      }
    }

    /** What a reboot does outside of the process: node-local effects of the plugin are gone. */
    ghost method LoseNode(rebooted: bool, boot: string)
      modifies this`pastBoots, this`plugins
      ensures pastBoots == if rebooted then old(pastBoots) + {boot} else old(pastBoots)
      ensures forall id ::
                PluginOf(plugins, id) == (var p := PluginOf(old(plugins), id);
                                          if rebooted then p.(staged := No, published := No) else p)
    {
      if rebooted {
        pastBoots := pastBoots + {boot};
        plugins := map id | id in plugins :: plugins[id].(staged := No, published := No);
      }
    }

    /** Loads every checkpoint, on the boot the agent now runs on. */
    method Reload(rebooted: bool, boot: string)
      requires if rebooted then boot != "" && boot !in pastBoots else boot == bootId
      modifies this
      ensures forall id :: View(id) == Reset(old(View(id)), rebooted, boot)
    {
      hide RecoverVolume, Apply, PluginOf;
      bootId, inFlight := boot, map[];
      LoseNode(rebooted, boot);
      LoadVolumes();
    }

    /** Removes the mount directories left behind by volumes that are no longer tracked. */
    method CollectMountPaths()
      requires forall id :: Inv(View(id))
      modifies this
      ensures volumes == old(volumes) && bootId == old(bootId) && pastBoots == old(pastBoots)
      ensures forall id :: Inv(View(id))
      ensures forall id :: View(id) == old(View(id)) || (id !in volumes && View(id) == old(View(id)).(staging := false, target := false))
    {
      hide Inv, Runs, View, Apply;
      var todo := stagingPaths + targetPaths;
      while todo != {}
        invariant volumes == old(volumes) && bootId == old(bootId) && pastBoots == old(pastBoots)
        invariant forall id :: Inv(View(id))
        invariant forall id :: id in todo ==> View(id) == old(View(id))
        invariant forall id :: View(id) == old(View(id)) || (id !in volumes && View(id) == old(View(id)).(staging := false, target := false))
        decreases todo
      {
        var id :| id in todo;
        if id !in volumes {
          ghost var run := GarbageCollectMountPath(id);
        }
        todo := todo - {id};
      }
    }

    /** Publishes a volume that a container has used. */
    method PublishAgain(id: string)
      requires Ready(id) && Used(View(id))
      modifies this, env
      ensures Ready(id) && Only(id) && env.Asks(id) && Reaches(old(View(id)), View(id))
      ensures Well(id) ==> Restored(View(id))
    {
      hide Inv, Runs, Reaches, PublishCost;
      var outcome;
      ghost var run;
      outcome, run := PublishVolume(id);
      Reached(run, old(View(id)), View(id));
    }

    /** Brings every volume that a container has used back to `Published`, unless something fails for it. */
    method PublishRequired()
      requires forall id :: Inv(View(id)) && id !in inFlight
      modifies this, env
      ensures forall id :: Inv(View(id)) && id !in inFlight
      ensures bootId == old(bootId)
      ensures forall id :: Reaches(old(View(id)), View(id)) && old(env.Asked(id)) <= env.Asked(id)
      ensures forall id :: if Used(old(View(id))) then Well(id) ==> Restored(View(id)) else View(id) == old(View(id))
    {
      hide Inv, Reaches, Restored, View, Used;
      var todo := set id | id in volumes && volumes[id].publishRequired;
      forall id
        ensures Reaches(View(id), View(id)) && View(id).call == None && (Used(View(id)) <==> id in todo)
      {
        Idles(View(id));
        Seen(id);
      }
      while todo != {}
        invariant bootId == old(bootId)
        invariant forall id :: Inv(View(id)) && View(id).call == None
        invariant forall id :: Reaches(old(View(id)), View(id)) && old(env.Asked(id)) <= env.Asked(id)
        invariant forall id :: id in todo ==>
                    Used(View(id)) && View(id) == old(View(id)) && env.Asked(id) == old(env.Asked(id))
        invariant forall id :: id !in todo ==>
                    if Used(old(View(id))) then Well(id) ==> Restored(View(id)) else View(id) == old(View(id))
        decreases todo
      {
        var id :| id in todo;
        label before:
        Seen(id);
        PublishAgain(id);
        Seen(id);
        todo := todo - {id};
        assert Only@before(id);
      }
      forall id ensures id !in inFlight { Seen(id); }
    }

    /**
    Recovery after the process died at any point, with or without a reboot: every volume is where
    the machine's restart or reboot puts it and then moves on by machine actions. A volume whose
    checkpoint says that a container has used it is published again unless a call or the file system
    fails for it; the others stay, but for directories of volumes that are not tracked.
    */
    method Recover(rebooted: bool, boot: string)
      requires if rebooted then boot != "" && boot !in pastBoots else boot == bootId
      requires forall id :: Inv(View(id))
      modifies this, env
      ensures forall id :: Inv(View(id)) && id !in inFlight
      ensures forall id ::
                Reaches(Apply(old(View(id)), if rebooted then Reboot(boot) else Restart), View(id))
      ensures forall id :: id in old(checkpoints) && old(checkpoints[id].publishRequired) && Well(id) ==>
                id in volumes && volumes[id] == Volume(Published, boot, true)
      ensures forall id :: id in old(checkpoints) && !old(checkpoints[id].publishRequired) ==>
                View(id) == Apply(old(View(id)), if rebooted then Reboot(boot) else Restart)
    {
      hide Inv, Reaches, Apply, Runs, Reset, RecoverVolume;
      ghost var a := if rebooted then Reboot(boot) else Restart;
      forall id
        ensures Enabled(View(id), a) && Reset(View(id), rebooted, boot) == Apply(View(id), a)
        ensures Inv(Apply(View(id), a)) && Apply(View(id), a).call == None && Apply(View(id), a).bootId == boot
        ensures Used(Apply(View(id), a)) <==> id in checkpoints && checkpoints[id].publishRequired
        ensures id in checkpoints ==> Apply(View(id), a).mem.Some?
      {
        ResetIsReload(View(id), rebooted, boot);
      }
      Reload(rebooted, boot);
      label loaded:
      CollectMountPaths();
      label collected:
      PublishRequired();
      forall id
        ensures Reaches(Apply(old(View(id)), a), View(id))
        ensures Used(Apply(old(View(id)), a)) && Well(id) ==> Restored(View(id))
        ensures id in old(checkpoints) && !Used(Apply(old(View(id)), a)) ==> View(id) == Apply(old(View(id)), a)
      {
        ghost var n, m := old@loaded(View(id)), old@collected(View(id));
        assert n == Apply(old(View(id)), a);
        CollectReaches(n, m);
        ReachesTrans(n, m, View(id));
      }
    }
  }

  /** A container has used the volume. */
  ghost predicate Used(n: Node) {
    n.mem.Some? && n.mem.value.publishRequired
  }

  ghost predicate Restored(n: Node) {
    n.mem == Some(Volume(Published, n.bootId, true))
  }

  /** A node whose manager starts again from the checkpoint. */
  function Reset(n: Node, rebooted: bool, boot: string): Node {
    n.(bootId := boot, pastBoots := if rebooted then n.pastBoots + {boot} else n.pastBoots,
       mem := CsiVolume.Recover(n.disk, boot), call := None,
       plugin := if rebooted then n.plugin.(staged := No, published := No) else n.plugin)
  }

  lemma ResetIsReload(n: Node, rebooted: bool, boot: string)
    requires Inv(n) && if rebooted then boot != "" && boot !in n.pastBoots else boot == n.bootId
    ensures var a := if rebooted then Reboot(boot) else Restart;
      && Enabled(n, a) && Reset(n, rebooted, boot) == Apply(n, a)
      && Inv(Apply(n, a)) && Apply(n, a).call == None && Apply(n, a).bootId == boot
      && (Used(Apply(n, a)) <==> n.disk.Some? && n.disk.value.publishRequired)
      && (n.disk.Some? ==> Apply(n, a).mem.Some?)
  {
    InvStep(n, if rebooted then Reboot(boot) else Restart);
  }

  lemma CollectReaches(n: Node, m: Node)
    requires m == n || (n.mem.None? && m == n.(staging := false, target := false))
    ensures Reaches(n, m)
  {
    if m == n {
      Idles(n);
    } else {
      Reached(Took(n, Collect), n, m);
    }
  }

  lemma ReachesTrans(n: Node, m: Node, k: Node)
    requires Reaches(n, m) && Reaches(m, k)
    ensures Reaches(n, k)
  {
    var r1 :| Runs(r1, n, m);
    var r2 :| Runs(r2, m, k);
    Reached(Then(n, r1, m, r2, k), n, k);
  }
}
