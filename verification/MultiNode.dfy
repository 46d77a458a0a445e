/** Many nodes at once: what the concurrent executor leaves behind for each of them, and the
    sequential loops around it. */
module MultiNode {
  import opened Wrappers
  import opened Proxmox
  import opened Lifecycle
  import FanOut

  /** What planning gives for each node, in name order. */
  function Planned(targets: seq<Target>, skipBuild: bool): (plans: seq<seq<Kind>>)
    ensures |plans| == |targets|
  {
    seq(|targets|, i requires 0 <= i < |targets| => PlanOf(targets[i], skipBuild))
  }

  /** The executor's input: each node's change list as operations. */
  function Given(targets: seq<Target>, s: Settings, plans: seq<seq<Kind>>): (lists: seq<seq<Op>>)
    requires |plans| == |targets|
    ensures |lists| == |targets|
  {
    seq(|targets|, i requires 0 <= i < |targets| => ExecutorOps(Script(targets[i], s, plans[i], false)))
  }

  function PlansOf(targets: seq<Target>, s: Settings): seq<seq<Op>> { Given(targets, s, Planned(targets, s.skipKickstartBuild)) }

  /** Of a planned node the executor is given operations of its plan, and perhaps a step that can only fail. */
  lemma PlanGiven(targets: seq<Target>, s: Settings, i: nat)
    requires i < |targets|
    ensures forall op :: op in PlansOf(targets, s)[i] ==> op == Missing || op in PlanOps(targets[i], s.skipKickstartBuild)
  {
    var t := targets[i];
    var m := GivenOps(t, s, PlanOf(t, s.skipKickstartBuild));
  }

  predicate DistinctVMIDs(targets: seq<Target>) {
    forall i, j :: 0 <= i < |targets| && 0 <= j < |targets| && i != j ==> targets[i].vmid != targets[j].vmid
  }

  /** Names and VMIDs are distinct, and the kickstart storage is the manifest's one. */
  predicate DistinctNodes(targets: seq<Target>) {
    DistinctVMIDs(targets) &&
    forall i, j :: 0 <= i < |targets| && 0 <= j < |targets| && i != j ==>
      targets[i].name != targets[j].name && targets[i].kickstartStorage == targets[j].kickstartStorage
  }

  predicate Ready(targets: seq<Target>) {
    forall i :: 0 <= i < |targets| ==> targets[i].form.Some?
  }

  /** What changes do to volumes: they look, or they upload the node's own image under the node's name. */
  lemma {:induction false} VolumeOps(t: Target, changes: seq<Kind>)
    ensures forall op :: op in OpsList(t, changes) ==>
              && (op.Upload? ==> UploadISO in changes && op == Upload(t.host, UploadedVolume(t), t.name))
              && (op.FindVolume? ==> VerifyKickstartISO in changes)
  {
    if changes != [] {
      VolumeOps(t, changes[1..]);
    }
  }

  /** ISO names are indexed by node: different nodes upload under different names. */
  lemma UploadNamesDiffer(t: Target, u: Target)
    requires t.name != u.name && t.kickstartStorage == u.kickstartStorage
    ensures UploadedVolume(t) != UploadedVolume(u)
  {
    var n := |t.kickstartStorage + ":iso/" + "proxctl-"|;
    UploadNameHolds(t, n);
    UploadNameHolds(u, n);
  }

  lemma UploadNameHolds(t: Target, n: nat)
    requires n == |t.kickstartStorage + ":iso/" + "proxctl-"|
    ensures |UploadedVolume(t)| == n + |t.name| + 4 && UploadedVolume(t)[n..n + |t.name|] == t.name
  {
    assert UploadedVolume(t) == (t.kickstartStorage + ":iso/" + "proxctl-") + t.name + ".iso";
  }

  /** Distinct VMIDs and names are all it takes for the nodes' operations to commute. */
  lemma DistinctNodesIndependent(targets: seq<Target>, s: Settings)
    requires DistinctNodes(targets)
    ensures FanOut.IndependentPlans(PlansOf(targets, s))
  {
    var plans := PlansOf(targets, s);
    forall i, j, a, b | 0 <= i < |plans| && 0 <= j < |plans| && i != j && 0 <= a < |plans[i]| && 0 <= b < |plans[j]|
      ensures Independent(plans[i][a], plans[j][b])
    {
      PlanGiven(targets, s, i);
      PlanGiven(targets, s, j);
      TwoNodesIndependent(targets[i], targets[j], s.skipKickstartBuild, plans[i][a], plans[j][b]);
    }
  }

  lemma TwoNodesIndependent(t: Target, u: Target, skipBuild: bool, a: Op, b: Op)
    requires t.vmid != u.vmid && t.name != u.name && t.kickstartStorage == u.kickstartStorage
    requires a == Missing || a in PlanOps(t, skipBuild)
    requires b == Missing || b in PlanOps(u, skipBuild)
    ensures Independent(a, b)
  {
    OpsStayOnTarget(t, PlanOf(t, skipBuild));
    OpsStayOnTarget(u, PlanOf(u, skipBuild));
    VolumeOps(t, PlanOf(t, skipBuild));
    VolumeOps(u, PlanOf(u, skipBuild));
    UploadNamesDiffer(t, u);
  }

  /** A list that Proxmox accepts has no step that can only fail. */
  lemma {:induction false} NothingMissing(ops: seq<Op>, w: World)
    requires Run(ops, w).Some?
    ensures Missing !in ops
  {
    if ops != [] {
      NothingMissing(ops[1..], Effect(ops[0], w).value);
    }
  }

  /** Without a `Create` a VM that is not there stays away. */
  lemma {:induction false} NothingCreated(ops: seq<Op>, vmid: int, w: World)
    requires Run(ops, w).Some? && Slot(w, vmid) == None && forall op :: op in ops ==> !op.Create?
    ensures Slot(Run(ops, w).value, vmid) == None
  {
    if ops != [] {
      NothingCreated(ops[1..], vmid, Effect(ops[0], w).value);
    }
  }

  lemma {:induction false} NoCreateWithoutForm(t: Target, changes: seq<Kind>)
    requires t.form == None
    ensures forall op :: op in OpsList(t, changes) ==> !op.Create?
  {
    if changes != [] {
      NoCreateWithoutForm(t, changes[1..]);
    }
  }

  lemma {:induction false} SlotUntouched(ops: seq<Op>, vmid: int, w: World)
    requires Run(ops, w).Some? && forall k :: 0 <= k < |ops| && ops[k].OnVM() ==> ops[k].vmid != vmid
    ensures Slot(Run(ops, w).value, vmid) == Slot(w, vmid)
  {
    if ops != [] {
      SlotUntouched(ops[1..], vmid, Effect(ops[0], w).value);
    }
  }

  /** A VM's slot after the nodes ran one by one depends on its own node's operations alone. */
  lemma SlotAfterSequential(lists: seq<seq<Op>>, i: nat, vmid: int, w: World)
    requires i < |lists| && FanOut.Sequential(lists, w).Some?
    requires forall j, b :: 0 <= j < |lists| && j != i && 0 <= b < |lists[j]| && lists[j][b].OnVM() ==> lists[j][b].vmid != vmid
    ensures exists w' :: Slot(w', vmid) == Slot(w, vmid) && Run(lists[i], w').Some?
              && Slot(Run(lists[i], w').value, vmid) == Slot(FanOut.Sequential(lists, w).value, vmid)
  {
    var before, later := FanOut.Flatten(lists[..i]), FanOut.Flatten(lists[i + 1..]);
    FanOut.FlattenAt(lists, i);
    RunConcat(before + lists[i], later, w);
    RunConcat(before, lists[i], w);
    var w' := Run(before, w).value;
    forall k | 0 <= k < |before| && before[k].OnVM() ensures before[k].vmid != vmid {
      FanOut.FlattenMember(lists[..i], k);
      var j, b :| 0 <= j < |lists[..i]| && 0 <= b < |lists[..i][j]| && lists[..i][j][b] == before[k];
      assert lists[j][b] == before[k];
    }
    forall k | 0 <= k < |later| && later[k].OnVM() ensures later[k].vmid != vmid {
      FanOut.FlattenMember(lists[i + 1..], k);
      var j, b :| 0 <= j < |lists[i + 1..]| && 0 <= b < |lists[i + 1..][j]| && lists[i + 1..][j][b] == later[k];
      assert lists[i + 1 + j][b] == later[k];
    }
    SlotUntouched(before, vmid, w);
    SlotUntouched(later, vmid, Run(lists[i], w').value);
    assert Slot(w', vmid) == Slot(w, vmid);
  }

  /** Only node i's operations are about its VM. */
  lemma OthersElsewhere(targets: seq<Target>, s: Settings, i: nat, j: nat)
    requires DistinctVMIDs(targets) && i < |targets| && j < |targets| && i != j
    ensures forall op :: op in PlansOf(targets, s)[j] && op.OnVM() ==> op.vmid != targets[i].vmid
  {
    PlanGiven(targets, s, j);
    OpsStayOnTarget(targets[j], PlanOf(targets[j], s.skipKickstartBuild));
  }

  /** What took effect of a node is a beginning of its plan. */
  lemma DoneIsPlanned(targets: seq<Target>, s: Settings, i: nat, done: seq<Op>)
    requires i < |targets| && done <= PlansOf(targets, s)[i] && Missing !in done
    ensures done <= PlanOps(targets[i], s.skipKickstartBuild)
  {
    var t := targets[i];
    var m := GivenOps(t, s, PlanOf(t, s.skipKickstartBuild));
    var given, ops := PlansOf(targets, s)[i], PlanOps(t, s.skipKickstartBuild);
    if Missing in given {
      assert given[m] == Missing;
      PrefixOfSnoc(done, ops[..m], Missing);
    }
  }

  lemma PrefixOfSnoc<T>(s: seq<T>, init: seq<T>, last: T)
    requires s <= init + [last]
    ensures s == init + [last] || s <= init
  {
  }

  /** Isolation: in every reachable state of the executor, whatever has failed or been cancelled
      anywhere, each node's VM is exactly at the stage of that node's own progress. */
  lemma EachVMAtItsStage(targets: seq<Target>, s: Settings, c: FanOut.Config, w: World, steps: seq<FanOut.Step>, i: nat)
    requires DistinctNodes(targets) && i < |targets|
    requires c.plans == PlansOf(targets, s) && FanOut.Legal(c, FanOut.Init(c, w), steps)
    requires Slot(w, targets[i].vmid) == None
    ensures var after, t := FanOut.After(c, FanOut.Init(c, w), steps), targets[i];
            && after.done[i] <= PlanOps(t, s.skipKickstartBuild)
            && Slot(after.world, t.vmid) == if t.form.Some? then Stage(t, s.skipKickstartBuild, |after.done[i]|) else None
  {
    DistinctNodesIndependent(targets, s);
    FanOut.Serializable(c, w, steps);
    var after, t, skip := FanOut.After(c, FanOut.Init(c, w), steps), targets[i], s.skipKickstartBuild;
    var done := after.done[i];
    forall j, b | 0 <= j < |after.done| && j != i && 0 <= b < |after.done[j]| && after.done[j][b].OnVM() ensures after.done[j][b].vmid != t.vmid {
      assert after.done[j][b] == c.plans[j][b];
      OthersElsewhere(targets, s, i, j);
    }
    SlotAfterSequential(after.done, i, t.vmid, w);
    var w' :| Slot(w', t.vmid) == Slot(w, t.vmid) && Run(done, w').Some?
              && Slot(Run(done, w').value, t.vmid) == Slot(after.world, t.vmid);
    assert done <= c.plans[i];
    NothingMissing(done, w');
    DoneIsPlanned(targets, s, i, done);
    OwnStage(t, skip, done, w');
  }

  lemma OwnStage(t: Target, skipBuild: bool, done: seq<Op>, w: World)
    requires done <= PlanOps(t, skipBuild) && Run(done, w).Some? && Slot(w, t.vmid) == None
    ensures Slot(Run(done, w).value, t.vmid) == if t.form.Some? then Stage(t, skipBuild, |done|) else None
  {
    if t.form.Some? {
      assert done == PlanOps(t, skipBuild)[..|done|];
      StageReached(t, skipBuild, |done|, w);
    } else {
      NoCreateWithoutForm(t, PlanOf(t, skipBuild));
      NothingCreated(done, t.vmid, w);
    }
  }

  /** The executor ran to its end and returned nil. */
  predicate RanClean(c: FanOut.Config, w: World, steps: seq<FanOut.Step>) {
    FanOut.Legal(c, FanOut.Init(c, w), steps) &&
    var s := FanOut.After(c, FanOut.Init(c, w), steps);
    FanOut.Final(s) && FanOut.ReturnsNil(c, s)
  }

  /** When `applyPlan` returns nil, nothing was missing anywhere, and every VMID was free. */
  lemma NilMeansFree(targets: seq<Target>, s: Settings, c: FanOut.Config, w: World, steps: seq<FanOut.Step>, i: nat)
    requires DistinctNodes(targets) && c.plans == PlansOf(targets, s) && RanClean(c, w, steps)
    requires i < |targets|
    ensures targets[i].form.Some? && c.plans[i] == PlanOps(targets[i], s.skipKickstartBuild)
    ensures Slot(w, targets[i].vmid) == None
  {
    DistinctNodesIndependent(targets, s);
    FanOut.CleanRunIsSequential(c, w, steps);
    var t, skip := targets[i], s.skipKickstartBuild;
    forall j, b | 0 <= j < |c.plans| && j != i && 0 <= b < |c.plans[j]| && c.plans[j][b].OnVM() ensures c.plans[j][b].vmid != t.vmid {
      OthersElsewhere(targets, s, i, j);
    }
    SlotAfterSequential(c.plans, i, t.vmid, w);
    var w' :| Slot(w', t.vmid) == Slot(w, t.vmid) && Run(c.plans[i], w').Some?
              && Slot(Run(c.plans[i], w').value, t.vmid) == Slot(FanOut.Sequential(c.plans, w).value, t.vmid);
    NothingMissing(c.plans[i], w');
    var m := GivenOps(t, s, PlanOf(t, skip));
    assert CreateVM in PlanOf(t, skip) by { assert Tail(t)[0] == CreateVM; }
    PlanNeedsFreeSlot(t, skip, w');
  }

  /** A node's VM as a complete apply leaves it. */
  function Applied(t: Target, skipBuild: bool): VM
    requires t.form.Some?
  {
    VM(t.host, true, ConfAt(t, skipBuild, |PlanOps(t, skipBuild)|))
  }

  /** `applyPlan` returning nil means that every node's VM is created, attached and running. */
  lemma NilMeansAllRunning(targets: seq<Target>, s: Settings, c: FanOut.Config, w: World, steps: seq<FanOut.Step>)
    requires DistinctNodes(targets) && c.plans == PlansOf(targets, s) && RanClean(c, w, steps)
    ensures forall i :: 0 <= i < |targets| ==>
              && targets[i].form.Some? && Slot(w, targets[i].vmid) == None
              && Slot(FanOut.After(c, FanOut.Init(c, w), steps).world, targets[i].vmid) == Some(Applied(targets[i], s.skipKickstartBuild))
  {
    FanOut.NilIffAllComplete(c, w, steps);
    forall i | 0 <= i < |targets|
      ensures targets[i].form.Some? && Slot(w, targets[i].vmid) == None
      ensures Slot(FanOut.After(c, FanOut.Init(c, w), steps).world, targets[i].vmid) == Some(Applied(targets[i], s.skipKickstartBuild))
    {
      NilMeansFree(targets, s, c, w, steps, i);
      EachVMAtItsStage(targets, s, c, w, steps, i);
      PlanOpsAre(targets[i], s.skipKickstartBuild);
    }
  }

  /** Every upload to the volume brings this content. */
  predicate BringsOnly(ops: seq<Op>, key: (string, string), content: string) {
    forall k :: 0 <= k < |ops| && ops[k].Upload? && (ops[k].host, ops[k].volid) == key ==> ops[k].content == content
  }

  predicate Brings(ops: seq<Op>, key: (string, string)) {
    exists k :: 0 <= k < |ops| && ops[k].Upload? && (ops[k].host, ops[k].volid) == key
  }

  predicate HoldsImage(w: World, key: (string, string), content: string) { key in w.volumes && w.volumes[key] == content }

  lemma {:induction false} ImageHeld(ops: seq<Op>, key: (string, string), content: string, w: World)
    requires Run(ops, w).Some? && BringsOnly(ops, key, content) && (Brings(ops, key) || HoldsImage(w, key, content))
    ensures HoldsImage(Run(ops, w).value, key, content)
  {
    if ops != [] {
      var w' := Effect(ops[0], w).value;
      if !HoldsImage(w', key, content) {
        var k :| 0 <= k < |ops| && ops[k].Upload? && (ops[k].host, ops[k].volid) == key;
        assert ops[1..][k - 1] == ops[k];
      }
      ImageHeld(ops[1..], key, content, w');
    }
  }

  lemma UploadIsOwn(targets: seq<Target>, s: Settings, j: nat, i: nat, op: Op)
    requires DistinctNodes(targets) && j < |targets| && i < |targets| && op in PlansOf(targets, s)[j]
    requires op.Upload? && op.volid == UploadedVolume(targets[i])
    ensures op.content == targets[i].name
  {
    PlanGiven(targets, s, j);
    VolumeOps(targets[j], PlanOf(targets[j], s.skipKickstartBuild));
    if j != i { UploadNamesDiffer(targets[j], targets[i]); }
  }

  /** On the build path a clean run leaves every node's own image under the name it was uploaded by: no other node
      has overwritten it. */
  lemma NilMeansOwnImages(targets: seq<Target>, s: Settings, c: FanOut.Config, w: World, steps: seq<FanOut.Step>, i: nat)
    requires DistinctNodes(targets) && c.plans == PlansOf(targets, s) && RanClean(c, w, steps)
    requires i < |targets| && targets[i].kickstartStorage != "" && !s.skipKickstartBuild
    ensures HoldsImage(FanOut.After(c, FanOut.Init(c, w), steps).world, (targets[i].host, UploadedVolume(targets[i])), targets[i].name)
  {
    DistinctNodesIndependent(targets, s);
    FanOut.CleanRunIsSequential(c, w, steps);
    var t, all := targets[i], FanOut.Flatten(c.plans);
    var key := (t.host, UploadedVolume(t));
    forall k | 0 <= k < |all| && all[k].Upload? && (all[k].host, all[k].volid) == key ensures all[k].content == t.name {
      FanOut.FlattenMember(c.plans, k);
      var j, b :| 0 <= j < |c.plans| && 0 <= b < |c.plans[j]| && c.plans[j][b] == all[k];
      UploadIsOwn(targets, s, j, i, all[k]);
    }
    NilMeansFree(targets, s, c, w, steps, i);
    PlanOpsAre(t, false);
    assert c.plans[i][2] == Upload(t.host, UploadedVolume(t), t.name);
    FanOut.FlattenAt(c.plans, i);
    assert all[|FanOut.Flatten(c.plans[..i])| + 2] == c.plans[i][2];
    ImageHeld(all, key, t.name, w);
  }

  // --- one node's steps are its apply -------------------------------------------------------

  /** The calls that a run of steps makes, in order; a `Missing` step makes none. */
  function Asked(c: FanOut.Config, s: FanOut.State, steps: seq<FanOut.Step>): seq<Event>
    requires FanOut.Shape(c, s) && FanOut.Legal(c, s, steps)
    decreases |steps|
  {
    if steps == [] then [] else Events(CallOf(c, s, steps[0])) + Asked(c, FanOut.Next(c, s, steps[0]), steps[1..])
  }

  function CallOf(c: FanOut.Config, s: FanOut.State, step: FanOut.Step): seq<Op>
    requires FanOut.Shape(c, s) && FanOut.Enabled(c, s, step)
  {
    if (step.Exec? || step.SendUpload?) && c.plans[step.i][s.phases[step.i].k] != Missing then [c.plans[step.i][s.phases[step.i].k]] else []
  }

  /** The calls that node i makes. */
  function AskedBy(c: FanOut.Config, s: FanOut.State, steps: seq<FanOut.Step>, i: nat): seq<Op>
    requires FanOut.Shape(c, s) && FanOut.Legal(c, s, steps)
    decreases |steps|
  {
    if steps == [] then []
    else
      var rest := AskedBy(c, FanOut.Next(c, s, steps[0]), steps[1..], i);
      if !steps[0].CancelParent? && steps[0].i == i then CallOf(c, s, steps[0]) + rest else rest
  }

  /** What a node in this phase may still ask for. */
  function Ahead(plan: seq<Op>, p: FanOut.Phase): seq<Op> {
    match p
    case Waiting => plan
    case Working(k) => plan[Within(k, plan)..]
    case Uploading(k) => plan[Within(k, plan)..]
    case Unlocking(k, ok, _) => if ok then plan[Within(k + 1, plan)..] else []
    case _ => []
  }

  function Within(k: nat, plan: seq<Op>): (n: nat)
    ensures n <= |plan|
  {
    if k <= |plan| then k else |plan|
  }

  /** A node makes its plan's calls in the plan's order, leaving none out and making none twice, whatever happens. */
  lemma {:induction false} AsksInOrder(c: FanOut.Config, s: FanOut.State, steps: seq<FanOut.Step>, i: nat)
    requires FanOut.Shape(c, s) && FanOut.Legal(c, s, steps) && i < |c.plans|
    ensures AskedBy(c, s, steps, i) <= Ahead(c.plans[i], s.phases[i])
    decreases |steps|
  {
    if steps != [] {
      var next := FanOut.Next(c, s, steps[0]);
      AsksInOrder(c, next, steps[1..], i);
      if !steps[0].CancelParent? && steps[0].i == i {
        StepAdvances(c, s, steps[0]);
        PrefixThrough(CallOf(c, s, steps[0]), AskedBy(c, next, steps[1..], i), Ahead(c.plans[i], next.phases[i]), Ahead(c.plans[i], s.phases[i]));
      }
    }
  }

  lemma StepAdvances(c: FanOut.Config, s: FanOut.State, step: FanOut.Step)
    requires FanOut.Shape(c, s) && FanOut.Enabled(c, s, step) && !step.CancelParent?
    ensures Advances(c.plans[step.i], s.phases[step.i], CallOf(c, s, step), FanOut.Next(c, s, step).phases[step.i])
  {
    var plan, p, next := c.plans[step.i], s.phases[step.i], FanOut.Next(c, s, step);
    if FanOut.Calls(step) {
      FanOut.IssueExtends(c, s, step);
      if plan[p.k] == Missing { MissingFails(c, s, step); }
      CallAdvances(plan, p, CallOf(c, s, step), next.phases[step.i]);
    } else {
      FanOut.QuietMoves(c, s, step);
      QuietAdvances(c, plan, p, step);
    }
  }

  lemma MissingFails(c: FanOut.Config, s: FanOut.State, step: FanOut.Step)
    requires FanOut.Shape(c, s) && FanOut.Enabled(c, s, step) && FanOut.Calls(step)
    requires c.plans[step.i][s.phases[step.i].k] == Missing
    ensures Ahead(c.plans[step.i], FanOut.Next(c, s, step).phases[step.i]) == []
  {
  }

  lemma QuietAdvances(c: FanOut.Config, plan: seq<Op>, p: FanOut.Phase, step: FanOut.Step)
    requires FanOut.QuietFrom(c, plan, p, step)
    ensures Advances(plan, p, [], FanOut.QuietPhase(c, plan, p, step))
  {
  }

  lemma PrefixThrough<T>(calls: seq<T>, later: seq<T>, ahead': seq<T>, ahead: seq<T>)
    requires later <= ahead' && (calls + ahead' <= ahead || (calls <= ahead && ahead' == []))
    ensures calls + later <= ahead
  {
  }

  /** From the one phase to the other the node has made these calls, and has either the rest of its plan still before it
      or nothing. */
  predicate Advances(plan: seq<Op>, p: FanOut.Phase, calls: seq<Op>, p': FanOut.Phase) {
    calls + Ahead(plan, p') <= Ahead(plan, p) || (calls <= Ahead(plan, p) && Ahead(plan, p') == [])
  }

  lemma CallAdvances(plan: seq<Op>, p: FanOut.Phase, calls: seq<Op>, p': FanOut.Phase)
    requires p.Working? || p.Uploading?
    requires p.k < |plan| && (calls == [plan[p.k]] || (calls == [] && Ahead(plan, p') == []))
    requires p' == FanOut.Working(p.k + 1) || p'.Returned? || (p'.Unlocking? && p'.k == p.k)
    ensures Advances(plan, p, calls, p')
  {
    assert [plan[p.k]] + plan[p.k + 1..] == plan[p.k..];
  }

  /** Every call is an operation of some node's list. */
  lemma {:induction false} AsksItsPlans(c: FanOut.Config, s: FanOut.State, steps: seq<FanOut.Step>)
    requires FanOut.Shape(c, s) && FanOut.Legal(c, s, steps)
    ensures forall e :: e in Asked(c, s, steps) ==> exists i :: 0 <= i < |c.plans| && e.Issued? && e.op in c.plans[i] && e.op != Missing
    decreases |steps|
  {
    if steps != [] {
      AsksItsPlans(c, FanOut.Next(c, s, steps[0]), steps[1..]);
    }
  }

  /** The steps do what the script came to: same calls, same state, same verdict, and no other node moves. */
  predicate Refines(c: FanOut.Config, s: FanOut.State, i: nat, steps: seq<FanOut.Step>, log: seq<Event>, r: (World, seq<Event>, Option<Err>))
    requires FanOut.Shape(c, s) && i < |c.plans|
  {
    FanOut.Legal(c, s, steps) &&
    var s' := FanOut.After(c, s, steps);
    && s'.world == r.0 && r.1 == log + Asked(c, s, steps) && s'.phases[i].Returned?
    && (r.2 == None <==> s'.phases[i].r == FanOut.Completed)
    && s'.phases == s.phases[i := s'.phases[i]] && s'.holder == None && s'.slots == s.slots
  }

  /** From any state of the executor in which node `i` has a slot and the mutex is free, the node's own steps, taken one
      after the other, do what the rest of its script does, call by call and failure by failure, and no other node moves. */
  lemma {:induction false} NodeRefinesScript(c: FanOut.Config, s: FanOut.State, i: nat, items: seq<Item>, outcome: nat -> Outcome, log: seq<Event>)
    returns (steps: seq<FanOut.Step>)
    requires FanOut.Shape(c, s) && i < |c.plans| && s.phases[i].Working? && s.phases[i].k <= |c.plans[i]| && s.holder == None
    requires c.plans[i][s.phases[i].k..] == ExecutorOps(items) && forall item :: item in items ==> item != Issue(Missing)
    ensures Refines(c, s, i, steps, log, RunScript(items, outcome, log, s.world))
    decreases |items|
  {
    var k, plan := s.phases[i].k, c.plans[i];
    if items == [] {
      steps := [FanOut.Complete(i)];
      LegalCons(c, s, FanOut.Complete(i), []);
    } else {
      assert plan[k..][0] == plan[k] && plan[k..][1..] == plan[k + 1..];
      assert items[0] in items;
      var o := outcome(|log|);
      var first := NodePerforms(c, s, i, o);
      var s1 := FanOut.After(c, s, first);
      if s1.phases[i].Working? {
        assert items[0] == Issue(plan[k]);
        assert forall item :: item in items[1..] ==> item in items;
        var rest := NodeRefinesScript(c, s1, i, items[1..], outcome, log + [Issued(plan[k])]);
        RefinesOn(c, s, i, o, first, rest, log, RunScript(items, outcome, log, s.world));
        steps := first + rest;
      } else {
        steps := first;
      }
    }
  }

  lemma NodePerforms(c: FanOut.Config, s: FanOut.State, i: nat, o: Outcome) returns (steps: seq<FanOut.Step>)
    requires FanOut.Shape(c, s) && i < |c.plans| && s.phases[i].Working? && s.phases[i].k < |c.plans[i]| && s.holder == None
    ensures FanOut.Legal(c, s, steps) && Performed(c, s, i, o, FanOut.After(c, s, steps)) && AskedOne(c, s, i, steps)
  {
    if c.plans[i][s.phases[i].k].Upload? {
      steps := UploadSteps(i, o);
      OneUpload(c, s, i, o);
    } else {
      steps := [FanOut.Exec(i, o)];
      OneExec(c, s, i, o);
    }
  }

  lemma RefinesOn(c: FanOut.Config, s: FanOut.State, i: nat, o: Outcome, first: seq<FanOut.Step>, rest: seq<FanOut.Step>,
                  log: seq<Event>, r: (World, seq<Event>, Option<Err>))
    requires FanOut.Shape(c, s) && i < |c.plans| && s.phases[i].Working? && s.phases[i].k < |c.plans[i]| && c.plans[i][s.phases[i].k] != Missing
    requires FanOut.Legal(c, s, first) && Performed(c, s, i, o, FanOut.After(c, s, first)) && AskedOne(c, s, i, first)
    requires Refines(c, FanOut.After(c, s, first), i, rest, log + [Issued(c.plans[i][s.phases[i].k])], r)
    ensures Refines(c, s, i, first + rest, log, r)
  {
    LegalConcat(c, s, first, rest);
    AskedConcat(c, s, first, rest);
    Reassociate(log, Asked(c, s, first), Asked(c, FanOut.After(c, s, first), rest));
  }

  /** The executor's node and the single workflow's `Apply` are one: from the moment a node has its slot, its own steps
      make the calls and change Proxmox as `Apply` of its change list does under the same failures, whatever is missing,
      and it fails when `Apply` does. */
  lemma NodeRefinesApply(c: FanOut.Config, s: FanOut.State, i: nat, t: Target, settings: Settings, changes: seq<Kind>,
                         outcome: nat -> Outcome, log: seq<Event>)
    returns (steps: seq<FanOut.Step>)
    requires FanOut.Shape(c, s) && i < |c.plans| && s.phases[i] == FanOut.Working(0) && s.holder == None
    requires c.plans[i] == ExecutorOps(Script(t, settings, changes, false))
    ensures Refines(c, s, i, steps, log, RunScript(Script(t, settings, changes, false), outcome, log, s.world))
  {
    var script := Script(t, settings, changes, false);
    assert c.plans[i][0..] == c.plans[i];
    ScriptIssuesCalls(t, settings, changes, false);
    steps := NodeRefinesScript(c, s, i, script, outcome, log);
  }

  lemma {:induction false} ScriptIssuesCalls(t: Target, s: Settings, changes: seq<Kind>, haveIso: bool)
    ensures forall item :: item in Script(t, s, changes, haveIso) ==> item != Issue(Missing)
  {
    if changes != [] {
      ScriptIssuesCalls(t, s, changes[1..], haveIso || changes[0] == BuildISO);
    }
  }

  /** Node i's k-th operation was performed, its answer was acted upon, and nothing else moved. */
  predicate Performed(c: FanOut.Config, s: FanOut.State, i: nat, o: Outcome, s': FanOut.State)
    requires FanOut.Shape(c, s) && i < |c.plans| && s.phases[i].Working? && s.phases[i].k < |c.plans[i]|
  {
    var k, p := s.phases[i].k, Perform(c.plans[i][s.phases[i].k], o, s.world);
    && FanOut.Shape(c, s')
    && s'.world == p.0 && s'.phases == s.phases[i := s'.phases[i]] && s'.holder == s.holder && s'.slots == s.slots
    && (if p.1 then s'.phases[i] == FanOut.Working(k + 1) else s'.phases[i].Returned? && s'.phases[i].r.Failed?)
  }

  predicate AskedOne(c: FanOut.Config, s: FanOut.State, i: nat, steps: seq<FanOut.Step>)
    requires FanOut.Shape(c, s) && i < |c.plans| && s.phases[i].Working? && s.phases[i].k < |c.plans[i]| && FanOut.Legal(c, s, steps)
  {
    var op := c.plans[i][s.phases[i].k];
    Asked(c, s, steps) == if op == Missing then [] else [Issued(op)]
  }

  lemma OneExec(c: FanOut.Config, s: FanOut.State, i: nat, o: Outcome)
    requires FanOut.Shape(c, s) && i < |c.plans| && s.phases[i].Working? && s.phases[i].k < |c.plans[i]|
    requires !c.plans[i][s.phases[i].k].Upload?
    ensures FanOut.Legal(c, s, [FanOut.Exec(i, o)]) && Performed(c, s, i, o, FanOut.After(c, s, [FanOut.Exec(i, o)]))
    ensures AskedOne(c, s, i, [FanOut.Exec(i, o)])
  {
    LegalCons(c, s, FanOut.Exec(i, o), []);
  }

  function UploadSteps(i: nat, o: Outcome): seq<FanOut.Step> { [FanOut.Lock(i)] + ([FanOut.SendUpload(i, o)] + [FanOut.Unlock(i)]) }

  lemma OneUpload(c: FanOut.Config, s: FanOut.State, i: nat, o: Outcome)
    requires FanOut.Shape(c, s) && i < |c.plans| && s.phases[i].Working? && s.phases[i].k < |c.plans[i]|
    requires c.plans[i][s.phases[i].k].Upload? && s.holder == None
    ensures FanOut.Legal(c, s, UploadSteps(i, o)) && Performed(c, s, i, o, FanOut.After(c, s, UploadSteps(i, o)))
    ensures AskedOne(c, s, i, UploadSteps(i, o))
  {
    var s1 := FanOut.Next(c, s, FanOut.Lock(i));
    var s2 := FanOut.Next(c, s1, FanOut.SendUpload(i, o));
    LegalCons(c, s2, FanOut.Unlock(i), []);
    LegalCons(c, s1, FanOut.SendUpload(i, o), [FanOut.Unlock(i)]);
    LegalCons(c, s, FanOut.Lock(i), [FanOut.SendUpload(i, o)] + [FanOut.Unlock(i)]);
    UploadPerforms(c, s, i, o);
  }

  lemma UploadPerforms(c: FanOut.Config, s: FanOut.State, i: nat, o: Outcome)
    requires FanOut.Shape(c, s) && i < |c.plans| && s.phases[i].Working? && s.phases[i].k < |c.plans[i]|
    requires c.plans[i][s.phases[i].k].Upload? && s.holder == None
    ensures var s1 := FanOut.Next(c, s, FanOut.Lock(i));
            var s2 := FanOut.Next(c, s1, FanOut.SendUpload(i, o));
            var op := c.plans[i][s.phases[i].k];
            && Performed(c, s, i, o, FanOut.Next(c, s2, FanOut.Unlock(i)))
            && CallOf(c, s, FanOut.Lock(i)) == [] && CallOf(c, s1, FanOut.SendUpload(i, o)) == [op] && CallOf(c, s2, FanOut.Unlock(i)) == []
  {
  }

  lemma LegalCons(c: FanOut.Config, s: FanOut.State, st: FanOut.Step, rest: seq<FanOut.Step>)
    requires FanOut.Shape(c, s) && FanOut.Enabled(c, s, st) && FanOut.Legal(c, FanOut.Next(c, s, st), rest)
    ensures FanOut.Legal(c, s, [st] + rest) && FanOut.After(c, s, [st] + rest) == FanOut.After(c, FanOut.Next(c, s, st), rest)
    ensures Asked(c, s, [st] + rest) == Events(CallOf(c, s, st)) + Asked(c, FanOut.Next(c, s, st), rest)
    ensures rest == [] ==> [st] + rest == [st] && FanOut.After(c, s, [st]) == FanOut.Next(c, s, st)
  {
    assert ([st] + rest)[0] == st && ([st] + rest)[1..] == rest;
  }

  lemma {:induction false} LegalConcat(c: FanOut.Config, s: FanOut.State, a: seq<FanOut.Step>, b: seq<FanOut.Step>)
    requires FanOut.Shape(c, s) && FanOut.Legal(c, s, a) && FanOut.Legal(c, FanOut.After(c, s, a), b)
    ensures FanOut.Legal(c, s, a + b) && FanOut.After(c, s, a + b) == FanOut.After(c, FanOut.After(c, s, a), b)
    decreases |a|
  {
    if a == [] {
      assert a + b == b;
    } else {
      assert (a + b)[0] == a[0] && (a + b)[1..] == a[1..] + b;
      LegalConcat(c, FanOut.Next(c, s, a[0]), a[1..], b);
    }
  }

  lemma {:induction false} AskedConcat(c: FanOut.Config, s: FanOut.State, a: seq<FanOut.Step>, b: seq<FanOut.Step>)
    requires FanOut.Shape(c, s) && FanOut.Legal(c, s, a) && FanOut.Legal(c, FanOut.After(c, s, a), b) && FanOut.Legal(c, s, a + b)
    ensures Asked(c, s, a + b) == Asked(c, s, a) + Asked(c, FanOut.After(c, s, a), b)
    decreases |a|
  {
    if a == [] {
      assert a + b == b;
    } else {
      assert (a + b)[0] == a[0] && (a + b)[1..] == a[1..] + b;
      var next := FanOut.Next(c, s, a[0]);
      AskedConcat(c, next, a[1..], b);
      Reassociate(Events(CallOf(c, s, a[0])), Asked(c, next, a[1..]), Asked(c, FanOut.After(c, s, a), b));
    }
  }

  function Reverse<T>(s: seq<T>): (r: seq<T>)
    ensures |r| == |s| && forall k :: 0 <= k < |s| ==> r[k] == s[|s| - 1 - k]
  {
    if s == [] then [] else Reverse(s[1..]) + [s[0]]
  }

  /** The list turned round by swapping ends, as the source does it. */
  method ReverseInPlace(nodes: array<Target>)
    modifies nodes
    ensures nodes[..] == Reverse(old(nodes[..]))
  {
    ghost var was := nodes[..];
    var i, j := 0, nodes.Length - 1;
    while i < j
      invariant 0 <= i <= j + 1 <= nodes.Length && i + j == nodes.Length - 1
      invariant forall k :: 0 <= k < nodes.Length ==> nodes[k] == Swapped(was, i, k)
    {
      assert nodes[i] == was[i] && nodes[j] == was[j];
      nodes[i], nodes[j] := nodes[j], nodes[i];
      i, j := i + 1, j - 1;
    }
    SwappedAll(was, i);
    assert nodes[..] == Reverse(was);
  }

  /** Once the ends have met, the list is turned round. */
  lemma SwappedAll(was: seq<Target>, i: nat)
    requires |was| <= 2 * i + 1
    ensures forall k :: 0 <= k < |was| ==> Swapped(was, i, k) == Reverse(was)[k]
  {
  }

  /** Element k once the first i pairs of ends have been swapped. */
  function Swapped(was: seq<Target>, i: nat, k: nat): Target
    requires k < |was|
  {
    if k < i || |was| - 1 - k < i then was[|was| - 1 - k] else was[k]
  }

  predicate Reported(errs: seq<(string, Err)>, name: string) {
    exists k :: 0 <= k < |errs| && errs[k].0 == name
  }

  /** Every one of these VMs that is still there has its node among the errors. */
  predicate AllReported(w: World, nodes: seq<Target>, errs: seq<(string, Err)>) {
    forall t :: t in nodes && Has(w, t.host, t.vmid) ==> Reported(errs, t.name)
  }

  predicate AllAbsent(w: World, targets: seq<Target>) {
    forall i :: 0 <= i < |targets| ==> !Has(w, targets[i].host, targets[i].vmid)
  }

  /** VMs outside the manifest, and all volumes, are as before. */
  predicate OthersKept(before: World, after: World, targets: seq<Target>) {
    && before.volumes == after.volumes
    && before.vms - VMIDs(targets) == after.vms - VMIDs(targets)
  }

  function VMIDs(targets: seq<Target>): set<int> { set t | t in targets :: t.vmid }

  lemma OthersKeptStep(w0: World, before: World, after: World, targets: seq<Target>, t: Target)
    requires OthersKept(w0, before, targets) && t in targets && Dwindled(before, after, t.vmid)
    ensures OthersKept(w0, after, targets)
  {
    forall id | id !in VMIDs(targets) ensures Slot(before, id) == Slot(after, id) {
      assert id != t.vmid;
      assert Slot(before, id).Some? <==> id in before.vms - {t.vmid};
      assert Slot(after, id).Some? <==> id in after.vms - {t.vmid};
    }
    assert before.vms - VMIDs(targets) == after.vms - VMIDs(targets) by {
      forall id | id !in VMIDs(targets) && (id in before.vms || id in after.vms)
        ensures id in before.vms && id in after.vms && before.vms[id] == after.vms[id]
      {
        assert Slot(before, id) == Slot(after, id);
      }
    }
  }

  ghost predicate AllDone(outcome: nat -> Outcome) {
    forall n :: outcome(n) == Done
  }

  lemma ReportsKept(before: World, after: World, nodes: seq<Target>, t: Target, errs: seq<(string, Err)>, errs': seq<(string, Err)>)
    requires AllReported(before, nodes, errs) && Dwindled(before, after, t.vmid)
    requires errs <= errs' && (Has(after, t.host, t.vmid) ==> Reported(errs', t.name))
    ensures AllReported(after, nodes + [t], errs')
  {
    forall u | u in nodes + [t] && Has(after, u.host, u.vmid) ensures Reported(errs', u.name) {
      if u in nodes {
        assert Has(before, u.host, u.vmid) by {
          if u.vmid != t.vmid {
            assert u.vmid in after.vms - {t.vmid};
          }
        }
        var k :| 0 <= k < |errs| && errs[k].0 == u.name;
        assert errs'[k].0 == u.name;
      }
    }
  }

  // --- going through the nodes one by one -----------------------------------------------------

  /** Proxmox, what has been asked so far, and the error of the last piece of work. */
  type Answer = (World, seq<Event>, Option<Err>)

  /** What is done for one node. */
  type NodeWork = (Target, seq<Event>, World) -> Answer

  /** Where the first k nodes leave Proxmox and the log, each one worked on whatever came of the ones before. */
  function Swept(work: NodeWork, nodes: seq<Target>, log: seq<Event>, w: World, k: nat): (World, seq<Event>)
    requires k <= |nodes|
    decreases k, 0
  {
    if k == 0 then (w, log) else (Answered(work, nodes, log, w, k - 1).0, Answered(work, nodes, log, w, k - 1).1)
  }

  /** What came of node k. */
  function Answered(work: NodeWork, nodes: seq<Target>, log: seq<Event>, w: World, k: nat): Answer
    requires k < |nodes|
    decreases k, 1
  {
    var before := Swept(work, nodes, log, w, k);
    work(nodes[k], before.1, before.0)
  }

  /** The failures among the first k nodes, in order. */
  function Failures(work: NodeWork, nodes: seq<Target>, log: seq<Event>, w: World, k: nat): seq<(string, Err)>
    requires k <= |nodes|
  {
    if k == 0 then []
    else
      var err := Answered(work, nodes, log, w, k - 1).2;
      Failures(work, nodes, log, w, k - 1) + (if err.Some? then [(nodes[k - 1].name, err.value)] else [])
  }

  /** Where the loop over the nodes stands before node k. */
  predicate SoFar(work: NodeWork, nodes: seq<Target>, log0: seq<Event>, w0: World, k: nat, w: World, log: seq<Event>, errs: seq<(string, Err)>)
    requires k <= |nodes|
  {
    (w, log) == Swept(work, nodes, log0, w0, k) && errs == Failures(work, nodes, log0, w0, k)
  }

  lemma SoFarStep(work: NodeWork, nodes: seq<Target>, log0: seq<Event>, w0: World, k: nat, w: World, log: seq<Event>, errs: seq<(string, Err)>)
    requires k < |nodes| && SoFar(work, nodes, log0, w0, k, w, log, errs)
    ensures var r := work(nodes[k], log, w);
            SoFar(work, nodes, log0, w0, k + 1, r.0, r.1, if r.2.Some? then errs + [(nodes[k].name, r.2.value)] else errs)
  {
    assert errs + [] == errs;
  }

  /** The failures are exactly those of the nodes whose work failed. */
  lemma {:induction false} FailuresAre(work: NodeWork, nodes: seq<Target>, log: seq<Event>, w: World, k: nat, f: (string, Err))
    requires k <= |nodes|
    ensures f in Failures(work, nodes, log, w, k)
       <==> exists i :: 0 <= i < k && nodes[i].name == f.0 && Answered(work, nodes, log, w, i).2 == Some(f.1)
  {
    if k > 0 {
      FailuresAre(work, nodes, log, w, k - 1, f);
      assert Answered(work, nodes, log, w, k - 1).2 == Some(f.1) && nodes[k - 1].name == f.0
         ==> f in Failures(work, nodes, log, w, k);
    }
  }

  /** No failure among the first k means none before either. */
  lemma {:induction false} NoFailures(work: NodeWork, nodes: seq<Target>, log: seq<Event>, w: World, k: nat)
    requires k <= |nodes| && Failures(work, nodes, log, w, k) == []
    ensures forall i :: 0 <= i < k ==> Answered(work, nodes, log, w, i).2 == None
  {
    if k > 0 { NoFailures(work, nodes, log, w, k - 1); }
  }

  lemma FailuresNone(work: NodeWork, nodes: seq<Target>, log: seq<Event>, w: World)
    ensures Failures(work, nodes, log, w, |nodes|) == [] <==> forall i :: 0 <= i < |nodes| ==> Answered(work, nodes, log, w, i).2 == None
  {
    if Failures(work, nodes, log, w, |nodes|) == [] {
      NoFailures(work, nodes, log, w, |nodes|);
    } else {
      var f := Failures(work, nodes, log, w, |nodes|)[0];
      FailuresAre(work, nodes, log, w, |nodes|, f);
    }
  }

  // --- tearing down ------------------------------------------------------------------------------

  function Destroying(hasClient: bool, force: bool, outcome: nat -> Outcome): NodeWork {
    (t, log, w) => DestroyRun(t, hasClient, force, outcome, log, w)
  }

  /** The VMs looked for, in order. */
  function Looked(log: seq<Event>): seq<(string, int)> {
    if log == [] then [] else (if log[0].Read? then [(log[0].host, log[0].vmid)] else []) + Looked(log[1..])
  }

  function Addresses(nodes: seq<Target>): (r: seq<(string, int)>)
    ensures |r| == |nodes|
  {
    seq(|nodes|, i requires 0 <= i < |nodes| => (nodes[i].host, nodes[i].vmid))
  }

  lemma {:induction false} LookedConcat(a: seq<Event>, b: seq<Event>)
    ensures Looked(a + b) == Looked(a) + Looked(b)
  {
    if a == [] {
      assert a + b == b;
    } else {
      LookedConcat(a[1..], b);
      assert (a + b)[0] == a[0] && (a + b)[1..] == a[1..] + b;
      Reassociate(if a[0].Read? then [(a[0].host, a[0].vmid)] else [], Looked(a[1..]), Looked(b));
    }
  }

  lemma DestroyLooksOnce(t: Target, force: bool, outcome: nat -> Outcome, log: seq<Event>, w: World)
    ensures Looked(DestroyRun(t, true, force, outcome, log, w).1) == Looked(log) + [(t.host, t.vmid)]
  {
    var look := Read(t.host, t.vmid);
    var stop, delete := Issued(Stop(t.host, t.vmid, force)), Issued(Delete(t.host, t.vmid));
    LookedConcat(log, [look]);
    LookedConcat(log + [look], [stop]);
    LookedConcat(log + [look] + [stop], [delete]);
    assert [look][1..] == [] && [stop][1..] == [] && [delete][1..] == [];
    assert Looked([look]) == [(t.host, t.vmid)] && Looked([stop]) == [] && Looked([delete]) == [];
  }

  /** Each node is looked for exactly once, in order, whatever came of the ones before. */
  lemma {:induction false} EveryNodeLookedFor(force: bool, outcome: nat -> Outcome, nodes: seq<Target>, log: seq<Event>, w: World, k: nat)
    requires k <= |nodes|
    ensures Looked(Swept(Destroying(true, force, outcome), nodes, log, w, k).1) == Looked(log) + Addresses(nodes[..k])
  {
    var work := Destroying(true, force, outcome);
    if k == 0 {
      assert Looked(log) + Addresses(nodes[..0]) == Looked(log);
    } else {
      EveryNodeLookedFor(force, outcome, nodes, log, w, k - 1);
      var before := Swept(work, nodes, log, w, k - 1);
      DestroyLooksOnce(nodes[k - 1], force, outcome, before.1, before.0);
      assert Addresses(nodes[..k]) == Addresses(nodes[..k - 1]) + [(nodes[k - 1].host, nodes[k - 1].vmid)];
    }
  }

  /** Where a tear-down of `targets` stands once `visited` have been gone through. */
  predicate TornDown(before: World, after: World, targets: seq<Target>, visited: seq<Target>, errs: seq<(string, Err)>) {
    AllReported(after, visited, errs) && OthersKept(before, after, targets) && (AllAbsent(before, targets) ==> after == before)
  }

  lemma TearDownStep(w0: World, before: World, after: World, targets: seq<Target>, visited: seq<Target>, t: Target,
                     errs: seq<(string, Err)>, errs': seq<(string, Err)>)
    requires TornDown(w0, before, targets, visited, errs) && t in targets && Dwindled(before, after, t.vmid)
    requires !Has(before, t.host, t.vmid) ==> after == before
    requires errs <= errs' && (Has(after, t.host, t.vmid) ==> Reported(errs', t.name))
    ensures TornDown(w0, after, targets, visited + [t], errs')
  {
    OthersKeptStep(w0, before, after, targets, t);
    ReportsKept(before, after, visited, t, errs, errs');
  }

  lemma {:induction false} SweepTearsDown(hasClient: bool, force: bool, outcome: nat -> Outcome, targets: seq<Target>, nodes: seq<Target>,
                                          log: seq<Event>, w: World, k: nat)
    requires k <= |nodes| && forall t :: t in nodes ==> t in targets
    ensures var work := Destroying(hasClient, force, outcome);
            TornDown(w, Swept(work, nodes, log, w, k).0, targets, nodes[..k], Failures(work, nodes, log, w, k))
  {
    if k > 0 {
      var work := Destroying(hasClient, force, outcome);
      SweepTearsDown(hasClient, force, outcome, targets, nodes, log, w, k - 1);
      var t, before, r := nodes[k - 1], Swept(work, nodes, log, w, k - 1), Answered(work, nodes, log, w, k - 1);
      var errs, errs' := Failures(work, nodes, log, w, k - 1), Failures(work, nodes, log, w, k);
      DestroySound(t, hasClient, force, outcome, before.1, before.0);
      if r.2.Some? { assert errs'[|errs|].0 == t.name; }
      TearDownStep(w, before.0, r.0, targets, nodes[..k - 1], t, errs, errs');
      assert nodes[..k] == nodes[..k - 1] + [t];
    }
  }

  lemma {:induction false} SweepWithoutFailure(force: bool, outcome: nat -> Outcome, nodes: seq<Target>, log: seq<Event>, w: World, k: nat)
    requires k <= |nodes| && AllDone(outcome)
    ensures Failures(Destroying(true, force, outcome), nodes, log, w, k) == []
  {
    if k > 0 {
      SweepWithoutFailure(force, outcome, nodes, log, w, k - 1);
      var before := Swept(Destroying(true, force, outcome), nodes, log, w, k - 1);
      DestroySound(nodes[k - 1], true, force, outcome, before.1, before.0);
    }
  }

  lemma SameNodesReversed(targets: seq<Target>)
    ensures forall t :: t in targets <==> t in Reverse(targets)
  {
    forall i | 0 <= i < |targets| ensures targets[i] in Reverse(targets) && Reverse(targets)[i] in targets {
      assert Reverse(targets)[|targets| - 1 - i] == targets[i];
      assert Reverse(targets)[i] == targets[|targets| - 1 - i];
    }
  }

  lemma ReportedThenAbsent(w: World, targets: seq<Target>, errs: seq<(string, Err)>)
    requires AllReported(w, Reverse(targets), errs)
    ensures AllReported(w, targets, errs) && (errs == [] ==> AllAbsent(w, targets))
  {
    SameNodesReversed(targets);
  }

  // --- finalizing ------------------------------------------------------------------------------

  function Finalizing(s: Settings, outcome: nat -> Outcome): NodeWork {
    (t, log, w) => RunScript(FinalizeScript(t, s), outcome, log, w)
  }

  lemma FinalizingEffect(s: Settings, outcome: nat -> Outcome, nodes: seq<Target>, log: seq<Event>, w: World, k: nat)
    requires k < |nodes|
    ensures var work := Finalizing(s, outcome);
            FinalizedBy(nodes[k], Swept(work, nodes, log, w, k).0, Swept(work, nodes, log, w, k + 1).0, Answered(work, nodes, log, w, k).2)
  {
    var before := Swept(Finalizing(s, outcome), nodes, log, w, k);
    FinalizeEffect(nodes[k], s, outcome, before.1, before.0);
  }

  /** A VM that none of the first k nodes has stays as it was. */
  lemma {:induction false} SlotKept(s: Settings, outcome: nat -> Outcome, nodes: seq<Target>, log: seq<Event>, w: World, from: nat, k: nat, id: int)
    requires from <= k <= |nodes| && forall i :: from <= i < k ==> nodes[i].vmid != id
    ensures var work := Finalizing(s, outcome);
            Slot(Swept(work, nodes, log, w, k).0, id) == Slot(Swept(work, nodes, log, w, from).0, id)
    decreases k - from
  {
    if from < k {
      SlotKept(s, outcome, nodes, log, w, from, k - 1, id);
      FinalizingEffect(s, outcome, nodes, log, w, k - 1);
    }
  }

  /** With distinct VMIDs, every node's VM is finalized exactly as far as its own answer says, whatever came of the other
      nodes: nil means that its drives and boot order were reset and that it is otherwise as it was. */
  lemma EachVMFinalized(s: Settings, outcome: nat -> Outcome, nodes: seq<Target>, log: seq<Event>, w: World, i: nat)
    requires DistinctVMIDs(nodes) && i < |nodes|
    ensures var work, t := Finalizing(s, outcome), nodes[i];
            VMFinalized(t, Slot(w, t.vmid), Slot(Swept(work, nodes, log, w, |nodes|).0, t.vmid), Answered(work, nodes, log, w, i).2)
  {
    SlotKept(s, outcome, nodes, log, w, 0, i, nodes[i].vmid);
    FinalizingEffect(s, outcome, nodes, log, w, i);
    SlotKept(s, outcome, nodes, log, w, i + 1, |nodes|, nodes[i].vmid);
  }

  /** Every node's VM ends as its own answer says. */
  ghost predicate EachFinalized(s: Settings, outcome: nat -> Outcome, nodes: seq<Target>, log: seq<Event>, w: World) {
    var work := Finalizing(s, outcome);
    forall i :: 0 <= i < |nodes| ==>
      VMFinalized(nodes[i], Slot(w, nodes[i].vmid), Slot(Swept(work, nodes, log, w, |nodes|).0, nodes[i].vmid),
                  Answered(work, nodes, log, w, i).2)
  }

  lemma EachIsFinalized(s: Settings, outcome: nat -> Outcome, nodes: seq<Target>, log: seq<Event>, w: World)
    requires DistinctVMIDs(nodes)
    ensures EachFinalized(s, outcome, nodes, log, w)
  {
    forall i | 0 <= i < |nodes|
      ensures VMFinalized(nodes[i], Slot(w, nodes[i].vmid), Slot(Swept(Finalizing(s, outcome), nodes, log, w, |nodes|).0, nodes[i].vmid),
                          Answered(Finalizing(s, outcome), nodes, log, w, i).2)
    {
      EachVMFinalized(s, outcome, nodes, log, w, i);
    }
  }

  /** After finalizing all nodes: with distinct VMIDs every VM ends as its own node's answer says, nil means that every
      VM is finalized, and no other VM has changed. */
  ghost predicate FinalizeMeans(s: Settings, outcome: nat -> Outcome, nodes: seq<Target>, log: seq<Event>, w: World, w': World, isNil: bool) {
    && (DistinctVMIDs(nodes) ==> EachFinalized(s, outcome, nodes, log, w))
    && (isNil ==> AllFinalized(w', nodes))
    && SlotsKeptOutside(w, w', VMIDs(nodes))
  }

  lemma FinalizeSweepMeans(s: Settings, outcome: nat -> Outcome, nodes: seq<Target>, log: seq<Event>, w: World)
    ensures var work := Finalizing(s, outcome);
            FinalizeMeans(s, outcome, nodes, log, w, Swept(work, nodes, log, w, |nodes|).0, Failures(work, nodes, log, w, |nodes|) == [])
  {
    if DistinctVMIDs(nodes) { EachIsFinalized(s, outcome, nodes, log, w); }
    if Failures(Finalizing(s, outcome), nodes, log, w, |nodes|) == [] {
      NoFailures(Finalizing(s, outcome), nodes, log, w, |nodes|);
      SweepFinalizes(s, outcome, nodes, log, w, |nodes|);
      assert nodes[..|nodes|] == nodes;
    }
    FinalizeKeepsOthers(s, outcome, nodes, log, w);
  }

  /** Every slot but these is as before. */
  ghost predicate SlotsKeptOutside(before: World, after: World, vmids: set<int>) {
    forall id :: id !in vmids ==> Slot(after, id) == Slot(before, id)
  }

  lemma FinalizeKeepsOthers(s: Settings, outcome: nat -> Outcome, nodes: seq<Target>, log: seq<Event>, w: World)
    ensures SlotsKeptOutside(w, Swept(Finalizing(s, outcome), nodes, log, w, |nodes|).0, VMIDs(nodes))
  {
    forall id | id !in VMIDs(nodes) ensures Slot(Swept(Finalizing(s, outcome), nodes, log, w, |nodes|).0, id) == Slot(w, id) {
      assert forall i :: 0 <= i < |nodes| ==> nodes[i] in nodes;
      SlotKept(s, outcome, nodes, log, w, 0, |nodes|, id);
    }
  }

  predicate AllFinalized(w: World, nodes: seq<Target>) {
    forall t :: t in nodes ==> Finalized(w, t.host, t.vmid)
  }

  /** Without a failure every VM is finalized, even when nodes share one. */
  lemma {:induction false} SweepFinalizes(s: Settings, outcome: nat -> Outcome, nodes: seq<Target>, log: seq<Event>, w: World, k: nat)
    requires k <= |nodes| && forall i :: 0 <= i < k ==> Answered(Finalizing(s, outcome), nodes, log, w, i).2 == None
    ensures AllFinalized(Swept(Finalizing(s, outcome), nodes, log, w, k).0, nodes[..k])
  {
    if k > 0 {
      SweepFinalizes(s, outcome, nodes, log, w, k - 1);
      FinalizingEffect(s, outcome, nodes, log, w, k - 1);
      var before, after := Swept(Finalizing(s, outcome), nodes, log, w, k - 1).0, Swept(Finalizing(s, outcome), nodes, log, w, k).0;
      FinalizedSnoc(before, after, nodes[..k - 1], nodes[k - 1]);
      assert nodes[..k] == nodes[..k - 1] + [nodes[k - 1]];
    }
  }

  lemma FinalizedSnoc(before: World, after: World, nodes: seq<Target>, t: Target)
    requires AllFinalized(before, nodes) && FinalizedBy(t, before, after, None)
    ensures AllFinalized(after, nodes + [t])
  {
    var conf := before.vms[t.vmid].conf;
    CutWhole(conf);
    forall u | u in nodes + [t] ensures Finalized(after, u.host, u.vmid) {
      if u.vmid != t.vmid {
        assert u in nodes && Finalized(before, u.host, u.vmid);
        assert Slot(after, u.vmid) == Slot(before, u.vmid);
      } else if u in nodes {
        assert Finalized(before, u.host, u.vmid);
      }
    }
  }

  // --- from nothing to running --------------------------------------------------------------------

  /** A VM as a complete `Up` leaves it. */
  function FinalVM(t: Target, s: Settings): VM
    requires t.form.Some?
  {
    var vm := Applied(t, s.skipKickstartBuild);
    if s.skipFinalize then vm else vm.(conf := FinalConf(vm.conf))
  }

  /** What that is, key by key. */
  lemma FinalVMMeans(t: Target, s: Settings)
    requires t.form.Some?
    ensures var vm, form := FinalVM(t, s), t.form.value;
            && vm.host == t.host && vm.running
            && if !s.skipFinalize then
                 && "ide2" !in vm.conf && "ide3" !in vm.conf && "boot" in vm.conf && vm.conf["boot"] == "order=scsi0"
                 && vm.conf - {"ide2", "ide3", "boot"} == form - {"ide2", "ide3", "boot"}
               else if t.kickstartStorage == "" then vm.conf == form
               else vm.conf == form["ide3" := t.kickstartStorage + ":iso/" + t.name + "_kickstart.iso" + ",media=cdrom"]
                                   ["boot" := "order=scsi0;ide3;ide2"]
  {
    PlanOpsAre(t, s.skipKickstartBuild);
    InstallOrder();
    FinalConfMeans(Applied(t, s.skipKickstartBuild).conf);
  }

  /** When every VM is there, every node has an address and every answer is good, no node's finalize fails. */
  lemma {:induction false} FinalizeSweepSucceeds(s: Settings, outcome: nat -> Outcome, nodes: seq<Target>, log: seq<Event>, w: World, k: nat)
    requires k <= |nodes| && s.hasClient && DistinctVMIDs(nodes) && forall n :: n >= |log| ==> outcome(n) == Done
    requires forall i :: 0 <= i < |nodes| ==> Has(w, nodes[i].host, nodes[i].vmid) && SshWait.AnyUsable(nodes[i].ips)
    ensures |Swept(Finalizing(s, outcome), nodes, log, w, k).1| >= |log|
    ensures forall i :: 0 <= i < k ==> Answered(Finalizing(s, outcome), nodes, log, w, i).2 == None
  {
    if k > 0 {
      FinalizeSweepSucceeds(s, outcome, nodes, log, w, k - 1);
      var before := Swept(Finalizing(s, outcome), nodes, log, w, k - 1);
      SlotKept(s, outcome, nodes, log, w, 0, k - 1, nodes[k - 1].vmid);
      assert Slot(before.0, nodes[k - 1].vmid) == Slot(w, nodes[k - 1].vmid);
      OneFinalizeSucceeds(s, outcome, nodes[k - 1], before.1, before.0);
    }
  }

  lemma OneFinalizeSucceeds(s: Settings, outcome: nat -> Outcome, t: Target, log: seq<Event>, w: World)
    requires s.hasClient && Has(w, t.host, t.vmid) && SshWait.AnyUsable(t.ips) && forall n :: n >= |log| ==> outcome(n) == Done
    ensures var r := RunScript(FinalizeScript(t, s), outcome, log, w); r.2 == None && |r.1| >= |log|
  {
    FinalizeClean(t.host, t.vmid, w);
    assert WaitAndFinalizeOps(t)[1..] == FinalizeOps(t.host, t.vmid);
    assert FinalizeScript(t, s) == Calls(WaitAndFinalizeOps(t));
    CallsSucceed(WaitAndFinalizeOps(t), outcome, log, w);
  }

  /** The whole way: when the executor returned nil and no node's finalize failed, every VM was created here, runs from
      its form, and has its drives empty and its disk as the only boot device. */
  lemma NilMeansAllFinal(targets: seq<Target>, s: Settings, c: FanOut.Config, w: World, steps: seq<FanOut.Step>,
                        outcome: nat -> Outcome, log: seq<Event>)
    requires DistinctNodes(targets) && c.plans == PlansOf(targets, s) && RanClean(c, w, steps) && !s.skipFinalize
    requires Failures(Finalizing(s, outcome), targets, log, FanOut.After(c, FanOut.Init(c, w), steps).world, |targets|) == []
    ensures forall i :: 0 <= i < |targets| ==>
              && targets[i].form.Some? && Slot(w, targets[i].vmid) == None
              && Slot(Swept(Finalizing(s, outcome), targets, log, FanOut.After(c, FanOut.Init(c, w), steps).world, |targets|).0,
                      targets[i].vmid) == Some(FinalVM(targets[i], s))
  {
    var w1 := FanOut.After(c, FanOut.Init(c, w), steps).world;
    NilMeansAllRunning(targets, s, c, w, steps);
    NoFailures(Finalizing(s, outcome), targets, log, w1, |targets|);
    forall i | 0 <= i < |targets|
      ensures Slot(Swept(Finalizing(s, outcome), targets, log, w1, |targets|).0, targets[i].vmid) == Some(FinalVM(targets[i], s))
    {
      EachVMFinalized(s, outcome, targets, log, w1, i);
      CutWhole(Applied(targets[i], s.skipKickstartBuild).conf);
    }
  }

  // --- the whole run -------------------------------------------------------------------------------

  /** Planning the nodes in turn: what was asked, and whether it came through. It stops at a VM that could not be looked
      for or is there. */
  function Planning(targets: seq<Target>, hasClient: bool, outcome: nat -> Outcome, log: seq<Event>, w: World): (seq<Event>, bool) {
    if targets == [] then (log, true)
    else if Stops(targets[0], hasClient, outcome(|log|), w) then (log + LookFor(targets[0], hasClient), false)
    else Planning(targets[1..], hasClient, outcome, log + LookFor(targets[0], hasClient), w)
  }

  /** Planning fails exactly when some look does not come through or finds its VM. */
  lemma {:induction false} PlanningFailsIff(targets: seq<Target>, hasClient: bool, outcome: nat -> Outcome, log: seq<Event>, w: World)
    ensures Planning(targets, hasClient, outcome, log, w).1 <==>
              forall i :: 0 <= i < |targets| ==> !Stops(targets[i], hasClient, outcome(|log| + i), w)
  {
    if targets != [] {
      var looked := log + LookFor(targets[0], hasClient);
      PlanningFailsIff(targets[1..], hasClient, outcome, looked, w);
      assert forall i :: 0 < i < |targets| ==> targets[i] == targets[1..][i - 1];
      if hasClient { assert |looked| == |log| + 1; }
    }
  }

  /** Every node's look comes through and finds no VM. */
  ghost predicate NothingInTheWay(targets: seq<Target>, hasClient: bool, outcome: nat -> Outcome, n: nat, w: World) {
    forall i :: 0 <= i < |targets| ==> !Stops(targets[i], hasClient, outcome(n + i), w)
  }

  /** The looks of a planning that passes: one a node, in order. */
  function Looks(targets: seq<Target>, hasClient: bool): (looks: seq<Event>)
  {
    if hasClient then seq(|targets|, i requires 0 <= i < |targets| => Read(targets[i].host, targets[i].vmid)) else []
  }

  lemma {:induction false} PlanningLooks(targets: seq<Target>, hasClient: bool, outcome: nat -> Outcome, log: seq<Event>, w: World)
    requires Planning(targets, hasClient, outcome, log, w).1
    ensures Planning(targets, hasClient, outcome, log, w).0 == log + Looks(targets, hasClient)
  {
    if targets == [] {
      assert log + Looks(targets, hasClient) == log;
    } else {
      PlanningLooks(targets[1..], hasClient, outcome, log + LookFor(targets[0], hasClient), w);
      assert Looks(targets, hasClient) == LookFor(targets[0], hasClient) + Looks(targets[1..], hasClient);
      Reassociate(log, LookFor(targets[0], hasClient), Looks(targets[1..], hasClient));
    }
  }

  /** The look did not come through, or it found the VM. */
  predicate PlanningError(t: Target, o: Outcome, w: World, e: Err) {
    if o == Done then Has(w, t.host, t.vmid) && e == AlreadyExists else e == ReadFailed
  }

  /** A whole `Up`: where it leaves Proxmox, everything it asked for, and whether it returns nil. */
  function UpRun(targets: seq<Target>, s: Settings, c: FanOut.Config, steps: seq<FanOut.Step>,
                 outcome: nat -> Outcome, log: seq<Event>, w: World): (World, seq<Event>, bool)
    requires FanOut.Legal(c, FanOut.Init(c, w), steps)
  {
    var planning := Planning(targets, s.hasClient, outcome, log, w);
    var applied := FanOut.After(c, FanOut.Init(c, w), steps);
    var log1 := planning.0 + Asked(c, FanOut.Init(c, w), steps);
    var work := Finalizing(s, outcome);
    if !planning.1 || s.dryRun then (w, planning.0, planning.1)
    else if !FanOut.ReturnsNil(c, applied) || s.skipFinalize then (applied.world, log1, FanOut.ReturnsNil(c, applied))
    else
      var swept := Swept(work, targets, log1, applied.world, |targets|);
      (swept.0, swept.1, Failures(work, targets, log1, applied.world, |targets|) == [])
  }

  /** A look, or an operation of some node's plan or finalize. */
  predicate OfSomeUp(targets: seq<Target>, s: Settings, e: Event) {
    e.Issued? ==> exists i :: 0 <= i < |targets| && e.op in UpOps(targets[i], s)
  }

  /** `log` has grown by such events only. */
  predicate GrewByUp(targets: seq<Target>, s: Settings, before: seq<Event>, log: seq<Event>) {
    before <= log && forall k :: |before| <= k < |log| ==> OfSomeUp(targets, s, log[k])
  }

  lemma {:induction false} PlanningOnlyLooks(targets: seq<Target>, hasClient: bool, outcome: nat -> Outcome, log: seq<Event>, w: World)
    ensures var log' := Planning(targets, hasClient, outcome, log, w).0;
            log <= log' && forall k :: |log| <= k < |log'| ==> log'[k].Read?
  {
    if targets != [] && !Stops(targets[0], hasClient, outcome(|log|), w) {
      PlanningOnlyLooks(targets[1..], hasClient, outcome, log + LookFor(targets[0], hasClient), w);
    }
  }

  lemma AppliedAsksUpOps(targets: seq<Target>, s: Settings, c: FanOut.Config, w: World, steps: seq<FanOut.Step>, e: Event)
    requires c.plans == PlansOf(targets, s) && FanOut.Legal(c, FanOut.Init(c, w), steps) && e in Asked(c, FanOut.Init(c, w), steps)
    ensures OfSomeUp(targets, s, e)
  {
    AsksItsPlans(c, FanOut.Init(c, w), steps);
    var i :| 0 <= i < |c.plans| && e.Issued? && e.op in c.plans[i] && e.op != Missing;
    PlanGiven(targets, s, i);
    assert e.op in UpOps(targets[i], s);
  }

  lemma {:induction false} FinalizeAsksUpOps(targets: seq<Target>, s: Settings, outcome: nat -> Outcome, log: seq<Event>, w: World, k: nat)
    requires k <= |targets| && !s.skipFinalize
    ensures GrewByUp(targets, s, log, Swept(Finalizing(s, outcome), targets, log, w, k).1)
  {
    if k > 0 {
      FinalizeAsksUpOps(targets, s, outcome, log, w, k - 1);
      var before, t := Swept(Finalizing(s, outcome), targets, log, w, k - 1), targets[k - 1];
      var m, n := FinalizeIsPrefix(t, s, outcome, before.1, before.0);
      FinalizeGrows(targets, s, k - 1, log, before.1, m);
    }
  }

  lemma FinalizeGrows(targets: seq<Target>, s: Settings, i: nat, log: seq<Event>, before: seq<Event>, m: nat)
    requires i < |targets| && !s.skipFinalize && m <= |WaitAndFinalizeOps(targets[i])| && GrewByUp(targets, s, log, before)
    ensures GrewByUp(targets, s, log, before + Events(WaitAndFinalizeOps(targets[i])[..m]))
  {
    var ops := WaitAndFinalizeOps(targets[i]);
    var log' := before + Events(ops[..m]);
    forall k | |log| <= k < |log'| ensures OfSomeUp(targets, s, log'[k]) {
      if k >= |before| {
        assert log'[k] == Issued(ops[k - |before|]) && ops[k - |before|] in UpOps(targets[i], s);
      } else {
        assert log'[k] == before[k];
      }
    }
  }

  lemma ApplyAsksUpOps(targets: seq<Target>, s: Settings, c: FanOut.Config, steps: seq<FanOut.Step>, before: seq<Event>, looked: seq<Event>, w: World)
    requires c.plans == PlansOf(targets, s) && FanOut.Legal(c, FanOut.Init(c, w), steps) && GrewByUp(targets, s, before, looked)
    ensures GrewByUp(targets, s, before, looked + Asked(c, FanOut.Init(c, w), steps))
  {
    var asked := Asked(c, FanOut.Init(c, w), steps);
    forall k | |looked| <= k < |looked + asked| ensures OfSomeUp(targets, s, (looked + asked)[k]) {
      AppliedAsksUpOps(targets, s, c, w, steps, asked[k - |looked|]);
    }
  }

  lemma GrewOnByUp(targets: seq<Target>, s: Settings, a: seq<Event>, b: seq<Event>, c: seq<Event>)
    requires GrewByUp(targets, s, a, b) && GrewByUp(targets, s, b, c)
    ensures GrewByUp(targets, s, a, c)
  {
    forall k | |a| <= k < |c| ensures OfSomeUp(targets, s, c[k]) {
      if k < |b| { assert c[k] == b[k]; }
    }
  }

  /** Neither plans nor finalizes stop or delete a VM. */
  predicate TearsDown(e: Event) { e.Issued? && (e.op.Stop? || e.op.Delete?) }

  lemma NoUpTearsDown(targets: seq<Target>, s: Settings, e: Event)
    requires OfSomeUp(targets, s, e)
    ensures !TearsDown(e)
  {
    if e.Issued? {
      var i :| 0 <= i < |targets| && e.op in UpOps(targets[i], s);
      UpOpsHarmless(targets[i], s);
    }
  }

  /** Nothing is taken back: whatever failed, all that an `Up` asks of Proxmox are operations of the nodes' plans and
      finalizes, and none of these stops or deletes a VM. */
  lemma UpAsksNoTeardown(targets: seq<Target>, s: Settings, c: FanOut.Config, steps: seq<FanOut.Step>,
                         outcome: nat -> Outcome, log: seq<Event>, w: World)
    requires c.plans == PlansOf(targets, s) && FanOut.Legal(c, FanOut.Init(c, w), steps)
    ensures var log' := UpRun(targets, s, c, steps, outcome, log, w).1;
            GrewByUp(targets, s, log, log') && forall k :: |log| <= k < |log'| ==> !TearsDown(log'[k])
  {
    var looked, asked := Planning(targets, s.hasClient, outcome, log, w).0, Asked(c, FanOut.Init(c, w), steps);
    PlanningOnlyLooks(targets, s.hasClient, outcome, log, w);
    ApplyAsksUpOps(targets, s, c, steps, log, looked, w);
    if !s.skipFinalize {
      var applied := FanOut.After(c, FanOut.Init(c, w), steps).world;
      FinalizeAsksUpOps(targets, s, outcome, looked + asked, applied, |targets|);
      GrewOnByUp(targets, s, log, looked + asked, Swept(Finalizing(s, outcome), targets, looked + asked, applied, |targets|).1);
    }
    var log' := UpRun(targets, s, c, steps, outcome, log, w).1;
    forall k | |log| <= k < |log'| ensures !TearsDown(log'[k]) {
      NoUpTearsDown(targets, s, log'[k]);
    }
  }

  /** Where an `Up` ends. Planning that does not come through leaves everything alone, and so does a dry run; a failed apply
      is left as the executor left it and nothing more is asked; otherwise every node is finalized on top of it, unless
      that is skipped. */
  ghost predicate UpEnds(targets: seq<Target>, s: Settings, c: FanOut.Config, steps: seq<FanOut.Step>, outcome: nat -> Outcome,
                         log0: seq<Event>, w0: World, w: World, log: seq<Event>, isNil: bool)
    requires FanOut.Legal(c, FanOut.Init(c, w0), steps)
  {
    var applied := FanOut.After(c, FanOut.Init(c, w0), steps);
    var looked := log0 + Looks(targets, s.hasClient);
    var log1 := looked + Asked(c, FanOut.Init(c, w0), steps);
    var work := Finalizing(s, outcome);
    if !NothingInTheWay(targets, s.hasClient, outcome, |log0|, w0) then
      !isNil && w == w0
    else if s.dryRun then
      isNil && w == w0 && log == looked
    else if !FanOut.ReturnsNil(c, applied) then
      !isNil && w == applied.world && log == log1
    else if s.skipFinalize then
      isNil && w == applied.world && log == log1
    else
      && (w, log) == Swept(work, targets, log1, applied.world, |targets|)
      && (isNil <==> forall i :: 0 <= i < |targets| ==> Answered(work, targets, log1, applied.world, i).2 == None)
  }

  lemma UpRunEnds(targets: seq<Target>, s: Settings, c: FanOut.Config, steps: seq<FanOut.Step>, outcome: nat -> Outcome, log: seq<Event>, w: World)
    requires FanOut.Legal(c, FanOut.Init(c, w), steps)
    ensures var r := UpRun(targets, s, c, steps, outcome, log, w); UpEnds(targets, s, c, steps, outcome, log, w, r.0, r.1, r.2)
  {
    PlanningFailsIff(targets, s.hasClient, outcome, log, w);
    if Planning(targets, s.hasClient, outcome, log, w).1 {
      PlanningLooks(targets, s.hasClient, outcome, log, w);
      FailuresNone(Finalizing(s, outcome), targets, log + Looks(targets, s.hasClient) + Asked(c, FanOut.Init(c, w), steps),
                   FanOut.After(c, FanOut.Init(c, w), steps).world);
    }
  }

  /** Nil and no dry run: every VM was created here and is as a complete `Up` leaves it. */
  lemma UpRunFinal(targets: seq<Target>, s: Settings, c: FanOut.Config, steps: seq<FanOut.Step>, outcome: nat -> Outcome, log: seq<Event>, w: World)
    requires c.plans == PlansOf(targets, s) && FanOut.Legal(c, FanOut.Init(c, w), steps) && FanOut.Final(FanOut.After(c, FanOut.Init(c, w), steps))
    ensures var r := UpRun(targets, s, c, steps, outcome, log, w);
            r.2 && !s.dryRun && DistinctNodes(targets) ==> AllFinal(targets, s, w, r.0)
  {
    var r := UpRun(targets, s, c, steps, outcome, log, w);
    if r.2 && !s.dryRun && DistinctNodes(targets) {
      NilMeansAllRunning(targets, s, c, w, steps);
      if !s.skipFinalize {
        NilMeansAllFinal(targets, s, c, w, steps, outcome, Planning(targets, s.hasClient, outcome, log, w).0 + Asked(c, FanOut.Init(c, w), steps));
      }
    }
  }

  /** An `Up` does not fail without a reason: nothing in the way, lists that could be applied one by one, an address for
      every node and good answers throughout give nil. */
  lemma UpSucceeds(targets: seq<Target>, s: Settings, c: FanOut.Config, steps: seq<FanOut.Step>, outcome: nat -> Outcome, log: seq<Event>, w: World)
    requires DistinctNodes(targets) && c.plans == PlansOf(targets, s) && s.hasClient
    requires FanOut.Legal(c, FanOut.Init(c, w), steps) && FanOut.Final(FanOut.After(c, FanOut.Init(c, w), steps)) && FanOut.Smooth(steps)
    requires NothingInTheWay(targets, s.hasClient, outcome, |log|, w) && FanOut.Sequential(c.plans, w).Some?
    requires forall n :: n >= |log| ==> outcome(n) == Done
    requires forall i :: 0 <= i < |targets| ==> SshWait.AnyUsable(targets[i].ips)
    ensures UpRun(targets, s, c, steps, outcome, log, w).2
  {
    DistinctNodesIndependent(targets, s);
    FanOut.ConcurrencyAddsNoFailure(c, w, steps);
    NilMeansAllRunning(targets, s, c, w, steps);
    PlanningFailsIff(targets, s.hasClient, outcome, log, w);
    PlanningLooks(targets, s.hasClient, outcome, log, w);
    if !s.dryRun && !s.skipFinalize {
      var applied, log1 := FanOut.After(c, FanOut.Init(c, w), steps).world, log + Looks(targets, true) + Asked(c, FanOut.Init(c, w), steps);
      FinalizeSweepSucceeds(s, outcome, targets, log1, applied, |targets|);
      FailuresNone(Finalizing(s, outcome), targets, log1, applied);
    }
  }

  predicate AllFinal(targets: seq<Target>, s: Settings, w: World, w': World) {
    forall i :: 0 <= i < |targets| ==>
      targets[i].form.Some? && Slot(w, targets[i].vmid) == None && Slot(w', targets[i].vmid) == Some(FinalVM(targets[i], s))
  }

  class MultiNodeWorkflow {
    /** The manifest's nodes, sorted by name. */
    const targets: seq<Target>
    const settings: Settings
    const maxConcurrency: int
    const continueOnError: bool
    const env: Environment
    var isoUploadMu: Mutex?

    constructor (targets: seq<Target>, settings: Settings, maxConcurrency: int, continueOnError: bool, env: Environment, isoUploadMu: Mutex?)
      ensures this.targets == targets && this.settings == settings && this.env == env && this.isoUploadMu == isoUploadMu
      ensures this.maxConcurrency == maxConcurrency && this.continueOnError == continueOnError
    {
      this.targets, this.settings, this.env, this.isoUploadMu := targets, settings, env, isoUploadMu;
      this.maxConcurrency, this.continueOnError := maxConcurrency, continueOnError;
    }

    /** The upload mutex, allocated on first use. */
    method IsoMu() returns (mu: Mutex)
      modifies this`isoUploadMu
      ensures isoUploadMu == mu
      ensures old(isoUploadMu) != null ==> mu == old(isoUploadMu)
    {
      if isoUploadMu == null {
        isoUploadMu := new Mutex();
      }
      mu := isoUploadMu;
    }

    method PerNode(t: Target) returns (w: SingleVMWorkflow)
      modifies this`isoUploadMu
      ensures fresh(w) && w.target == Some(t) && w.settings == settings && w.env == env
      ensures isoUploadMu != null && w.uploadMu == isoUploadMu
      ensures old(isoUploadMu) != null ==> isoUploadMu == old(isoUploadMu)
    {
      var mu := IsoMu();
      w := new SingleVMWorkflow(Some(t), settings, env, mu);
    }

    /** Plan every node in turn. Afterwards the mutex exists, so that every later `PerNode` shares it. */
    method Plan() returns (err: Option<Err>, plans: seq<seq<Kind>>)
      modifies this`isoUploadMu, env
      ensures env.world == old(env.world)
      ensures targets != [] ==> isoUploadMu != null
      ensures (env.log, err == None) == Planning(targets, settings.hasClient, env.outcome, old(env.log), env.world)
      ensures err == None ==> plans == Planned(targets, settings.skipKickstartBuild)
      ensures err.Some? ==> exists i :: 0 <= i < |targets| && PlanningError(targets[i], env.outcome(|old(env.log)| + i), env.world, err.value)
    {
      plans := [];
      for i := 0 to |targets|
        invariant env.world == old(env.world)
        invariant i > 0 ==> isoUploadMu != null
        invariant plans == Planned(targets[..i], settings.skipKickstartBuild)
        invariant settings.hasClient ==> |env.log| == |old(env.log)| + i
        invariant Planning(targets, settings.hasClient, env.outcome, old(env.log), env.world)
               == Planning(targets[i..], settings.hasClient, env.outcome, env.log, env.world)
      {
        assert targets[i..][1..] == targets[i + 1..];
        var w := PerNode(targets[i]);
        var changes;
        err, changes := w.Plan();
        if err.Some? {
          assert PlanningError(targets[i], env.outcome(|old(env.log)| + i), env.world, err.value);
          return;
        }
        plans := plans + [changes];
      }
      assert targets[..|targets|] == targets;
      return None, plans;
    }

    /** What the executor is given. */
    function Config(plans: seq<seq<Kind>>): (c: FanOut.Config)
      requires |plans| == |targets|
      ensures c.limit == (if maxConcurrency > 0 then maxConcurrency else 4) && c.continueOnError == continueOnError
    {
      FanOut.Config(FanOut.EffectiveLimit(maxConcurrency), continueOnError, Given(targets, settings, plans))
    }

    /** `applyPlan`: the goroutines' steps in whatever order they are scheduled, with the calls they make. */
    method ApplyPlan(plans: seq<seq<Kind>>, schedule: seq<FanOut.Step>) returns (isNil: bool)
      requires |plans| == |targets|
      requires FanOut.Legal(Config(plans), FanOut.Init(Config(plans), env.world), schedule)
      requires FanOut.Final(FanOut.After(Config(plans), FanOut.Init(Config(plans), env.world), schedule))
      modifies env
      ensures var c, s0 := Config(plans), FanOut.Init(Config(plans), old(env.world));
              && env.world == FanOut.After(c, s0, schedule).world
              && env.log == old(env.log) + Asked(c, s0, schedule)
              && isNil == FanOut.ReturnsNil(c, FanOut.After(c, s0, schedule))
    {
      var c := Config(plans);
      var s := FanOut.Init(c, env.world);
      var rest := schedule;
      ghost var end := env.log + Asked(c, s, schedule);
      while rest != []
        invariant FanOut.Shape(c, s) && FanOut.Legal(c, s, rest) && env.world == s.world
        invariant FanOut.After(c, s, rest) == FanOut.After(c, FanOut.Init(c, old(env.world)), schedule)
        invariant env.log + Asked(c, s, rest) == end
        decreases |rest|
      {
        var calls := Events(CallOf(c, s, rest[0]));
        Reassociate(env.log, calls, Asked(c, FanOut.Next(c, s, rest[0]), rest[1..]));
        s := FanOut.Next(c, s, rest[0]);
        env.world, env.log := s.world, env.log + calls;
        rest := rest[1..];
      }
      isNil := FanOut.ReturnsNil(c, s);
    }

    method DestroyNode(t: Target, force: bool) returns (err: Option<Err>)
      modifies this`isoUploadMu, env
      ensures (env.world, env.log, err) == DestroyRun(t, settings.hasClient, force, env.outcome, old(env.log), old(env.world))
    {
      var w := PerNode(t);
      err := w.Destroy(force);
    }

    /** The loop over the nodes in the given order: every one is worked on, whatever came of the ones before, and the
        errors are those of the nodes that failed, in order. */
    method DestroyEach(order: seq<Target>, force: bool) returns (errs: seq<(string, Err)>)
      modifies this`isoUploadMu, env
      ensures (env.world, env.log)
           == Swept(Destroying(settings.hasClient, force, env.outcome), order, old(env.log), old(env.world), |order|)
      ensures errs == Failures(Destroying(settings.hasClient, force, env.outcome), order, old(env.log), old(env.world), |order|)
      ensures settings.hasClient ==> Looked(env.log) == Looked(old(env.log)) + Addresses(order)
    {
      ghost var work, log0, w0 := Destroying(settings.hasClient, force, env.outcome), env.log, env.world;
      errs := [];
      for k := 0 to |order|
        invariant SoFar(work, order, log0, w0, k, env.world, env.log, errs)
      {
        SoFarStep(work, order, log0, w0, k, env.world, env.log, errs);
        var err := DestroyNode(order[k], force);
        if err.Some? {
          errs := errs + [(order[k].name, err.value)];
        }
      }
      if settings.hasClient {
        EveryNodeLookedFor(force, env.outcome, order, log0, w0, |order|);
        assert order[..|order|] == order;
      }
    }

    /** `Down` and `Rollback`: destroy every node in reverse name order. */
    method DestroyAll(force: bool) returns (errs: seq<(string, Err)>)
      modifies this`isoUploadMu, env
      ensures (env.world, env.log)
           == Swept(Destroying(settings.hasClient, force, env.outcome), Reverse(targets), old(env.log), old(env.world), |targets|)
      ensures errs == Failures(Destroying(settings.hasClient, force, env.outcome), Reverse(targets), old(env.log), old(env.world), |targets|)
      ensures settings.hasClient ==> Looked(env.log) == Looked(old(env.log)) + Addresses(Reverse(targets))
      ensures errs == [] ==> AllAbsent(env.world, targets)
      ensures AllReported(env.world, targets, errs)
      ensures OthersKept(old(env.world), env.world, targets)
      ensures AllAbsent(old(env.world), targets) ==> env.world == old(env.world)
      ensures settings.hasClient && AllDone(env.outcome) ==> errs == []
    {
      var nodes := new Target[|targets|](i requires 0 <= i < |targets| => targets[i]);
      assert nodes[..] == targets;
      ReverseInPlace(nodes);
      ghost var log0, w0 := env.log, env.world;
      SameNodesReversed(targets);
      SweepTearsDown(settings.hasClient, force, env.outcome, targets, Reverse(targets), log0, w0, |targets|);
      if settings.hasClient && AllDone(env.outcome) {
        SweepWithoutFailure(force, env.outcome, Reverse(targets), log0, w0, |targets|);
      }
      errs := DestroyEach(nodes[..], force);
      assert Reverse(targets)[..|targets|] == Reverse(targets);
      ReportedThenAbsent(env.world, targets, errs);
    }

    method FinalizeNode(t: Target) returns (err: Option<Err>)
      modifies this`isoUploadMu, env
      ensures (env.world, env.log, err) == RunScript(FinalizeScript(t, settings), env.outcome, old(env.log), old(env.world))
      ensures FinalizedBy(t, old(env.world), env.world, err)
    {
      var w := PerNode(t);
      FinalizeEffect(t, settings, env.outcome, env.log, env.world);
      err := w.Finalize();
    }

    /** Finalize every node, whatever came of the ones before, collecting the failures. */
    method Finalize() returns (errs: seq<(string, Err)>)
      modifies this`isoUploadMu, env
      ensures (env.world, env.log) == Swept(Finalizing(settings, env.outcome), targets, old(env.log), old(env.world), |targets|)
      ensures errs == Failures(Finalizing(settings, env.outcome), targets, old(env.log), old(env.world), |targets|)
      ensures FinalizeMeans(settings, env.outcome, targets, old(env.log), old(env.world), env.world, errs == [])
    {
      ghost var work, log0, w0 := Finalizing(settings, env.outcome), env.log, env.world;
      errs := [];
      for i := 0 to |targets|
        invariant SoFar(work, targets, log0, w0, i, env.world, env.log, errs)
      {
        SoFarStep(work, targets, log0, w0, i, env.world, env.log, errs);
        var err := FinalizeNode(targets[i]);
        if err.Some? {
          errs := errs + [(targets[i].name, err.value)];
        }
      }
      FinalizeSweepMeans(settings, env.outcome, targets, log0, w0);
    }

    /** The dry run goes through the nodes one after the other, and each apply does nothing. */
    method ApplyEach(plans: seq<seq<Kind>>) returns (err: Option<Err>)
      requires settings.dryRun && |plans| == |targets|
      modifies this`isoUploadMu, env
      ensures err == None && env.world == old(env.world) && env.log == old(env.log)
    {
      for i := 0 to |targets|
        invariant env.world == old(env.world) && env.log == old(env.log)
      {
        var w := PerNode(targets[i]);
        err := w.Apply(plans[i]);
        if err.Some? {
          return;
        }
      }
      return None;
    }

    /** Plan, apply, verify, finalize. Verifying only reads and its errors are warnings. */
    method Up(schedule: seq<FanOut.Step>) returns (isNil: bool)
      requires var c := Config(Planned(targets, settings.skipKickstartBuild));
               FanOut.Legal(c, FanOut.Init(c, env.world), schedule) && FanOut.Final(FanOut.After(c, FanOut.Init(c, env.world), schedule))
      modifies this`isoUploadMu, env
      ensures (env.world, env.log, isNil) ==
              UpRun(targets, settings, Config(Planned(targets, settings.skipKickstartBuild)), schedule,
                    env.outcome, old(env.log), old(env.world))
      ensures UpEnds(targets, settings, Config(Planned(targets, settings.skipKickstartBuild)), schedule, env.outcome,
                     old(env.log), old(env.world), env.world, env.log, isNil)
      ensures GrewByUp(targets, settings, old(env.log), env.log)
      ensures forall k :: |old(env.log)| <= k < |env.log| ==> !TearsDown(env.log[k])
      ensures settings.dryRun ==> env.world == old(env.world)
      ensures isNil && !settings.dryRun && DistinctNodes(targets) ==> AllFinal(targets, settings, old(env.world), env.world)
    {
      ghost var w0, log0, c := env.world, env.log, Config(Planned(targets, settings.skipKickstartBuild));
      UpAsksNoTeardown(targets, settings, c, schedule, env.outcome, log0, w0);
      UpRunEnds(targets, settings, c, schedule, env.outcome, log0, w0);
      UpRunFinal(targets, settings, c, schedule, env.outcome, log0, w0);
      var err, plans := Plan();
      if err.Some? { return false; }
      if settings.dryRun {
        err := ApplyEach(plans);
        return err == None;
      }
      isNil := ApplyPlan(plans, schedule);
      if !isNil { return; }
      if settings.skipFinalize { return; }
      var errs := Finalize();
      isNil := errs == [];
    }
  }
}
