/** Proxmox as the workflow sees it: virtual machines by VMID, and ISO volumes by host and name with their contents.
    Each client call is one operation on that state, and each may fail. */
module Proxmox {
  import opened Wrappers

  type Conf = map<string, string>

  /** `conf` holds the keys of the VM's configuration: ide2, ide3, boot, scsi0, ... */
  datatype VM = VM(host: string, running: bool, conf: Conf)

  /** `volumes` maps a host and a volume's name to what is in the volume. */
  datatype World = World(vms: map<int, VM>, volumes: map<(string, string), string>)

  datatype Task = Render | Build | AwaitSSH

  /** One call of the Proxmox client, or one local action (`Local`) that leaves Proxmox alone. `Missing` stands for a step
      that fails before any call because something it needs is not there. */
  datatype Op =
    | Local(task: Task)
    | Missing
    | Upload(host: string, volid: string, content: string)
    | FindVolume(host: string, volid: string)
    | Create(host: string, vmid: int, form: Conf)
    | Start(host: string, vmid: int)
    | Stop(host: string, vmid: int, force: bool)
    | Delete(host: string, vmid: int)
    | SetKey(host: string, vmid: int, key: string, value: string)
    | DropKey(host: string, vmid: int, key: string)
  {
    predicate OnVM() { Create? || Start? || Stop? || Delete? || SetKey? || DropKey? }
  }

  /** Does a call addressed to this host and VMID reach a VM? */
  predicate Has(w: World, host: string, vmid: int) {
    vmid in w.vms && w.vms[vmid].host == host
  }

  function Slot(w: World, vmid: int): Option<VM> {
    if vmid in w.vms then Some(w.vms[vmid]) else None
  }

  function SetSlot(w: World, vmid: int, vm: Option<VM>): World {
    w.(vms := if vm.Some? then w.vms[vmid := vm.value] else w.vms - {vmid})
  }

  /** What a VM operation does to the VM at its VMID; the outer `None` is a rejection. */
  function OnSlot(op: Op, vm: Option<VM>): Option<Option<VM>>
    requires op.OnVM()
  {
    if op.Create? then
      if vm.Some? then None else Some(Some(VM(op.host, false, op.form)))
    else if vm == None || vm.value.host != op.host then None
    else match op
      case Start(_, _) => Some(Some(vm.value.(running := true)))
      case Stop(_, _, _) => Some(Some(vm.value.(running := false)))
      case Delete(_, _) => Some(None)
      case SetKey(_, _, key, value) => Some(Some(vm.value.(conf := vm.value.conf[key := value])))
      case DropKey(_, _, key) => Some(Some(vm.value.(conf := vm.value.conf - {key})))
  }

  /** What the operation does when Proxmox accepts it; `None` when Proxmox must reject it. */
  function Effect(op: Op, w: World): Option<World> {
    if op.OnVM() then
      match OnSlot(op, Slot(w, op.vmid))
      case None => None
      case Some(vm) => Some(SetSlot(w, op.vmid, vm))
    else match op
      case Upload(host, volid, content) => Some(w.(volumes := w.volumes[(host, volid) := content]))
      case FindVolume(host, volid) => if (host, volid) in w.volumes then Some(w) else None
      case Local(_) => Some(w)
      case Missing => None
  }

  /** What the environment does to an acceptable call. `Lost` took effect, yet the caller sees an
      error: it was submitted and polling for its end failed, or the context was cancelled. */
  datatype Outcome = Done | Refused | Lost

  /** One call under an environment: the new state and whether the caller saw success. */
  function Perform(op: Op, o: Outcome, w: World): (r: (World, bool))
    ensures r.1 ==> Effect(op, w) == Some(r.0)
    ensures r.0 == w || Effect(op, w) == Some(r.0)
  {
    match Effect(op, w)
    case None => (w, false)
    case Some(w') => if o == Refused then (w, false) else (w', o == Done)
  }

  /** The four ways a call can go. */
  lemma PerformMeans(op: Op, o: Outcome, w: World)
    ensures Effect(op, w) == None ==> Perform(op, o, w) == (w, false)
    ensures o == Refused ==> Perform(op, o, w) == (w, false)
    ensures o == Done && Effect(op, w).Some? ==> Perform(op, o, w) == (Effect(op, w).value, true)
    ensures o == Lost && Effect(op, w).Some? ==> Perform(op, o, w) == (Effect(op, w).value, false)
  {
  }

  /** What an accepted operation leaves at its own VMID, and that it leaves all others and the volumes alone. */
  lemma EffectMeans(op: Op, w: World)
    requires op.OnVM() && Effect(op, w).Some?
    ensures var w', vm, vm' := Effect(op, w).value, Slot(w, op.vmid), Slot(Effect(op, w).value, op.vmid);
            && w'.volumes == w.volumes && (forall id :: id != op.vmid ==> Slot(w', id) == Slot(w, id))
            && (op.Create? <==> vm == None) && (vm.Some? ==> vm.value.host == op.host) && (op.Delete? <==> vm' == None)
            && (vm'.Some? ==> vm'.value.host == op.host && (vm'.value.running <==> op.Start? || (!op.Stop? && vm.Some? && vm.value.running)))
            && (op.Start? || op.Stop? ==> vm'.value.conf == vm.value.conf)
            && (op.Create? ==> vm'.value.conf == op.form)
            && (op.SetKey? || op.DropKey? ==>
                  && (op.key in vm'.value.conf <==> op.SetKey?) && (op.SetKey? ==> vm'.value.conf[op.key] == op.value)
                  && vm'.value.conf - {op.key} == vm.value.conf - {op.key})
  {
  }

  /** All operations in order, all accepted; `None` as soon as one must be rejected. */
  function Run(ops: seq<Op>, w: World): Option<World> {
    if ops == [] then Some(w)
    else match Effect(ops[0], w)
      case None => None
      case Some(w') => Run(ops[1..], w')
  }

  lemma {:induction false} RunConcat(a: seq<Op>, b: seq<Op>, w: World)
    ensures Run(a + b, w) == if Run(a, w).Some? then Run(b, Run(a, w).value) else None
  {
    if a == [] {
      assert a + b == b;
    } else {
      assert (a + b)[1..] == a[1..] + b;
      if Effect(a[0], w).Some? {
        RunConcat(a[1..], b, Effect(a[0], w).value);
      }
    }
  }

  lemma RunSnoc(ops: seq<Op>, op: Op, w: World)
    ensures Run(ops + [op], w) == if Run(ops, w).Some? then Effect(op, Run(ops, w).value) else None
  {
    RunConcat(ops, [op], w);
    if Run(ops, w).Some? {
      var w' := Run(ops, w).value;
      if Effect(op, w').Some? {
        assert [op][1..] == [];
      }
    }
  }

  /** The two operations touch different VMs and do not upload the same volume, and neither looks for a volume
      while the other uploads. */
  predicate Independent(a: Op, b: Op) {
    && (a.OnVM() && b.OnVM() ==> a.vmid != b.vmid)
    && (a.Upload? && b.Upload? ==> (a.host, a.volid) != (b.host, b.volid))
    && !(a.Upload? && b.FindVolume?)
    && !(a.FindVolume? && b.Upload?)
  }

  lemma SetSlotsCommute(w: World, i: int, x: Option<VM>, j: int, y: Option<VM>)
    requires i != j
    ensures SetSlot(SetSlot(w, i, x), j, y) == SetSlot(SetSlot(w, j, y), i, x)
    ensures Slot(SetSlot(w, i, x), j) == Slot(w, j)
  {
    assert SetSlot(SetSlot(w, i, x), j, y).vms == SetSlot(SetSlot(w, j, y), i, x).vms;
  }

  lemma UploadsCommute(w: World, a: Op, b: Op)
    requires a.Upload? && b.Upload? && (a.host, a.volid) != (b.host, b.volid)
    ensures w.volumes[(a.host, a.volid) := a.content][(b.host, b.volid) := b.content]
         == w.volumes[(b.host, b.volid) := b.content][(a.host, a.volid) := a.content]
  {
  }

  /** One after the other: what the second does, it would have done without the first. */
  function Both(a: Op, b: Op, w: World): Option<World> {
    if Effect(a, w).Some? then Effect(b, Effect(a, w).value) else None
  }

  lemma CommuteOnVMs(a: Op, b: Op, w: World)
    requires a.OnVM() && b.OnVM() && a.vmid != b.vmid
    ensures Both(a, b, w) == Both(b, a, w)
  {
    var x, y := OnSlot(a, Slot(w, a.vmid)), OnSlot(b, Slot(w, b.vmid));
    if x.Some? { SetSlotsCommute(w, a.vmid, x.value, b.vmid, if y.Some? then y.value else None); }
    if y.Some? { SetSlotsCommute(w, b.vmid, y.value, a.vmid, if x.Some? then x.value else None); }
  }

  lemma RunBoth(a: Op, b: Op, w: World)
    ensures Run([a, b], w) == Both(a, b, w)
  {
    assert [a] + [b] == [a, b];
    RunSnoc([a], b, w);
    RunOne(a, w);
  }

  /** Independent operations commute, including in whether they are accepted. */
  lemma Commute(a: Op, b: Op, w: World)
    requires Independent(a, b)
    ensures Run([a, b], w) == Run([b, a], w)
  {
    RunBoth(a, b, w);
    RunBoth(b, a, w);
    if a.OnVM() && b.OnVM() {
      CommuteOnVMs(a, b, w);
    } else if a.Upload? && b.Upload? {
      UploadsCommute(w, a, b);
    }
  }

  lemma RunOne(op: Op, w: World)
    ensures Run([op], w) == Effect(op, w)
  {
    if Effect(op, w).Some? {
      assert [op][1..] == [];
    }
  }

  /** An operation accepted after a list it is independent of could have come before it. */
  lemma {:induction false} CommutePast(ops: seq<Op>, op: Op, w: World)
    requires forall k :: 0 <= k < |ops| ==> Independent(op, ops[k])
    ensures Run(ops + [op], w) == Run([op] + ops, w)
  {
    if ops == [] {
      assert ops + [op] == [op] + ops;
    } else {
      var a, rest := ops[0], ops[1..];
      assert ops + [op] == [a] + (rest + [op]);
      assert [op] + ops == [op, a] + rest;
      assert [a] + ([op] + rest) == [a, op] + rest;
      RunConcat([a], rest + [op], w);
      RunOne(a, w);
      if Effect(a, w).Some? {
        CommutePast(rest, op, Effect(a, w).value);
      }
      RunConcat([a], [op] + rest, w);
      RunConcat([a, op], rest, w);
      RunConcat([op, a], rest, w);
      Commute(op, a, w);
    }
  }
}
