/** One node's workflow: plan, apply, verify, finalize, and the two ways of tearing it down. */
module Lifecycle {
  import opened Wrappers
  import opened Proxmox
  import Text
  import SshWait

  /** What the workflow asks of the outside: a look whether a VM is there, or an operation. */
  datatype Event = Read(host: string, vmid: int) | Issued(op: Op)

  /** The operations among the events, in order. */
  function IssuedOps(log: seq<Event>): seq<Op> {
    if log == [] then [] else OpOf(log[0]) + IssuedOps(log[1..])
  }

  function OpOf(e: Event): seq<Op> { if e.Issued? then [e.op] else [] }

  /** Everything outside the workflow that may fail: Proxmox behind its client, the local renderer,
      the ISO builder and the SSH probe. `log` lists what has been asked so far, whatever the answer;
      `outcome(n)` decides what happens to the n-th of these. */
  class Environment {
    var world: World
    var log: seq<Event>
    const outcome: nat -> Outcome

    constructor (w: World, outcome: nat -> Outcome)
      ensures world == w && log == [] && this.outcome == outcome
    {
      world, log, this.outcome := w, [], outcome;
    }

    /** One call, as every client method issues it. */
    method Call(op: Op) returns (ok: bool)
      modifies this
      ensures (world, ok) == Perform(op, outcome(|old(log)|), old(world))
      ensures log == old(log) + [Issued(op)]
    {
      var r := Perform(op, outcome(|log|), world);
      world, log, ok := r.0, log + [Issued(op)], r.1;
    }

    /** `VMExists`: a read that may fail (`None`). */
    method VMExists(host: string, vmid: int) returns (exists_: Option<bool>)
      modifies this`log
      ensures exists_ == if outcome(|old(log)|) == Done then Some(Has(world, host, vmid)) else None
      ensures log == old(log) + [Read(host, vmid)]
    {
      exists_ := if outcome(|log|) == Done then Some(Has(world, host, vmid)) else None;
      log := log + [Read(host, vmid)];
    }

    method AttachISOAsCDROM(host: string, vmid: int, port: string, iso: string) returns (err: Option<Err>)
      modifies this
      ensures port != "" && iso != "" ==>
                (world, log, err) == RunScript([Issue(SetKey(host, vmid, port, CDROM(iso)))], outcome, old(log), old(world))
      ensures port == "" || iso == "" ==> err == Some(BadArgument) && world == old(world) && log == old(log)
    {
      if port == "" || iso == "" {
        return Some(BadArgument);
      }
      var ok := Call(SetKey(host, vmid, port, CDROM(iso)));
      err := if ok then None else Some(CallFailed(SetKey(host, vmid, port, CDROM(iso))));
    }

    method EjectISO(host: string, vmid: int, port: string) returns (err: Option<Err>)
      modifies this
      ensures port != "" ==>
                (world, log, err) == RunScript([Issue(DropKey(host, vmid, port))], outcome, old(log), old(world))
      ensures port == "" ==> err == Some(BadArgument) && world == old(world) && log == old(log)
    {
      if port == "" {
        return Some(BadArgument);
      }
      var ok := Call(DropKey(host, vmid, port));
      err := if ok then None else Some(CallFailed(DropKey(host, vmid, port)));
    }

    method SetBootOrder(host: string, vmid: int, boot: string) returns (err: Option<Err>)
      modifies this
      ensures BootValue(boot).Some? ==>
                (world, log, err) == RunScript([Issue(SetKey(host, vmid, "boot", BootValue(boot).value))], outcome, old(log), old(world))
      ensures BootValue(boot) == None ==> err == Some(BadArgument) && world == old(world) && log == old(log)
    {
      var value := Text.TrimSpace(boot);
      if value == "" {
        return Some(BadArgument);
      }
      if !Text.HasPrefix(value, "order=") {
        value := "order=" + value;
      }
      var ok := Call(SetKey(host, vmid, "boot", value));
      err := if ok then None else Some(CallFailed(SetKey(host, vmid, "boot", value)));
    }
  }

  function CDROM(iso: string): string { iso + ",media=cdrom" }

  /** The normalised boot order, or `None` when it is blank. */
  function BootValue(boot: string): Option<string> {
    var value := Text.TrimSpace(boot);
    if value == "" then None
    else if Text.HasPrefix(value, "order=") then Some(value)
    else Some("order=" + value)
  }

  /** A blank order has no value; any other is trimmed and gets the prefix once. */
  lemma BootValueMeans(boot: string)
    ensures BootValue(boot) == None <==> forall i :: 0 <= i < |boot| ==> Text.IsSpace(boot[i])
    ensures BootValue(boot).Some? ==>
              exists a, core, b :: boot == a + core + b && Text.Blank(a) && Text.Blank(b) && Text.Trimmed(core) &&
                BootValue(boot).value == if "order=" <= core then core else "order=" + core
  {
    Text.TrimSpaceMeans(boot);
  }

  datatype Err =
    | NotResolved | NoClient | NoRenderer | NoBuilder | NoIP | BadArgument | InvalidOptions
    | StorageNotConfigured | IsoPathEmpty | UnknownKind(name: string)
    | AlreadyExists | ReadFailed | NotRunning
    | CallFailed(op: Op)

  // --- scripts: what a piece of the workflow does, call by call -----------------

  datatype Item = Issue(op: Op) | Abort(err: Err)

  /** Run a script against an environment: stop at the first abort or failed call. */
  function RunScript(items: seq<Item>, outcome: nat -> Outcome, log: seq<Event>, w: World): (World, seq<Event>, Option<Err>) {
    if items == [] then (w, log, None)
    else match items[0]
      case Abort(e) => (w, log, Some(e))
      case Issue(op) =>
        var r := Perform(op, outcome(|log|), w);
        if r.1 then RunScript(items[1..], outcome, log + [Issued(op)], r.0) else (r.0, log + [Issued(op)], Some(CallFailed(op)))
  }

  lemma {:induction false} RunScriptConcat(a: seq<Item>, b: seq<Item>, outcome: nat -> Outcome, log: seq<Event>, w: World)
    ensures RunScript(a + b, outcome, log, w) ==
            var r := RunScript(a, outcome, log, w);
            if r.2 == None then RunScript(b, outcome, r.1, r.0) else r
  {
    if a == [] {
      assert a + b == b;
    } else {
      assert (a + b)[1..] == a[1..] + b;
      if a[0].Issue? {
        RunScriptConcat(a[1..], b, outcome, log + [Issued(a[0].op)], Perform(a[0].op, outcome(|log|), w).0);
      }
    }
  }

  function Calls(ops: seq<Op>): (items: seq<Item>)
    ensures |items| == |ops| && forall i :: 0 <= i < |ops| ==> items[i] == Issue(ops[i])
  {
    seq(|ops|, i requires 0 <= i < |ops| => Issue(ops[i]))
  }

  lemma RunCalls(ops: seq<Op>, outcome: nat -> Outcome, log: seq<Event>, w: World)
    requires ops != []
    ensures RunScript(Calls(ops), outcome, log, w) ==
            var r, log' := Perform(ops[0], outcome(|log|), w), log + [Issued(ops[0])];
            if r.1 then RunScript(Calls(ops[1..]), outcome, log', r.0) else (r.0, log', Some(CallFailed(ops[0])))
  {
    assert Calls(ops)[1..] == Calls(ops[1..]);
  }

  function Events(ops: seq<Op>): (events: seq<Event>)
    ensures |events| == |ops|
  {
    seq(|ops|, i requires 0 <= i < |ops| => Issued(ops[i]))
  }

  lemma Reassociate<T>(a: seq<T>, b: seq<T>, c: seq<T>)
    ensures a + (b + c) == a + b + c
  {
  }

  lemma {:induction false} IssuedConcat(a: seq<Event>, b: seq<Event>)
    ensures IssuedOps(a + b) == IssuedOps(a) + IssuedOps(b)
  {
    if a == [] {
      assert a + b == b;
    } else {
      var rest := a[1..] + b;
      IssuedConcat(a[1..], b);
      assert (a + b)[0] == a[0] && (a + b)[1..] == rest;
      Reassociate(OpOf(a[0]), IssuedOps(a[1..]), IssuedOps(b));
    }
  }

  lemma {:induction false} IssuedEvents(ops: seq<Op>)
    ensures IssuedOps(Events(ops)) == ops
  {
    if ops != [] {
      IssuedEvents(ops[1..]);
      assert Events(ops)[1..] == Events(ops[1..]);
    }
  }

  /** How far a run of calls came: the first `m` were issued, and Proxmox is where the first `k` take it; the last
      one issued may have failed, with its effect or without. */
  predicate Came(ops: seq<Op>, log: seq<Event>, w: World, r: (World, seq<Event>, Option<Err>), m: nat, k: nat) {
    && k <= m <= |ops| && m <= k + 1
    && r.1 == log + Events(ops[..m])
    && Run(ops[..k], w) == Some(r.0)
    && (r.2 == None ==> k == |ops|)
  }

  /** The error is that of the last call issued. */
  predicate LastFailed(ops: seq<Op>, r: (World, seq<Event>, Option<Err>), m: nat) {
    r.2.Some? ==> 0 < m <= |ops| && r.2 == Some(CallFailed(ops[m - 1]))
  }

  lemma CameStep(ops: seq<Op>, log: seq<Event>, w: World, w1: World,
                 r: (World, seq<Event>, Option<Err>), m: nat, k: nat)
    requires ops != [] && Effect(ops[0], w) == Some(w1)
    requires Came(ops[1..], log + [Issued(ops[0])], w1, r, m, k) && LastFailed(ops[1..], r, m)
    ensures Came(ops, log, w, r, m + 1, k + 1) && LastFailed(ops, r, m + 1)
  {
    assert ops[..k + 1][1..] == ops[1..][..k] && ops[..k + 1][0] == ops[0];
    assert Events(ops[..m + 1]) == [Issued(ops[0])] + Events(ops[1..][..m]);
    assert log + [Issued(ops[0])] + Events(ops[1..][..m]) == log + Events(ops[..m + 1]);
    if r.2.Some? { assert ops[1..][m - 1] == ops[m]; }
  }

  /** Whatever fails, a script of calls issues a prefix of it and has the effect of a prefix of it: the whole list on
      success, and on failure the calls before the failing one, possibly with that one (its answer was lost). */
  lemma {:induction false} EffectOfPrefix(ops: seq<Op>, outcome: nat -> Outcome, log: seq<Event>, w: World) returns (m: nat, k: nat)
    ensures var r := RunScript(Calls(ops), outcome, log, w); Came(ops, log, w, r, m, k) && LastFailed(ops, r, m)
    decreases |ops|
  {
    if ops == [] {
      m, k := 0, 0;
      assert log + Events(ops[..0]) == log;
    } else {
      var p := Perform(ops[0], outcome(|log|), w);
      RunCalls(ops, outcome, log, w);
      if p.1 {
        m, k := EffectOfPrefix(ops[1..], outcome, log + [Issued(ops[0])], p.0);
        CameStep(ops, log, w, p.0, RunScript(Calls(ops), outcome, log, w), m, k);
        m, k := m + 1, k + 1;
      } else {
        m, k := 1, if p.0 == w then 0 else 1;
        RunOne(ops[0], w);
        assert ops[..1] == [ops[0]] && ops[..0] == [];
        assert Events([ops[0]]) == [Issued(ops[0])];
      }
    }
  }

  // --- one node -------------------------------------------------------------------

  /** What the manifest says about one node. `kickstartStorage` is empty when none is configured;
      `form` is what `CreateVM` would submit, or `None` when the options fail its own check. */
  datatype Target = Target(name: string, host: string, vmid: int, kickstartStorage: string, form: Option<Conf>, ips: map<string, string>)

  datatype Settings = Settings(hasClient: bool, hasRenderer: bool, hasBuilder: bool, dryRun: bool, skipKickstartBuild: bool, skipFinalize: bool)

  datatype Kind =
    | RenderKickstart | BuildISO | UploadISO | VerifyKickstartISO | CreateVM | AttachKickstartISO | StartVM
    | Other(name: string)

  function AttachedVolume(t: Target): string { t.kickstartStorage + ":iso/" + t.name + "_kickstart.iso" }

  function UploadedVolume(t: Target): string { t.kickstartStorage + ":iso/" + "proxctl-" + t.name + ".iso" }

  const INSTALL_BOOT := "scsi0;ide3;ide2"
  const FINAL_BOOT := "scsi0"

  /** The changes up to the creation of the VM. */
  function Head(t: Target, skipBuild: bool): seq<Kind> {
    var storage := if t.kickstartStorage == "" then [] else if skipBuild then [VerifyKickstartISO] else [UploadISO];
    if skipBuild then storage else [RenderKickstart] + ([BuildISO] + storage)
  }

  /** The changes from the creation of the VM on. */
  function Tail(t: Target): seq<Kind> {
    [CreateVM] + ((if t.kickstartStorage != "" then [AttachKickstartISO] else []) + [StartVM])
  }

  function PlanOf(t: Target, skipBuild: bool): seq<Kind> { Head(t, skipBuild) + Tail(t) }

  /** The calls a change makes when nothing stops it. What is uploaded is the node's own image, known by the node's
      name. */
  function OpsOf(t: Target, kind: Kind): seq<Op> {
    match kind
    case RenderKickstart => [Local(Render)]
    case BuildISO => [Local(Build)]
    case UploadISO => [Upload(t.host, UploadedVolume(t), t.name)]
    case VerifyKickstartISO => [FindVolume(t.host, AttachedVolume(t))]
    case CreateVM => if t.form.Some? then [Create(t.host, t.vmid, t.form.value)] else []
    case AttachKickstartISO =>
      [SetKey(t.host, t.vmid, "ide3", CDROM(AttachedVolume(t))), SetKey(t.host, t.vmid, "boot", "order=" + INSTALL_BOOT)]
    case StartVM => [Start(t.host, t.vmid)]
    case Other(_) => []
  }

  /** What `Apply` does for one change; `haveIso` says whether the local ISO path is set. */
  function Items(t: Target, s: Settings, kind: Kind, haveIso: bool): seq<Item> {
    match kind
    case RenderKickstart => if s.hasRenderer then Calls(OpsOf(t, kind)) else [Abort(NoRenderer)]
    case BuildISO => if s.hasBuilder then Calls(OpsOf(t, kind)) else [Abort(NoBuilder)]
    case Other(name) => [Abort(UnknownKind(name))]
    case _ =>
      if !s.hasClient then [Abort(NoClient)]
      else if kind in {UploadISO, VerifyKickstartISO, AttachKickstartISO} && t.kickstartStorage == "" then [Abort(StorageNotConfigured)]
      else if kind == UploadISO && !haveIso then [Abort(IsoPathEmpty)]
      else if kind == CreateVM && t.form == None then [Abort(InvalidOptions)]
      else Calls(OpsOf(t, kind))
  }

  function Script(t: Target, s: Settings, changes: seq<Kind>, haveIso: bool): seq<Item> {
    if changes == [] then []
    else Items(t, s, changes[0], haveIso) + Script(t, s, changes[1..], haveIso || changes[0] == BuildISO)
  }

  function OpsList(t: Target, changes: seq<Kind>): seq<Op> {
    if changes == [] then [] else OpsOf(t, changes[0]) + OpsList(t, changes[1..])
  }

  lemma {:induction false} CallsConcat(a: seq<Op>, b: seq<Op>)
    ensures Calls(a + b) == Calls(a) + Calls(b)
  {
  }

  lemma CallsPrefix(here: seq<Op>, later: seq<Op>, n: nat, rest: seq<Item>)
    requires n <= |later|
    ensures (here + later)[..|here| + n] == here + later[..n]
    ensures Calls(here) + (Calls(later[..n]) + rest) == Calls((here + later)[..|here| + n]) + rest
  {
    assert (here + later)[..|here| + n] == here + later[..n];
    CallsConcat(here, later[..n]);
    assert Calls(here) + (Calls(later[..n]) + rest) == Calls(here) + Calls(later[..n]) + rest;
  }

  lemma CallsOrAbort(t: Target, s: Settings, kind: Kind, haveIso: bool)
    ensures var items := Items(t, s, kind, haveIso);
            items == Calls(OpsOf(t, kind)) || (|items| == 1 && items[0].Abort?)
  {
  }

  /** A script is the calls of its changes up to some point, and then nothing or an abort. */
  lemma {:induction false} ScriptShape(t: Target, s: Settings, changes: seq<Kind>, haveIso: bool) returns (m: nat, rest: seq<Item>)
    ensures m <= |OpsList(t, changes)| && Script(t, s, changes, haveIso) == Calls(OpsList(t, changes)[..m]) + rest
    ensures if rest == [] then m == |OpsList(t, changes)| else rest[0].Abort?
  {
    if changes == [] {
      m, rest := 0, [];
    } else {
      var here, later := OpsOf(t, changes[0]), OpsList(t, changes[1..]);
      var items, tail := Items(t, s, changes[0], haveIso), Script(t, s, changes[1..], haveIso || changes[0] == BuildISO);
      if items == Calls(here) {
        var n, r := ScriptShape(t, s, changes[1..], haveIso || changes[0] == BuildISO);
        m, rest := |here| + n, r;
        CallsPrefix(here, later, n, r);
      } else {
        m, rest := 0, items + tail;
        CallsOrAbort(t, s, changes[0], haveIso);
        assert OpsList(t, changes)[..0] == [];
      }
    }
  }

  /** For every change list, every setting and every failure: what is issued is a prefix of the list's calls, Proxmox
      ends up exactly where a prefix of them takes it, and where the whole list takes it when nil is returned. */
  lemma ApplyIsPrefix(t: Target, s: Settings, changes: seq<Kind>, outcome: nat -> Outcome, log: seq<Event>, w: World)
    returns (m: nat, k: nat)
    ensures Came(OpsList(t, changes), log, w, RunScript(Script(t, s, changes, false), outcome, log, w), m, k)
  {
    var n, rest := ScriptShape(t, s, changes, false);
    var all := OpsList(t, changes);
    m, k := EffectOfPrefix(all[..n], outcome, log, w);
    assert all[..n][..k] == all[..k] && all[..n][..m] == all[..m];
    RunScriptConcat(Calls(all[..n]), rest, outcome, log, w);
  }

  // --- an apply as the executor takes it --------------------------------------------

  /** The script as a list of operations: its calls, and `Missing` where it aborts. */
  function ExecutorOps(items: seq<Item>): seq<Op> {
    if items == [] then []
    else match items[0]
      case Abort(_) => [Missing]
      case Issue(op) => [op] + ExecutorOps(items[1..])
  }

  lemma {:induction false} ExecutorOpsOfCalls(ops: seq<Op>, rest: seq<Item>)
    requires rest != [] ==> rest[0].Abort?
    ensures ExecutorOps(Calls(ops) + rest) == ops + (if rest == [] then [] else [Missing])
  {
    if ops == [] {
      assert Calls(ops) + rest == rest;
    } else {
      ExecutorOpsOfCalls(ops[1..], rest);
      assert (Calls(ops) + rest)[1..] == Calls(ops[1..]) + rest;
      assert [ops[0]] + ops[1..] == ops;
    }
  }

  /** What the executor is given for a change list: all its calls, or some of them and then a step that can only fail. */
  lemma GivenOps(t: Target, s: Settings, changes: seq<Kind>) returns (m: nat)
    ensures m <= |OpsList(t, changes)|
    ensures var ops := ExecutorOps(Script(t, s, changes, false));
            if Missing in ops then ops == OpsList(t, changes)[..m] + [Missing]
            else ops == OpsList(t, changes) && (CreateVM in changes ==> t.form.Some?)
  {
    var rest;
    m, rest := ScriptShape(t, s, changes, false);
    ExecutorOpsOfCalls(OpsList(t, changes)[..m], rest);
    OpsStayOnTarget(t, changes);
    if rest == [] {
      assert OpsList(t, changes)[..m] == OpsList(t, changes);
      if CreateVM in changes && t.form == None {
        var i := AbortsWithoutForm(t, s, changes, false);
      }
    }
  }

  lemma {:induction false} AbortsWithoutForm(t: Target, s: Settings, changes: seq<Kind>, haveIso: bool) returns (i: nat)
    requires CreateVM in changes && t.form == None
    ensures i < |Script(t, s, changes, haveIso)| && Script(t, s, changes, haveIso)[i].Abort?
  {
    var items := Items(t, s, changes[0], haveIso);
    if changes[0] == CreateVM {
      i := 0;
    } else {
      i := AbortsWithoutForm(t, s, changes[1..], haveIso || changes[0] == BuildISO);
      i := |items| + i;
    }
  }

  // --- what a planned apply does ----------------------------------------------------

  function PlanOps(t: Target, skipBuild: bool): seq<Op> { OpsList(t, PlanOf(t, skipBuild)) }

  /** The plan's operations up to the creation of the VM; none of them touches a VM. */
  function HeadOps(t: Target, skipBuild: bool): seq<Op> {
    var storage :=
      if t.kickstartStorage == "" then []
      else if skipBuild then [FindVolume(t.host, AttachedVolume(t))]
      else [Upload(t.host, UploadedVolume(t), t.name)];
    if skipBuild then storage else [Local(Render), Local(Build)] + storage
  }

  /** The plan's operations from the creation of the VM on. */
  function TailOps(t: Target): seq<Op>
    requires t.form.Some?
  {
    if t.kickstartStorage == "" then
      [Create(t.host, t.vmid, t.form.value), Start(t.host, t.vmid)]
    else
      [Create(t.host, t.vmid, t.form.value), SetKey(t.host, t.vmid, "ide3", CDROM(AttachedVolume(t))),
       SetKey(t.host, t.vmid, "boot", "order=" + INSTALL_BOOT), Start(t.host, t.vmid)]
  }

  /** The operations of a plan, one by one, in each of the four cases. */
  lemma PlanSpelledOut(t: Target, form: Conf)
    requires t.form == Some(form)
    ensures var h, id, iso := t.host, t.vmid, t.kickstartStorage + ":iso/" + t.name + "_kickstart.iso";
            var make, start := Create(h, id, form), Start(h, id);
            var attach, boot := SetKey(h, id, "ide3", iso + ",media=cdrom"), SetKey(h, id, "boot", "order=scsi0;ide3;ide2");
            var upload := Upload(h, t.kickstartStorage + ":iso/" + "proxctl-" + t.name + ".iso", t.name);
            if t.kickstartStorage == "" then
              PlanOps(t, false) == [Local(Render), Local(Build), make, start] && PlanOps(t, true) == [make, start]
            else
              && PlanOps(t, false) == [Local(Render), Local(Build), upload, make, attach, boot, start]
              && PlanOps(t, true) == [FindVolume(h, iso), make, attach, boot, start]
  {
    PlanOpsAre(t, false);
    PlanOpsAre(t, true);
    assert "order=" + "scsi0;ide3;ide2" == "order=scsi0;ide3;ide2";
  }

  lemma OpsListOne(t: Target, kind: Kind)
    ensures OpsList(t, [kind]) == OpsOf(t, kind)
  {
    assert [kind][1..] == [];
  }

  lemma {:induction false} OpsListConcat(t: Target, a: seq<Kind>, b: seq<Kind>)
    ensures OpsList(t, a + b) == OpsList(t, a) + OpsList(t, b)
  {
    if a == [] {
      assert a + b == b;
    } else {
      assert (a + b)[1..] == a[1..] + b;
      OpsListConcat(t, a[1..], b);
    }
  }

  lemma HeadOpsAre(t: Target, skipBuild: bool)
    ensures OpsList(t, Head(t, skipBuild)) == HeadOps(t, skipBuild)
  {
    var storage := if t.kickstartStorage == "" then [] else if skipBuild then [VerifyKickstartISO] else [UploadISO];
    OpsListOne(t, if skipBuild then VerifyKickstartISO else UploadISO);
    if !skipBuild {
      OpsListConcat(t, [RenderKickstart], [BuildISO] + storage);
      OpsListConcat(t, [BuildISO], storage);
      OpsListOne(t, RenderKickstart);
      OpsListOne(t, BuildISO);
      assert [Local(Render)] + ([Local(Build)] + OpsList(t, storage)) == [Local(Render), Local(Build)] + OpsList(t, storage);
    }
  }

  lemma TailOpsAre(t: Target)
    requires t.form.Some?
    ensures OpsList(t, Tail(t)) == TailOps(t)
  {
    var attach := if t.kickstartStorage != "" then [AttachKickstartISO] else [];
    OpsListConcat(t, [CreateVM], attach + [StartVM]);
    OpsListConcat(t, attach, [StartVM]);
    OpsListOne(t, CreateVM);
    OpsListOne(t, AttachKickstartISO);
    OpsListOne(t, StartVM);
  }

  /** The plan's operations, spelled out. */
  lemma PlanOpsAre(t: Target, skipBuild: bool)
    requires t.form.Some?
    ensures PlanOps(t, skipBuild) == HeadOps(t, skipBuild) + TailOps(t)
  {
    OpsListConcat(t, Head(t, skipBuild), Tail(t));
    HeadOpsAre(t, skipBuild);
    TailOpsAre(t);
  }

  function CreateAt(t: Target, skipBuild: bool): nat { |HeadOps(t, skipBuild)| }

  /** The configuration after the first k operations: created, kickstart attached, boot order set. */
  function ConfAt(t: Target, skipBuild: bool, k: nat): Conf
    requires t.form.Some?
  {
    var j, ks := k - CreateAt(t, skipBuild), t.kickstartStorage != "";
    var attached := if ks && j >= 2 then t.form.value["ide3" := CDROM(AttachedVolume(t))] else t.form.value;
    if ks && j >= 3 then attached["boot" := "order=" + INSTALL_BOOT] else attached
  }

  /** The VM after the first k operations of the plan; it runs only after the last one. */
  function Stage(t: Target, skipBuild: bool, k: nat): Option<VM>
    requires t.form.Some?
  {
    if k <= CreateAt(t, skipBuild) then None
    else Some(VM(t.host, k == |PlanOps(t, skipBuild)|, ConfAt(t, skipBuild, k)))
  }

  lemma StageStep(t: Target, skipBuild: bool, k: nat, w: World)
    requires t.form.Some? && k < |PlanOps(t, skipBuild)| && Slot(w, t.vmid) == Stage(t, skipBuild, k)
    requires Effect(PlanOps(t, skipBuild)[k], w).Some?
    ensures var w' := Effect(PlanOps(t, skipBuild)[k], w).value;
            Slot(w', t.vmid) == Stage(t, skipBuild, k + 1) && forall id :: id != t.vmid ==> Slot(w', id) == Slot(w, id)
  {
    PlanOpsAre(t, skipBuild);
    var c := CreateAt(t, skipBuild);
    var op := PlanOps(t, skipBuild)[k];
    if k < c {
      assert op == HeadOps(t, skipBuild)[k];
    } else {
      assert op == TailOps(t)[k - c];
    }
  }

  /** After any prefix of the plan on a state without the VM: exactly its stage, and no other VM is touched. */
  lemma {:induction false} StageReached(t: Target, skipBuild: bool, k: nat, w: World)
    requires t.form.Some? && k <= |PlanOps(t, skipBuild)| && Slot(w, t.vmid) == None
    requires Run(PlanOps(t, skipBuild)[..k], w).Some?
    ensures var w' := Run(PlanOps(t, skipBuild)[..k], w).value;
            Slot(w', t.vmid) == Stage(t, skipBuild, k) && forall id :: id != t.vmid ==> Slot(w', id) == Slot(w, id)
  {
    if k > 0 {
      var ops := PlanOps(t, skipBuild);
      assert ops[..k] == ops[..k - 1] + [ops[k - 1]];
      RunSnoc(ops[..k - 1], ops[k - 1], w);
      StageReached(t, skipBuild, k - 1, w);
      StageStep(t, skipBuild, k - 1, Run(ops[..k - 1], w).value);
    }
  }

  /** Whatever fails during a planned apply, a VM that runs afterwards was created from the manifest's form
      and, when kickstart storage is set, got its kickstart ISO and boot order first. */
  lemma RunningMeansReady(t: Target, s: Settings, outcome: nat -> Outcome, log: seq<Event>, w: World)
    requires t.form.Some? && Slot(w, t.vmid) == None
    ensures var r := RunScript(Script(t, s, PlanOf(t, s.skipKickstartBuild), false), outcome, log, w);
            var vm := Slot(r.0, t.vmid);
            && (vm.Some? && vm.value.running ==>
                  vm.value == VM(t.host, true,
                                 if t.kickstartStorage == "" then t.form.value
                                 else t.form.value["ide3" := t.kickstartStorage + ":iso/" + t.name + "_kickstart.iso" + ",media=cdrom"]
                                                  ["boot" := "order=scsi0;ide3;ide2"]))
            && (r.2 == None ==> vm.Some? && vm.value.running)
            && (forall id :: id != t.vmid ==> Slot(r.0, id) == Slot(w, id))
  {
    var skip := s.skipKickstartBuild;
    var m, k := ApplyIsPrefix(t, s, PlanOf(t, skip), outcome, log, w);
    StageReached(t, skip, k, w);
    PlanOpsAre(t, skip);
    InstallOrder();
  }

  lemma InstallOrder()
    ensures "order=" + INSTALL_BOOT == "order=scsi0;ide3;ide2"
  {
  }

  /** The three error branches that no planned list can take, under any settings. */
  predicate DeadBranch(item: Item) {
    item.Abort? && (item.err == StorageNotConfigured || item.err == IsoPathEmpty || item.err.UnknownKind?)
  }

  lemma DeadBranchesUnreached(t: Target, s: Settings)
    ensures forall item :: item in Script(t, s, PlanOf(t, s.skipKickstartBuild), false) ==> !DeadBranch(item)
  {
    var plan := PlanOf(t, s.skipKickstartBuild);
    forall i | 0 <= i < |plan| && plan[i] == UploadISO ensures BuildISO in plan[..i] {
      assert plan[..i][1] == BuildISO;
    }
    NoDeadBranch(t, s, plan, false);
  }

  lemma {:induction false} NoDeadBranch(t: Target, s: Settings, changes: seq<Kind>, haveIso: bool)
    requires forall kind :: kind in changes ==> !kind.Other?
    requires forall kind :: kind in changes && kind in {UploadISO, VerifyKickstartISO, AttachKickstartISO} ==> t.kickstartStorage != ""
    requires forall i :: 0 <= i < |changes| && changes[i] == UploadISO ==> haveIso || BuildISO in changes[..i]
    ensures forall item :: item in Script(t, s, changes, haveIso) ==> !DeadBranch(item)
  {
    if changes != [] {
      assert changes[0] in changes;
      var tail := changes[1..];
      forall i | 0 <= i < |tail| && tail[i] == UploadISO ensures haveIso || changes[0] == BuildISO || BuildISO in tail[..i] {
        assert changes[i + 1] == UploadISO;
        assert changes[..i + 1] == [changes[0]] + tail[..i];
      }
      assert forall kind :: kind in tail ==> kind in changes;
      NoDeadBranch(t, s, tail, haveIso || changes[0] == BuildISO);
    }
  }

  /** What the error says is missing is missing. */
  predicate ToolMissing(t: Target, s: Settings, e: Err) {
    match e
    case NoClient => !s.hasClient
    case NoRenderer => !s.hasRenderer && !s.skipKickstartBuild
    case NoBuilder => !s.hasBuilder && !s.skipKickstartBuild
    case InvalidOptions => t.form == None
    case NoIP => !SshWait.AnyUsable(t.ips) && !s.skipFinalize
    case _ => false
  }

  lemma {:induction false} AbortsAreMissing(t: Target, s: Settings, changes: seq<Kind>, haveIso: bool)
    requires s.skipKickstartBuild ==> RenderKickstart !in changes && BuildISO !in changes
    ensures forall item :: item in Script(t, s, changes, haveIso) && item.Abort? ==> DeadBranch(item) || ToolMissing(t, s, item.err)
  {
    if changes != [] {
      AbortsAreMissing(t, s, changes[1..], haveIso || changes[0] == BuildISO);
    }
  }

  /** An apply of the plan stops for nothing but a missing tool. */
  lemma PlanAbortsAreMissing(t: Target, s: Settings)
    ensures forall item :: item in Script(t, s, PlanOf(t, s.skipKickstartBuild), false) && item.Abort? ==> ToolMissing(t, s, item.err)
  {
    AbortsAreMissing(t, s, PlanOf(t, s.skipKickstartBuild), false);
    DeadBranchesUnreached(t, s);
  }

  /** For every change list: nothing is asked for that needs what is missing. */
  lemma {:induction false} CallsAreEquipped(t: Target, s: Settings, changes: seq<Kind>, haveIso: bool)
    ensures forall item :: item in Script(t, s, changes, haveIso) && item.Issue? ==> CanIssue(t, s, item.op, haveIso || BuildISO in changes)
  {
    if changes != [] {
      CallsAreEquipped(t, s, changes[1..], haveIso || changes[0] == BuildISO);
    }
  }

  predicate CanIssue(t: Target, s: Settings, op: Op, built: bool) {
    && (if op.Local? then (op.task == Render ==> s.hasRenderer) && (op.task == Build ==> s.hasBuilder) else s.hasClient)
    && (op.Upload? || op.FindVolume? || op.SetKey? ==> t.kickstartStorage != "")
    && (op.Upload? ==> built)
    && (op.Create? ==> t.form == Some(op.form))
  }

  /** A script's error is an abort of the script, or the failure of the very last call in the log. */
  ghost predicate Blamed(items: seq<Item>, outcome: nat -> Outcome, log: seq<Event>, r: (World, seq<Event>, Option<Err>)) {
    r.2.Some? ==>
      || Abort(r.2.value) in items
      || (r.2.value.CallFailed? && |r.1| > |log| && LastCallFailed(r.2.value.op, outcome, r.1, r.0))
  }

  /** The log ends with this call, it was not answered with success, and it left Proxmox as it is. */
  ghost predicate LastCallFailed(op: Op, outcome: nat -> Outcome, log: seq<Event>, w: World) {
    log != [] && log[|log| - 1] == Issued(op) && AnswerFailed(op, outcome(|log| - 1), w)
  }

  ghost predicate AnswerFailed(op: Op, o: Outcome, w: World) { exists before :: CallFails(op, o, before, w) }

  predicate CallFails(op: Op, o: Outcome, before: World, w: World) { Perform(op, o, before) == (w, false) }

  lemma {:induction false} ScriptError(items: seq<Item>, outcome: nat -> Outcome, log: seq<Event>, w: World)
    ensures Blamed(items, outcome, log, RunScript(items, outcome, log, w)) && |RunScript(items, outcome, log, w).1| >= |log|
  {
    if items != [] && items[0].Issue? {
      var op := items[0].op;
      var p := Perform(op, outcome(|log|), w);
      if p.1 {
        ScriptError(items[1..], outcome, log + [Issued(op)], p.0);
      } else {
        assert CallFails(op, outcome(|log|), w, p.0);
      }
    }
  }

  /** When Proxmox can accept a list of calls and every answer is good, the list runs to its end. */
  lemma {:induction false} CallsSucceed(ops: seq<Op>, outcome: nat -> Outcome, log: seq<Event>, w: World)
    requires Run(ops, w).Some? && forall n :: n >= |log| ==> outcome(n) == Done
    ensures RunScript(Calls(ops), outcome, log, w) == (Run(ops, w).value, log + Events(ops), None)
  {
    if ops == [] {
      assert log + Events(ops) == log;
    } else {
      RunCalls(ops, outcome, log, w);
      CallsSucceed(ops[1..], outcome, log + [Issued(ops[0])], Effect(ops[0], w).value);
      assert log + [Issued(ops[0])] + Events(ops[1..]) == log + Events(ops);
    }
  }

  /** Nothing that a planned apply needs is missing. */
  predicate Equipped(t: Target, s: Settings) { s.hasClient && s.hasRenderer && s.hasBuilder && t.form.Some? }

  lemma {:induction false} ScriptIsCalls(t: Target, s: Settings, changes: seq<Kind>, haveIso: bool)
    requires Equipped(t, s) && forall kind :: kind in changes ==> !kind.Other?
    requires forall kind :: kind in changes && kind in {UploadISO, VerifyKickstartISO, AttachKickstartISO} ==> t.kickstartStorage != ""
    requires forall i :: 0 <= i < |changes| && changes[i] == UploadISO ==> haveIso || BuildISO in changes[..i]
    ensures Script(t, s, changes, haveIso) == Calls(OpsList(t, changes))
  {
    if changes != [] {
      assert changes[0] in changes;
      var tail := changes[1..];
      forall i | 0 <= i < |tail| && tail[i] == UploadISO ensures haveIso || changes[0] == BuildISO || BuildISO in tail[..i] {
        assert changes[i + 1] == UploadISO;
        assert changes[..i + 1] == [changes[0]] + tail[..i];
      }
      assert forall kind :: kind in tail ==> kind in changes;
      ScriptIsCalls(t, s, tail, haveIso || changes[0] == BuildISO);
      CallsConcat(OpsOf(t, changes[0]), OpsList(t, tail));
      assert changes[0] == UploadISO ==> BuildISO !in changes[..0];
    }
  }

  /** With nothing missing, a planned apply is its calls and nothing else. */
  lemma PlannedScriptIsCalls(t: Target, s: Settings)
    requires Equipped(t, s)
    ensures Script(t, s, PlanOf(t, s.skipKickstartBuild), false) == Calls(PlanOps(t, s.skipKickstartBuild))
  {
    var plan := PlanOf(t, s.skipKickstartBuild);
    forall i | 0 <= i < |plan| && plan[i] == UploadISO ensures BuildISO in plan[..i] {
      assert plan[..i][1] == BuildISO;
    }
    ScriptIsCalls(t, s, plan, false);
  }

  predicate KickstartAttached(t: Target, w: World) {
    var vm := Slot(w, t.vmid);
    vm.Some? && "ide3" in vm.value.conf && vm.value.conf["ide3"] == CDROM(AttachedVolume(t))
  }

  /** Skip mode: a VM with the kickstart ISO attached has it attached from a volume that was verified present. */
  lemma SkipModeAttachesVerified(t: Target, k: nat, w: World)
    requires t.form.Some? && t.kickstartStorage != "" && Slot(w, t.vmid) == None
    requires CreateAt(t, true) + 2 <= k <= |PlanOps(t, true)| && Run(PlanOps(t, true)[..k], w).Some?
    ensures KickstartAttached(t, Run(PlanOps(t, true)[..k], w).value)
    ensures (t.host, AttachedVolume(t)) in w.volumes
  {
    PlanOpsAre(t, true);
    StageReached(t, true, k, w);
    assert PlanOps(t, true)[..k] == [FindVolume(t.host, AttachedVolume(t))] + PlanOps(t, true)[1..k];
  }

  lemma NamesDiffer(t: Target)
    ensures UploadedVolume(t) != AttachedVolume(t)
  {
    var p := t.kickstartStorage + ":iso/";
    assert |UploadedVolume(t)| == |p| + |t.name| + 12;
    assert |AttachedVolume(t)| == |p| + |t.name| + 14;
  }

  lemma {:induction false} VolumesAfter(t: Target, k: nat, w: World)
    requires t.form.Some? && t.kickstartStorage != "" && k <= |PlanOps(t, false)| && Run(PlanOps(t, false)[..k], w).Some?
    ensures Run(PlanOps(t, false)[..k], w).value.volumes == if k >= 3 then w.volumes[(t.host, UploadedVolume(t)) := t.name] else w.volumes
  {
    PlanOpsAre(t, false);
    if k > 0 {
      var ops := PlanOps(t, false);
      assert ops[..k] == ops[..k - 1] + [ops[k - 1]];
      RunSnoc(ops[..k - 1], ops[k - 1], w);
      VolumesAfter(t, k - 1, w);
    }
  }

  /** Build path: the volume that a completed apply leaves attached exists exactly when it already lay in
      storage before; the ISO the apply itself uploads has another name. */
  lemma BuildPathAttachedIff(t: Target, w: World)
    requires t.form.Some? && t.kickstartStorage != "" && Slot(w, t.vmid) == None && Run(PlanOps(t, false), w).Some?
    ensures KickstartAttached(t, Run(PlanOps(t, false), w).value)
    ensures (t.host, AttachedVolume(t)) in Run(PlanOps(t, false), w).value.volumes <==> (t.host, AttachedVolume(t)) in w.volumes
  {
    var ops := PlanOps(t, false);
    assert ops[..|ops|] == ops;
    PlanOpsAre(t, false);
    StageReached(t, false, |ops|, w);
    VolumesAfter(t, |ops|, w);
    NamesDiffer(t);
  }

  /** From an empty Proxmox the build path completes and attaches a volume that does not exist. */
  lemma BuildPathCounterexample(t: Target)
    requires t.form.Some? && t.kickstartStorage != ""
    ensures var r := Run(PlanOps(t, false), World(map[], map[]));
            r.Some? && KickstartAttached(t, r.value) && (t.host, AttachedVolume(t)) !in r.value.volumes
  {
    var w := World(map[], map[]);
    PlanAccepted(t, |PlanOps(t, false)|, w);
    assert PlanOps(t, false)[..|PlanOps(t, false)|] == PlanOps(t, false);
    BuildPathAttachedIff(t, w);
  }

  /** On the build path Proxmox can accept the whole plan as soon as the VMID is free. */
  lemma {:induction false} PlanAccepted(t: Target, k: nat, w: World)
    requires t.form.Some? && k <= |PlanOps(t, false)| && Slot(w, t.vmid) == None
    ensures Run(PlanOps(t, false)[..k], w).Some?
  {
    if k > 0 {
      PlanOpsAre(t, false);
      var ops := PlanOps(t, false);
      assert ops[..k] == ops[..k - 1] + [ops[k - 1]];
      PlanAccepted(t, k - 1, w);
      StageReached(t, false, k - 1, w);
      RunSnoc(ops[..k - 1], ops[k - 1], w);
    }
  }

  // --- finalize -------------------------------------------------------------------

  function FinalizeOps(host: string, vmid: int): seq<Op> {
    [DropKey(host, vmid, "ide3"), DropKey(host, vmid, "ide2"), SetKey(host, vmid, "boot", "order=" + FINAL_BOOT)]
  }

  function FinalConf(conf: Conf): Conf {
    (conf - {"ide3", "ide2"})["boot" := "order=" + FINAL_BOOT]
  }

  /** The calls of a finalize, one by one. */
  lemma FinalizeSpelledOut(t: Target)
    ensures WaitAndFinalizeOps(t) ==
              [Local(AwaitSSH), DropKey(t.host, t.vmid, "ide3"), DropKey(t.host, t.vmid, "ide2"), SetKey(t.host, t.vmid, "boot", "order=scsi0")]
  {
    assert "order=" + FINAL_BOOT == "order=scsi0";
  }

  /** The configuration that a finalize leaves. */
  lemma FinalConfMeans(conf: Conf)
    ensures "ide2" !in FinalConf(conf) && "ide3" !in FinalConf(conf)
    ensures "boot" in FinalConf(conf) && FinalConf(conf)["boot"] == "order=scsi0"
    ensures FinalConf(conf) - {"boot"} == conf - {"ide2", "ide3", "boot"}
  {
  }

  /** A clean finalize: both drives empty, boot order the disk alone, everything else as it was. */
  lemma FinalizeClean(host: string, vmid: int, w: World)
    requires Has(w, host, vmid)
    ensures Run(FinalizeOps(host, vmid), w) == Some(Put(w, vmid, w.vms[vmid].(conf := FinalConf(w.vms[vmid].conf))))
  {
    FinalizePrefix(host, vmid, 3, w);
    assert FinalizeOps(host, vmid)[..3] == FinalizeOps(host, vmid);
    CutWhole(w.vms[vmid].conf);
  }

  function Put(w: World, vmid: int, vm: VM): World { w.(vms := w.vms[vmid := vm]) }

  function CutConf(conf: Conf, k: nat): Conf {
    if k == 0 then conf
    else if k == 1 then conf - {"ide3"}
    else if k == 2 then conf - {"ide3"} - {"ide2"}
    else (conf - {"ide3"} - {"ide2"})["boot" := "order=" + FINAL_BOOT]
  }

  lemma CutWhole(conf: Conf)
    ensures CutConf(conf, 3) == FinalConf(conf)
  {
    assert conf - {"ide3"} - {"ide2"} == conf - {"ide3", "ide2"};
  }

  lemma {:induction false} FinalizePrefix(host: string, vmid: int, k: nat, w: World)
    requires Has(w, host, vmid) && k <= 3
    ensures Run(FinalizeOps(host, vmid)[..k], w) == Some(Put(w, vmid, w.vms[vmid].(conf := CutConf(w.vms[vmid].conf, k))))
  {
    var ops := FinalizeOps(host, vmid);
    if k == 0 {
      assert Put(w, vmid, w.vms[vmid]) == w;
    } else {
      assert ops[..k] == ops[..k - 1] + [ops[k - 1]];
      FinalizePrefix(host, vmid, k - 1, w);
      RunSnoc(ops[..k - 1], ops[k - 1], w);
      var w' := Run(ops[..k - 1], w).value;
      assert Put(w', vmid, w'.vms[vmid].(conf := CutConf(w.vms[vmid].conf, k))).vms
          == Put(w, vmid, w.vms[vmid].(conf := CutConf(w.vms[vmid].conf, k))).vms;
    }
  }

  /** Interrupted attempts, each cut after some number of its calls, followed by one whole run. */
  function Attempts(host: string, vmid: int, cuts: seq<nat>, w: World): Option<World>
  {
    if cuts == [] then Run(FinalizeOps(host, vmid), w)
    else
      var k := if cuts[0] <= 3 then cuts[0] else 3;
      match Run(FinalizeOps(host, vmid)[..k], w)
      case None => None
      case Some(w') => Attempts(host, vmid, cuts[1..], w')
  }

  lemma FinalAfterCut(conf: Conf, k: nat)
    ensures FinalConf(CutConf(conf, k)) == FinalConf(conf)
  {
    assert FinalConf(CutConf(conf, k)).Keys == FinalConf(conf).Keys;
  }

  lemma PutTwice(w: World, vmid: int, first: VM, second: VM)
    ensures Put(Put(w, vmid, first), vmid, second) == Put(w, vmid, second)
  {
    assert Put(Put(w, vmid, first), vmid, second).vms == Put(w, vmid, second).vms;
  }

  /** Finalize converges: any number of interrupted attempts before it change nothing in the end. */
  lemma {:induction false} FinalizeConverges(host: string, vmid: int, cuts: seq<nat>, w: World)
    requires Has(w, host, vmid)
    ensures Attempts(host, vmid, cuts, w) == Run(FinalizeOps(host, vmid), w)
    decreases |cuts|
  {
    if cuts != [] {
      var k := if cuts[0] <= 3 then cuts[0] else 3;
      FinalizePrefix(host, vmid, k, w);
      var vm := w.vms[vmid];
      var w' := Put(w, vmid, vm.(conf := CutConf(vm.conf, k)));
      FinalizeConverges(host, vmid, cuts[1..], w');
      FinalizeClean(host, vmid, w');
      FinalizeClean(host, vmid, w);
      FinalAfterCut(vm.conf, k);
      PutTwice(w, vmid, vm.(conf := CutConf(vm.conf, k)), vm.(conf := FinalConf(vm.conf)));
    }
  }

  /** The operations touch no VM but this one, so every other VM stays as it was. */
  lemma {:induction false} OthersUntouched(ops: seq<Op>, vmid: int, w: World)
    requires forall k :: 0 <= k < |ops| && ops[k].OnVM() ==> ops[k].vmid == vmid
    requires Run(ops, w).Some?
    ensures forall id :: id != vmid ==> Slot(Run(ops, w).value, id) == Slot(w, id)
  {
    if ops != [] {
      OthersUntouched(ops[1..], vmid, Effect(ops[0], w).value);
    }
  }

  lemma {:induction false} OpsStayOnTarget(t: Target, changes: seq<Kind>)
    ensures forall k :: 0 <= k < |OpsList(t, changes)| ==>
              var op := OpsList(t, changes)[k];
              !op.Delete? && !op.Stop? && !op.Missing? && (op.OnVM() ==> op.vmid == t.vmid)
  {
    if changes != [] {
      OpsStayOnTarget(t, changes[1..]);
    }
  }

  /** Proxmox accepts a whole plan only if the VMID was free. */
  lemma PlanNeedsFreeSlot(t: Target, skipBuild: bool, w: World)
    requires t.form.Some? && Run(PlanOps(t, skipBuild), w).Some?
    ensures Slot(w, t.vmid) == None
  {
    PlanOpsAre(t, skipBuild);
    RunConcat(HeadOps(t, skipBuild), TailOps(t), w);
    HeadTouchesNoVM(t, skipBuild, w);
  }

  lemma HeadTouchesNoVM(t: Target, skipBuild: bool, w: World)
    requires Run(HeadOps(t, skipBuild), w).Some?
    ensures Run(HeadOps(t, skipBuild), w).value.vms == w.vms
  {
    NonVMOps(HeadOps(t, skipBuild), w);
  }

  lemma {:induction false} NonVMOps(ops: seq<Op>, w: World)
    requires Run(ops, w).Some? && forall k :: 0 <= k < |ops| ==> !ops[k].OnVM()
    ensures Run(ops, w).value.vms == w.vms
  {
    if ops != [] {
      NonVMOps(ops[1..], Effect(ops[0], w).value);
    }
  }

  /** A failed apply is not unwound: the VM is there exactly when its creation took effect. */
  lemma FailedApplyKeepsVM(t: Target, s: Settings, outcome: nat -> Outcome, log: seq<Event>, w: World) returns (k: nat)
    requires t.form.Some? && Slot(w, t.vmid) == None
    ensures var r := RunScript(Script(t, s, PlanOf(t, s.skipKickstartBuild), false), outcome, log, w);
            && k <= |PlanOps(t, s.skipKickstartBuild)|
            && Run(PlanOps(t, s.skipKickstartBuild)[..k], w) == Some(r.0)
            && (Slot(r.0, t.vmid).Some? <==> k > CreateAt(t, s.skipKickstartBuild))
  {
    var m;
    m, k := ApplyIsPrefix(t, s, PlanOf(t, s.skipKickstartBuild), outcome, log, w);
    StageReached(t, s.skipKickstartBuild, k, w);
  }

  function FinalizeScript(t: Target, s: Settings): seq<Item> {
    if !s.hasClient then [Abort(NoClient)]
    else if !SshWait.AnyUsable(t.ips) then [Abort(NoIP)]
    else [Issue(Local(AwaitSSH))] + Calls(FinalizeOps(t.host, t.vmid))
  }

  lemma FinalizeRuns(t: Target, s: Settings, outcome: nat -> Outcome, log: seq<Event>, w: World)
    ensures RunScript(FinalizeScript(t, s), outcome, log, w) ==
            if !s.hasClient then (w, log, Some(NoClient))
            else if !SshWait.AnyUsable(t.ips) then (w, log, Some(NoIP))
            else
              var r := Perform(Local(AwaitSSH), outcome(|log|), w);
              if r.1 then RunScript(Calls(FinalizeOps(t.host, t.vmid)), outcome, log + [Issued(Local(AwaitSSH))], r.0)
              else (r.0, log + [Issued(Local(AwaitSSH))], Some(CallFailed(Local(AwaitSSH))))
  {
    if s.hasClient && SshWait.AnyUsable(t.ips) {
      assert FinalizeScript(t, s)[1..] == Calls(FinalizeOps(t.host, t.vmid));
    }
  }

  /** The calls of a finalize that nothing stops. */
  function WaitAndFinalizeOps(t: Target): seq<Op> { [Local(AwaitSSH)] + FinalizeOps(t.host, t.vmid) }

  lemma FinalizeIsPrefix(t: Target, s: Settings, outcome: nat -> Outcome, log: seq<Event>, w: World) returns (m: nat, k: nat)
    ensures Came(WaitAndFinalizeOps(t), log, w, RunScript(FinalizeScript(t, s), outcome, log, w), m, k)
  {
    var ops := WaitAndFinalizeOps(t);
    if s.hasClient && SshWait.AnyUsable(t.ips) {
      assert FinalizeScript(t, s) == Calls(ops);
      m, k := EffectOfPrefix(ops, outcome, log, w);
    } else {
      m, k := 0, 0;
      assert ops[..0] == [] && log + Events([]) == log;
    }
  }

  /** What a finalize does to its VM: some of the three changes to the configuration, all of them when nil is
      returned, and nothing else; without the VM it fails. */
  ghost predicate VMFinalized(t: Target, before: Option<VM>, after: Option<VM>, err: Option<Err>) {
    if before.Some? && before.value.host == t.host then
      exists j: nat :: j <= 3 && (err == None ==> j == 3) && after == Some(before.value.(conf := CutConf(before.value.conf, j)))
    else err.Some? && after == before
  }

  /** What a finalize does to Proxmox: nothing to other VMs and volumes. */
  ghost predicate FinalizedBy(t: Target, before: World, after: World, err: Option<Err>) {
    && after.volumes == before.volumes
    && (forall id :: id != t.vmid ==> Slot(after, id) == Slot(before, id))
    && VMFinalized(t, Slot(before, t.vmid), Slot(after, t.vmid), err)
  }

  lemma FinalizeEffect(t: Target, s: Settings, outcome: nat -> Outcome, log: seq<Event>, w: World)
    ensures var r := RunScript(FinalizeScript(t, s), outcome, log, w); FinalizedBy(t, w, r.0, r.2)
  {
    var r := RunScript(FinalizeScript(t, s), outcome, log, w);
    var m, k := FinalizeIsPrefix(t, s, outcome, log, w);
    FinalizePrefixEffect(t, k, w);
    if Has(w, t.host, t.vmid) {
      var j := if k == 0 then 0 else k - 1;
      assert Slot(r.0, t.vmid) == Some(w.vms[t.vmid].(conf := CutConf(w.vms[t.vmid].conf, j)));
    }
  }

  lemma FinalizePrefixEffect(t: Target, k: nat, w: World)
    requires k <= 4 && Run(WaitAndFinalizeOps(t)[..k], w).Some?
    ensures var w' := Run(WaitAndFinalizeOps(t)[..k], w).value;
            if Has(w, t.host, t.vmid) then
              w' == (if k == 0 then w else Put(w, t.vmid, w.vms[t.vmid].(conf := CutConf(w.vms[t.vmid].conf, k - 1))))
            else k <= 1 && w' == w
  {
    var ops := FinalizeOps(t.host, t.vmid);
    if k > 0 {
      assert WaitAndFinalizeOps(t)[..k] == [Local(AwaitSSH)] + ops[..k - 1];
      assert WaitAndFinalizeOps(t)[..k][1..] == ops[..k - 1];
      if Has(w, t.host, t.vmid) {
        FinalizePrefix(t.host, t.vmid, k - 1, w);
      } else if k > 1 {
        AbsentRejects(ops[..k - 1], w);
      }
    }
  }

  lemma AbsentRejects(ops: seq<Op>, w: World)
    requires ops != [] && ops[0].DropKey? && !Has(w, ops[0].host, ops[0].vmid)
    ensures Run(ops, w) == None
  {
  }

  /** Both drives empty and the disk alone in the boot order. */
  predicate Finalized(w: World, host: string, vmid: int) {
    && Has(w, host, vmid)
    && var conf := w.vms[vmid].conf;
       "ide2" !in conf && "ide3" !in conf && "boot" in conf && conf["boot"] == "order=scsi0"
  }

  /** Nothing changed but this VM, and that one did at most stop or disappear. */
  predicate Dwindled(before: World, after: World, vmid: int) {
    && before.vms - {vmid} == after.vms - {vmid}
    && before.volumes == after.volumes
    && (vmid in after.vms ==> vmid in before.vms && after.vms[vmid].host == before.vms[vmid].host)
  }

  /** Everything a whole `Up` may issue, in order. */
  function UpOps(t: Target, s: Settings): seq<Op> {
    PlanOps(t, s.skipKickstartBuild) + (if s.skipFinalize then [] else WaitAndFinalizeOps(t))
  }

  /** Of the operations `ops` the first `m` were issued, and nothing else was, since the operations issued were
      `before`; Proxmox went where the first `k` take it. */
  predicate Advanced(ops: seq<Op>, before: seq<Op>, w: World, after: seq<Op>, w': World, m: nat, k: nat) {
    k <= m <= |ops| && m <= k + 1 && after == before + ops[..m] && Run(ops[..k], w) == Some(w')
  }

  lemma CameAdvances(ops: seq<Op>, log: seq<Event>, w: World, r: (World, seq<Event>, Option<Err>), m: nat, k: nat)
    requires Came(ops, log, w, r, m, k)
    ensures Advanced(ops, IssuedOps(log), w, IssuedOps(r.1), r.0, m, k)
  {
    IssuedConcat(log, Events(ops[..m]));
    IssuedEvents(ops[..m]);
  }

  lemma FinalizeIssues(t: Target, s: Settings, outcome: nat -> Outcome, log: seq<Event>, w: World) returns (m: nat, k: nat)
    ensures var r := RunScript(FinalizeScript(t, s), outcome, log, w);
            && Advanced(WaitAndFinalizeOps(t), IssuedOps(log), w, IssuedOps(r.1), r.0, m, k)
            && (r.2 == None ==> k == |WaitAndFinalizeOps(t)|)
  {
    m, k := FinalizeIsPrefix(t, s, outcome, log, w);
    CameAdvances(WaitAndFinalizeOps(t), log, w, RunScript(FinalizeScript(t, s), outcome, log, w), m, k);
  }

  lemma ReadIssuesNothing(log: seq<Event>, host: string, vmid: int)
    ensures IssuedOps(log + [Read(host, vmid)]) == IssuedOps(log)
  {
    IssuedConcat(log, [Read(host, vmid)]);
    assert [Read(host, vmid)][1..] == [];
  }

  lemma AdvancedFirst(a: seq<Op>, b: seq<Op>, before: seq<Op>, w: World, after: seq<Op>, w': World, m: nat, k: nat)
    requires Advanced(a, before, w, after, w', m, k)
    ensures Advanced(a + b, before, w, after, w', m, k)
  {
    assert (a + b)[..m] == a[..m] && (a + b)[..k] == a[..k];
  }

  lemma AdvancedBoth(a: seq<Op>, b: seq<Op>, before: seq<Op>, w: World, mid: seq<Op>, w1: World, after: seq<Op>, w': World, m: nat, k: nat)
    requires Advanced(a, before, w, mid, w1, |a|, |a|) && Advanced(b, mid, w1, after, w', m, k)
    ensures Advanced(a + b, before, w, after, w', |a| + m, |a| + k)
  {
    assert a[..|a|] == a;
    assert (a + b)[..|a| + m] == a + b[..m] && (a + b)[..|a| + k] == a + b[..k];
    assert before + a + b[..m] == before + (a + b[..m]);
    RunConcat(a, b[..k], w);
  }

  /** However far an `Up` came, the VM is there exactly when its creation took effect. */
  lemma FailedUpKeepsVM(t: Target, s: Settings, k: nat, w: World)
    requires t.form.Some? && Slot(w, t.vmid) == None && k <= |UpOps(t, s)| && Run(UpOps(t, s)[..k], w).Some?
    ensures Slot(Run(UpOps(t, s)[..k], w).value, t.vmid).Some? <==> k > CreateAt(t, s.skipKickstartBuild)
  {
    var plan, skip := PlanOps(t, s.skipKickstartBuild), s.skipKickstartBuild;
    PlanOpsAre(t, skip);
    if k <= |plan| {
      assert UpOps(t, s)[..k] == plan[..k];
      StageReached(t, skip, k, w);
    } else {
      assert UpOps(t, s)[..k] == plan + WaitAndFinalizeOps(t)[..k - |plan|];
      KeptAfterPlan(t, skip, WaitAndFinalizeOps(t)[..k - |plan|], w);
    }
  }

  lemma KeptAfterPlan(t: Target, skipBuild: bool, more: seq<Op>, w: World)
    requires t.form.Some? && Slot(w, t.vmid) == None && Run(PlanOps(t, skipBuild) + more, w).Some?
    requires forall i :: 0 <= i < |more| ==> !more[i].Delete?
    ensures Slot(Run(PlanOps(t, skipBuild) + more, w).value, t.vmid).Some? && |PlanOps(t, skipBuild)| > CreateAt(t, skipBuild)
  {
    var plan := PlanOps(t, skipBuild);
    PlanOpsAre(t, skipBuild);
    assert plan[..|plan|] == plan;
    RunConcat(plan, more, w);
    StageReached(t, skipBuild, |plan|, w);
    NothingDeleted(more, t.vmid, Run(plan, w).value);
  }

  /** What an `Up` means for the VMs: no other VM is touched, one that was there is not removed, and nil means that
      the VM was created here, runs from its form and, unless that is skipped, is finalized. */
  predicate Upped(t: Target, s: Settings, w: World, w': World, isNil: bool) {
    && (forall id :: id in w.vms.Keys + w'.vms.Keys && id != t.vmid ==> Slot(w', id) == Slot(w, id))
    && (Slot(w, t.vmid).Some? ==> Slot(w', t.vmid).Some?)
    && (isNil ==>
          && t.form.Some? && Slot(w, t.vmid) == None
          && (var conf := ConfAt(t, s.skipKickstartBuild, |PlanOps(t, s.skipKickstartBuild)|);
              Slot(w', t.vmid) == Some(VM(t.host, true, if s.skipFinalize then conf else FinalConf(conf))))
          && (s.skipFinalize || Finalized(w', t.host, t.vmid)))
  }

  lemma UpOpsHarmless(t: Target, s: Settings)
    ensures forall i :: 0 <= i < |UpOps(t, s)| ==>
              var op := UpOps(t, s)[i];
              !op.Delete? && !op.Stop? && !op.Missing? && (op.OnVM() ==> op.vmid == t.vmid)
  {
    OpsStayOnTarget(t, PlanOf(t, s.skipKickstartBuild));
  }

  lemma UpComplete(t: Target, s: Settings, w: World)
    requires t.form.Some? && Run(UpOps(t, s), w).Some?
    ensures Slot(w, t.vmid) == None
    ensures var conf := ConfAt(t, s.skipKickstartBuild, |PlanOps(t, s.skipKickstartBuild)|);
            Slot(Run(UpOps(t, s), w).value, t.vmid) == Some(VM(t.host, true, if s.skipFinalize then conf else FinalConf(conf)))
  {
    var plan, skip := PlanOps(t, s.skipKickstartBuild), s.skipKickstartBuild;
    var rest := if s.skipFinalize then [] else WaitAndFinalizeOps(t);
    RunConcat(plan, rest, w);
    PlanNeedsFreeSlot(t, skip, w);
    PlanOpsAre(t, skip);
    assert plan[..|plan|] == plan;
    StageReached(t, skip, |plan|, w);
    if !s.skipFinalize {
      assert rest[..4] == rest;
      FinalizePrefixEffect(t, 4, Run(plan, w).value);
      CutWhole(ConfAt(t, skip, |plan|));
    }
  }

  lemma NotStarted(t: Target, s: Settings, issued: seq<Op>, w: World)
    ensures Advanced(UpOps(t, s), issued, w, issued, w, 0, 0) && Upped(t, s, w, w, false)
  {
    assert UpOps(t, s)[..0] == [] && issued + [] == issued;
  }

  lemma UpOutcome(t: Target, s: Settings, k: nat, w: World, w': World, isNil: bool)
    requires k <= |UpOps(t, s)| && Run(UpOps(t, s)[..k], w) == Some(w') && (isNil ==> k == |UpOps(t, s)| && t.form.Some?)
    ensures Upped(t, s, w, w', isNil)
  {
    UpOpsHarmless(t, s);
    OthersUntouched(UpOps(t, s)[..k], t.vmid, w);
    NothingDeleted(UpOps(t, s)[..k], t.vmid, w);
    if isNil {
      assert UpOps(t, s)[..k] == UpOps(t, s);
      UpComplete(t, s, w);
    }
  }

  function LookFor(t: Target, hasClient: bool): seq<Event> { if hasClient then [Read(t.host, t.vmid)] else [] }

  /** Planning stops at this node: its VM could not be looked for, or is there. */
  predicate Stops(t: Target, hasClient: bool, o: Outcome, w: World) { hasClient && (o != Done || Has(w, t.host, t.vmid)) }

  /** Why an `Up` fails: planning stopped, a tool or an address is missing, or the last call in the log failed. A warning of
      `Verify` is no reason. */
  ghost predicate UpBlames(t: Target, s: Settings, outcome: nat -> Outcome, log0: seq<Event>, w0: World, log: seq<Event>, w: World, e: Err) {
    || (e in {ReadFailed, AlreadyExists} && Stops(t, s.hasClient, outcome(|log0|), w0) && log == log0 + LookFor(t, s.hasClient) && w == w0)
    || ToolMissing(t, s, e)
    || (e.CallFailed? && |log| > |log0| && LastCallFailed(e.op, outcome, log, w))
  }

  /** Nothing is missing, Proxmox can accept all the calls, and every answer is good. */
  ghost predicate UpCanSucceed(t: Target, s: Settings, outcome: nat -> Outcome, log: seq<Event>, w: World) {
    && Equipped(t, s) && (s.skipFinalize || SshWait.AnyUsable(t.ips))
    && Run(UpOps(t, s), w).Some? && forall n :: n >= |log| ==> outcome(n) == Done
  }

  lemma ApplyBlames(t: Target, s: Settings, outcome: nat -> Outcome, log0: seq<Event>, w0: World, log1: seq<Event>,
                    r: (World, seq<Event>, Option<Err>))
    requires |log1| >= |log0| && r == RunScript(Script(t, s, PlanOf(t, s.skipKickstartBuild), false), outcome, log1, w0)
    ensures |r.1| >= |log1|
    ensures r.2.Some? ==> UpBlames(t, s, outcome, log0, w0, r.1, r.0, r.2.value)
  {
    PlanAbortsAreMissing(t, s);
    ScriptError(Script(t, s, PlanOf(t, s.skipKickstartBuild), false), outcome, log1, w0);
  }

  lemma FinalizeBlames(t: Target, s: Settings, outcome: nat -> Outcome, log0: seq<Event>, w0: World, log1: seq<Event>, w1: World,
                       r: (World, seq<Event>, Option<Err>))
    requires |log1| >= |log0| && !s.skipFinalize && r == RunScript(FinalizeScript(t, s), outcome, log1, w1)
    ensures r.2.Some? ==> UpBlames(t, s, outcome, log0, w0, r.1, r.0, r.2.value)
  {
    ScriptError(FinalizeScript(t, s), outcome, log1, w1);
  }

  /** Without an error, what was logged are all the calls. */
  lemma WholeApplyLog(t: Target, s: Settings, outcome: nat -> Outcome, log: seq<Event>, w: World, r: (World, seq<Event>, Option<Err>))
    requires r == RunScript(Script(t, s, PlanOf(t, s.skipKickstartBuild), false), outcome, log, w) && r.2 == None
    ensures r.1 == log + Events(PlanOps(t, s.skipKickstartBuild))
  {
    var ops := PlanOps(t, s.skipKickstartBuild);
    var m, k := ApplyIsPrefix(t, s, PlanOf(t, s.skipKickstartBuild), outcome, log, w);
    assert ops[..|ops|] == ops;
  }

  lemma WholeFinalizeLog(t: Target, s: Settings, outcome: nat -> Outcome, log: seq<Event>, w: World, r: (World, seq<Event>, Option<Err>))
    requires r == RunScript(FinalizeScript(t, s), outcome, log, w) && r.2 == None
    ensures r.1 == log + Events(WaitAndFinalizeOps(t))
  {
    var ops := WaitAndFinalizeOps(t);
    var m, k := FinalizeIsPrefix(t, s, outcome, log, w);
    assert ops[..|ops|] == ops;
  }

  /** Then planning passes and the plan is applied whole. */
  lemma ApplySucceeds(t: Target, s: Settings, outcome: nat -> Outcome, log: seq<Event>, log1: seq<Event>, w: World,
                      r: (World, seq<Event>, Option<Err>))
    requires UpCanSucceed(t, s, outcome, log, w) && |log1| >= |log|
    requires r == RunScript(Script(t, s, PlanOf(t, s.skipKickstartBuild), false), outcome, log1, w)
    ensures r.2 == None
  {
    var plan := PlanOps(t, s.skipKickstartBuild);
    RunConcat(plan, if s.skipFinalize then [] else WaitAndFinalizeOps(t), w);
    PlannedScriptIsCalls(t, s);
    CallsSucceed(plan, outcome, log1, w);
  }

  lemma PlanningPasses(t: Target, s: Settings, outcome: nat -> Outcome, log: seq<Event>, w: World)
    requires UpCanSucceed(t, s, outcome, log, w)
    ensures !Stops(t, s.hasClient, outcome(|log|), w)
  {
    RunConcat(PlanOps(t, s.skipKickstartBuild), if s.skipFinalize then [] else WaitAndFinalizeOps(t), w);
    PlanNeedsFreeSlot(t, s.skipKickstartBuild, w);
  }

  lemma FinalizeSucceeds(t: Target, s: Settings, outcome: nat -> Outcome, log: seq<Event>, w: World, log1: seq<Event>, w1: World,
                         r: (World, seq<Event>, Option<Err>))
    requires UpCanSucceed(t, s, outcome, log, w) && !s.skipFinalize && |log1| >= |log|
    requires Run(PlanOps(t, s.skipKickstartBuild), w) == Some(w1)
    requires r == RunScript(FinalizeScript(t, s), outcome, log1, w1)
    ensures r.2 == None
  {
    RunConcat(PlanOps(t, s.skipKickstartBuild), WaitAndFinalizeOps(t), w);
    assert FinalizeScript(t, s) == Calls(WaitAndFinalizeOps(t));
    CallsSucceed(WaitAndFinalizeOps(t), outcome, log1, w1);
  }

  class Mutex {
    constructor () {}
  }

  class SingleVMWorkflow {
    const target: Option<Target>
    const settings: Settings
    const env: Environment
    /** All nodes' workflows are given the same one; it is locked around `UploadISO` only, which is what
        `FanOut.State.holder` records. */
    const uploadMu: Mutex?

    constructor (target: Option<Target>, settings: Settings, env: Environment, uploadMu: Mutex?)
      ensures this.target == target && this.settings == settings && this.env == env && this.uploadMu == uploadMu
    {
      this.target, this.settings, this.env, this.uploadMu := target, settings, env, uploadMu;
    }

    /** The one read that planning and verifying make. */
    function Look(): seq<Event> { if target.Some? then LookFor(target.value, settings.hasClient) else [] }

    lemma LookIssuesNothing(log: seq<Event>)
      ensures IssuedOps(log + Look()) == IssuedOps(log)
    {
      if target.Some? && settings.hasClient {
        ReadIssuesNothing(log, target.value.host, target.value.vmid);
      } else {
        assert log + Look() == log;
      }
    }

    method Plan() returns (err: Option<Err>, changes: seq<Kind>)
      modifies env
      ensures env.log == old(env.log) + Look()
      ensures env.world == old(env.world)
      ensures target == None ==> err == Some(NotResolved)
      ensures target.Some? && err == None ==>
                && changes == PlanOf(target.value, settings.skipKickstartBuild)
                && (settings.hasClient ==> !Has(env.world, target.value.host, target.value.vmid))
      ensures target.Some? ==> (err.Some? <==> Stops(target.value, settings.hasClient, env.outcome(|old(env.log)|), env.world))
      ensures target.Some? && err.Some? ==> err.value == if env.outcome(|old(env.log)|) == Done then AlreadyExists else ReadFailed
    {
      changes := [];
      if target == None {
        return Some(NotResolved), changes;
      }
      var t := target.value;
      if settings.hasClient {
        var found := env.VMExists(t.host, t.vmid);
        if found == None {
          return Some(ReadFailed), changes;
        }
        if found.value {
          return Some(AlreadyExists), changes;
        }
      }
      if !settings.skipKickstartBuild {
        changes := changes + [RenderKickstart, BuildISO];
        if t.kickstartStorage != "" {
          changes := changes + [UploadISO];
        }
      } else if t.kickstartStorage != "" {
        changes := changes + [VerifyKickstartISO];
      }
      changes := changes + [CreateVM];
      if t.kickstartStorage != "" {
        changes := changes + [AttachKickstartISO];
      }
      changes := changes + [StartVM];
      return None, changes;
    }

    /** One change of `Apply`. */
    method ApplyOne(kind: Kind, haveIso: bool) returns (err: Option<Err>)
      requires target.Some?
      modifies env
      ensures (env.world, env.log, err) ==
              RunScript(Items(target.value, settings, kind, haveIso), env.outcome, old(env.log), old(env.world))
    {
      var t := target.value;
      match kind {
        case RenderKickstart =>
          if !settings.hasRenderer { return Some(NoRenderer); }
          err := Issue1(Local(Render));
        case BuildISO =>
          if !settings.hasBuilder { return Some(NoBuilder); }
          err := Issue1(Local(Build));
        case UploadISO =>
          if !settings.hasClient { return Some(NoClient); }
          if t.kickstartStorage == "" { return Some(StorageNotConfigured); }
          if !haveIso { return Some(IsoPathEmpty); }
          err := Issue1(Upload(t.host, UploadedVolume(t), t.name));
        case VerifyKickstartISO =>
          if !settings.hasClient { return Some(NoClient); }
          if t.kickstartStorage == "" { return Some(StorageNotConfigured); }
          err := Issue1(FindVolume(t.host, AttachedVolume(t)));
        case CreateVM =>
          if !settings.hasClient { return Some(NoClient); }
          if t.form == None { return Some(InvalidOptions); }
          err := Issue1(Create(t.host, t.vmid, t.form.value));
        case AttachKickstartISO =>
          if !settings.hasClient { return Some(NoClient); }
          if t.kickstartStorage == "" { return Some(StorageNotConfigured); }
          err := Attach(t);
        case StartVM =>
          if !settings.hasClient { return Some(NoClient); }
          err := Issue1(Start(t.host, t.vmid));
        case Other(name) =>
          err := Some(UnknownKind(name));
      }
    }

    method Attach(t: Target) returns (err: Option<Err>)
      modifies env
      ensures (env.world, env.log, err) == RunScript(Calls(OpsOf(t, AttachKickstartISO)), env.outcome, old(env.log), old(env.world))
    {
      err := env.AttachISOAsCDROM(t.host, t.vmid, "ide3", AttachedVolume(t));
      var first := Issue(SetKey(t.host, t.vmid, "ide3", CDROM(AttachedVolume(t))));
      var second := Issue(SetKey(t.host, t.vmid, "boot", "order=" + INSTALL_BOOT));
      assert Calls(OpsOf(t, AttachKickstartISO)) == [first, second] == [first] + [second];
      RunScriptConcat([first], [second], env.outcome, old(env.log), old(env.world));
      if err == None {
        err := env.SetBootOrder(t.host, t.vmid, INSTALL_BOOT);
      }
    }

    method Issue1(op: Op) returns (err: Option<Err>)
      modifies env
      ensures (env.world, env.log, err) == RunScript(Calls([op]), env.outcome, old(env.log), old(env.world))
    {
      assert Calls([op]) == [Issue(op)];
      var ok := env.Call(op);
      err := if ok then None else Some(CallFailed(op));
    }

    /** The changes in order, until one fails. */
    method Apply(changes: seq<Kind>) returns (err: Option<Err>)
      modifies env
      ensures target == None ==> err == Some(NotResolved) && unchanged(env)
      ensures target.Some? && settings.dryRun ==> err == None && unchanged(env)
      ensures target.Some? && !settings.dryRun ==>
                (env.world, env.log, err) ==
                RunScript(Script(target.value, settings, changes, false), env.outcome, old(env.log), old(env.world))
    {
      if target == None {
        return Some(NotResolved);
      }
      var t, haveIso := target.value, false;
      for i := 0 to |changes|
        invariant settings.dryRun ==> unchanged(env)
        invariant !settings.dryRun ==>
                    RunScript(Script(t, settings, changes, false), env.outcome, old(env.log), old(env.world)) ==
                    RunScript(Script(t, settings, changes[i..], haveIso), env.outcome, env.log, env.world)
      {
        if settings.dryRun {
          continue;
        }
        RunScriptConcat(Items(t, settings, changes[i], haveIso),
                        Script(t, settings, changes[i + 1..], haveIso || changes[i] == BuildISO), env.outcome, env.log, env.world);
        assert changes[i..][1..] == changes[i + 1..];
        err := ApplyOne(changes[i], haveIso);
        if err.Some? {
          return;
        }
        haveIso := haveIso || changes[i] == BuildISO;
      }
      return None;
    }

    /** Is the VM there and running? Reads only. */
    method Verify() returns (err: Option<Err>)
      modifies env`log
      ensures env.log == old(env.log) + Look()
      ensures err == None <==>
                && target.Some? && settings.hasClient && env.outcome(|old(env.log)|) == Done
                && Has(env.world, target.value.host, target.value.vmid) && env.world.vms[target.value.vmid].running
    {
      if target == None {
        return Some(NotResolved);
      }
      if !settings.hasClient {
        return Some(NoClient);
      }
      var t := target.value;
      var found := env.VMExists(t.host, t.vmid);
      if found != Some(true) {
        return Some(ReadFailed);
      }
      return if env.world.vms[t.vmid].running then None else Some(NotRunning);
    }

    /** An address to wait for, if the node has any. */
    method ProbeAddress(ips: map<string, string>) returns (ip: string)
      ensures ip == "" <==> !SshWait.AnyUsable(ips)
    {
      var slot;
      ip, slot := SshWait.PickFinalizeIP(ips);
    }

    /** Wait for SSH, then detach both ISOs and reset the boot order. */
    method Finalize() returns (err: Option<Err>)
      modifies env
      ensures target == None ==> err == Some(NotResolved) && unchanged(env)
      ensures target.Some? ==>
                (env.world, env.log, err) ==
                RunScript(FinalizeScript(target.value, settings), env.outcome, old(env.log), old(env.world))
    {
      if target == None {
        return Some(NotResolved);
      }
      var t := target.value;
      FinalizeRuns(t, settings, env.outcome, env.log, env.world);
      if !settings.hasClient {
        return Some(NoClient);
      }
      var ip := ProbeAddress(t.ips);
      if ip == "" {
        return Some(NoIP);
      }
      var ok := env.Call(Local(AwaitSSH));
      if !ok {
        return Some(CallFailed(Local(AwaitSSH)));
      }
      err := FinalizeSingle(t.host, t.vmid);
    }

    /** Empty ide3, then ide2, then make the disk the only boot device. */
    method FinalizeSingle(host: string, vmid: int) returns (err: Option<Err>)
      modifies env
      ensures (env.world, env.log, err) ==
              RunScript(Calls(FinalizeOps(host, vmid)), env.outcome, old(env.log), old(env.world))
    {
      ghost var ops := FinalizeOps(host, vmid);
      RunCalls(ops, env.outcome, env.log, env.world);
      err := env.EjectISO(host, vmid, "ide3");
      if err.Some? {
        return;
      }
      RunCalls(ops[1..], env.outcome, env.log, env.world);
      err := env.EjectISO(host, vmid, "ide2");
      if err.Some? {
        return;
      }
      assert ops[1..][1..] == [ops[2]] && Calls([ops[2]]) == [Issue(ops[2])];
      err := env.SetBootOrder(host, vmid, FINAL_BOOT);
    }

    /** Plan, apply, verify, finalize. Nothing is ever rolled back: on success and on every error, what was issued is a
        prefix of the plan's operations and the finalize's, and Proxmox has gone no further than along that prefix. */
    method Up() returns (err: Option<Err>, ghost m: nat, ghost k: nat)
      modifies env
      ensures target.Some? && !settings.dryRun ==>
                && Advanced(UpOps(target.value, settings), IssuedOps(old(env.log)), old(env.world), IssuedOps(env.log), env.world, m, k)
                && (err == None ==> k == |UpOps(target.value, settings)|)
                && Upped(target.value, settings, old(env.world), env.world, err == None)
      ensures target == None || settings.dryRun ==> IssuedOps(env.log) == IssuedOps(old(env.log)) && env.world == old(env.world)
      ensures target == None ==> err == Some(NotResolved)
      ensures target.Some? && settings.dryRun ==>
                (err == None <==> !Stops(target.value, settings.hasClient, env.outcome(|old(env.log)|), old(env.world)))
      ensures target.Some? && err.Some? ==>
                UpBlames(target.value, settings, env.outcome, old(env.log), old(env.world), env.log, env.world, err.value)
      ensures target.Some? && err == None && settings.dryRun ==> env.log == old(env.log) + Look() + Look()
      ensures target.Some? && err == None && !settings.dryRun ==>
                env.log == old(env.log) + Look() + Events(PlanOps(target.value, settings.skipKickstartBuild)) + Look()
                           + (if settings.skipFinalize then [] else Events(WaitAndFinalizeOps(target.value)))
      ensures target.Some? && !settings.dryRun && UpCanSucceed(target.value, settings, env.outcome, old(env.log), old(env.world)) ==> err == None
    {
      ghost var issued0, w0, start := IssuedOps(env.log), env.world, env.log;
      m, k := 0, 0;
      var changes;
      LookIssuesNothing(env.log);
      if target.Some? && UpCanSucceed(target.value, settings, env.outcome, start, w0) {
        PlanningPasses(target.value, settings, env.outcome, start, w0);
      }
      err, changes := Plan();
      if err.Some? {
        if target.Some? { NotStarted(target.value, settings, issued0, w0); }
        return;
      }
      ghost var log0 := env.log;
      err := Apply(changes);
      if settings.dryRun {
        LookIssuesNothing(env.log);
        var warning := Verify();
        return;
      }
      m, k := ApplyAdvances(log0, w0, err);
      ApplyBlames(target.value, settings, env.outcome, start, w0, log0, (env.world, env.log, err));
      if err == None { WholeApplyLog(target.value, settings, env.outcome, log0, w0, (env.world, env.log, err)); }
      if UpCanSucceed(target.value, settings, env.outcome, start, w0) {
        ApplySucceeds(target.value, settings, env.outcome, start, log0, w0, (env.world, env.log, err));
      }
      if err == None {
        LookIssuesNothing(env.log);
        var warning := Verify();
        if !settings.skipFinalize {
          ghost var log1, w1 := env.log, env.world;
          err := Finalize();
          FinalizeBlames(target.value, settings, env.outcome, start, w0, log1, w1, (env.world, env.log, err));
          if err == None { WholeFinalizeLog(target.value, settings, env.outcome, log1, w1, (env.world, env.log, err)); }
          if UpCanSucceed(target.value, settings, env.outcome, start, w0) {
            assert PlanOps(target.value, settings.skipKickstartBuild)[..k] == PlanOps(target.value, settings.skipKickstartBuild);
            FinalizeSucceeds(target.value, settings, env.outcome, start, w0, log1, w1, (env.world, env.log, err));
          }
          m, k := FinalizeAdvances(issued0, w0, log1, w1, err);
        }
      }
      UpOutcome(target.value, settings, k, w0, env.world, err == None);
    }

    /** How far `Apply` of the plan brings an `Up`. */
    lemma ApplyAdvances(log0: seq<Event>, w0: World, err: Option<Err>) returns (m: nat, k: nat)
      requires target.Some?
      requires (env.world, env.log, err) ==
               RunScript(Script(target.value, settings, PlanOf(target.value, settings.skipKickstartBuild), false), env.outcome, log0, w0)
      ensures Advanced(UpOps(target.value, settings), IssuedOps(log0), w0, IssuedOps(env.log), env.world, m, k)
      ensures err == None ==>
                && target.value.form.Some? && m == k == |PlanOps(target.value, settings.skipKickstartBuild)|
                && Advanced(PlanOps(target.value, settings.skipKickstartBuild), IssuedOps(log0), w0, IssuedOps(env.log), env.world, m, k)
    {
      var t, skip := target.value, settings.skipKickstartBuild;
      var ops := PlanOps(t, skip);
      m, k := ApplyIsPrefix(t, settings, PlanOf(t, skip), env.outcome, log0, w0);
      CameAdvances(ops, log0, w0, (env.world, env.log, err), m, k);
      AdvancedFirst(ops, if settings.skipFinalize then [] else WaitAndFinalizeOps(t), IssuedOps(log0), w0, IssuedOps(env.log), env.world, m, k);
      if err == None {
        CreateNeedsForm(t, settings, PlanOf(t, skip), false, env.outcome, log0, w0);
      }
    }

    /** How far `Finalize` brings an `Up` whose plan was applied. */
    lemma FinalizeAdvances(issued0: seq<Op>, w0: World, log1: seq<Event>, w1: World, err: Option<Err>) returns (m: nat, k: nat)
      requires target.Some? && !settings.skipFinalize
      requires (env.world, env.log, err) == RunScript(FinalizeScript(target.value, settings), env.outcome, log1, w1)
      requires var plan := PlanOps(target.value, settings.skipKickstartBuild);
               Advanced(plan, issued0, w0, IssuedOps(log1), w1, |plan|, |plan|)
      ensures Advanced(UpOps(target.value, settings), issued0, w0, IssuedOps(env.log), env.world, m, k)
      ensures err == None ==> k == |UpOps(target.value, settings)|
    {
      var t := target.value;
      var plan, rest := PlanOps(t, settings.skipKickstartBuild), WaitAndFinalizeOps(t);
      var m1, k1 := FinalizeIssues(t, settings, env.outcome, log1, w1);
      AdvancedBoth(plan, rest, issued0, w0, IssuedOps(log1), w1, IssuedOps(env.log), env.world, m1, k1);
      m, k := |plan| + m1, |plan| + k1;
    }

    /** Look for the VM; if it is there stop it (ignoring the answer) and delete it. */
    method Destroy(force: bool) returns (err: Option<Err>)
      modifies env
      ensures target == None ==> err == Some(NotResolved) && unchanged(env)
      ensures target.Some? ==>
                (env.world, env.log, err) == DestroyRun(target.value, settings.hasClient, force, env.outcome, old(env.log), old(env.world))
    {
      if target == None {
        return Some(NotResolved);
      }
      if !settings.hasClient {
        return Some(NoClient);
      }
      var t := target.value;
      var found := env.VMExists(t.host, t.vmid);
      if found == None {
        return Some(ReadFailed);
      }
      if !found.value {
        return None;
      }
      var ignored := env.Call(Stop(t.host, t.vmid, force));
      var ok := env.Call(Delete(t.host, t.vmid));
      err := if ok then None else Some(CallFailed(Delete(t.host, t.vmid)));
    }
  }

  /** `Down` of one node, call by call; `Rollback` is the same with `force`. */
  function DestroyRun(t: Target, hasClient: bool, force: bool, outcome: nat -> Outcome, log: seq<Event>, w: World): (World, seq<Event>, Option<Err>) {
    var looked := log + [Read(t.host, t.vmid)];
    if !hasClient then (w, log, Some(NoClient))
    else if outcome(|log|) != Done then (w, looked, Some(ReadFailed))
    else if !Has(w, t.host, t.vmid) then (w, looked, None)
    else
      var stopped := looked + [Issued(Stop(t.host, t.vmid, force))];
      var w1 := Perform(Stop(t.host, t.vmid, force), outcome(|looked|), w).0;
      var gone := Perform(Delete(t.host, t.vmid), outcome(|stopped|), w1);
      (gone.0, stopped + [Issued(Delete(t.host, t.vmid))], if gone.1 then None else Some(CallFailed(Delete(t.host, t.vmid))))
  }

  /** With a client, the VM is looked for; when it is there, a stop and then a delete are asked for, and nothing else, and the
      answer to the delete is the answer. */
  lemma DestroyAsks(t: Target, force: bool, outcome: nat -> Outcome, log: seq<Event>, w: World)
    ensures DestroyRun(t, false, force, outcome, log, w) == (w, log, Some(NoClient))
    ensures var r, n := DestroyRun(t, true, force, outcome, log, w), |log|;
            var delete := Delete(t.host, t.vmid);
            if outcome(n) != Done || !Has(w, t.host, t.vmid) then
              r.1 == log + [Read(t.host, t.vmid)] && r.0 == w && (r.2 == None <==> outcome(n) == Done)
            else
              && r.1 == log + [Read(t.host, t.vmid), Issued(Stop(t.host, t.vmid, force)), Issued(delete)]
              && (r.0, r.2 == None) == Perform(delete, outcome(n + 2), Perform(Stop(t.host, t.vmid, force), outcome(n + 1), w).0)
  {
  }

  /** Nil means the VM is absent, an absent VM means that nothing changes, nothing else is touched, and a client that
      never fails gives nil. */
  lemma DestroySound(t: Target, hasClient: bool, force: bool, outcome: nat -> Outcome, log: seq<Event>, w: World)
    ensures var r := DestroyRun(t, hasClient, force, outcome, log, w);
            && (r.2 == None ==> !Has(r.0, t.host, t.vmid))
            && (!Has(w, t.host, t.vmid) ==> r.0 == w)
            && Dwindled(w, r.0, t.vmid)
            && (hasClient && outcome(|log|) == Done && outcome(|log| + 2) == Done ==> r.2 == None)
  {
  }

  /** None of the operations deletes, so a VM that is there stays there. */
  lemma {:induction false} NothingDeleted(ops: seq<Op>, vmid: int, w: World)
    requires Run(ops, w).Some? && forall k :: 0 <= k < |ops| ==> !ops[k].Delete?
    ensures Slot(w, vmid).Some? ==> Slot(Run(ops, w).value, vmid).Some?
  {
    if ops != [] {
      NothingDeleted(ops[1..], vmid, Effect(ops[0], w).value);
    }
  }

  /** A planned apply succeeds only when `CreateVM` had valid options. */
  lemma {:induction false} CreateNeedsForm(t: Target, s: Settings, changes: seq<Kind>, haveIso: bool, outcome: nat -> Outcome, log: seq<Event>, w: World)
    requires CreateVM in changes && RunScript(Script(t, s, changes, haveIso), outcome, log, w).2 == None
    ensures t.form.Some?
  {
    var tail := Script(t, s, changes[1..], haveIso || changes[0] == BuildISO);
    RunScriptConcat(Items(t, s, changes[0], haveIso), tail, outcome, log, w);
    if changes[0] != CreateVM {
      var r := RunScript(Items(t, s, changes[0], haveIso), outcome, log, w);
      CreateNeedsForm(t, s, changes[1..], haveIso || changes[0] == BuildISO, outcome, r.1, r.0);
    }
  }
}
