/** The concurrent executor: one goroutine a node, a counting semaphore, one upload mutex and, in
    fail-fast mode, a context that the first recorded error cancels. A run is any list of steps. */
module FanOut {
  import opened Wrappers
  import opened Proxmox

  const DEFAULT_MAX_CONCURRENCY: nat := 4

  /** The configured limit, or 4 when it is none. */
  function EffectiveLimit(maxConcurrency: int): (limit: nat)
    ensures if maxConcurrency >= 1 then limit == maxConcurrency else limit == 4
  {
    if maxConcurrency > 0 then maxConcurrency else DEFAULT_MAX_CONCURRENCY
  }

  /** `plans[i]` is the list of operations of the i-th node in name order. */
  datatype Config = Config(limit: nat, continueOnError: bool, plans: seq<seq<Op>>)

  /** How a node ended. `underCancel`: the context was already cancelled when the operation failed.
      `Abandoned`: the node left the semaphore queue because the context was cancelled. */
  datatype Result = Completed | Failed(at: nat, underCancel: bool) | Abandoned

  /** Where a goroutine stands. `Working(k)` is about to run operation k; `Uploading(k)` and
      `Unlocking(k, ..)` hold the mutex, before and after the upload; `Returned` has left `Apply`.
      `Closing` has recorded its error and still holds its slot (continue-on-error), or has given
      its slot back and not yet recorded its error (fail-fast). */
  datatype Phase =
    | Waiting
    | Working(k: nat)
    | Uploading(k: nat)
    | Unlocking(k: nat, ok: bool, underCancel: bool)
    | Returned(r: Result)
    | Closing(r: Result)
    | Finished(r: Result)

  datatype NodeError = NodeError(node: nat, result: Result)

  /** `done[i]` lists the operations of node i that took effect; it is history and guides no step.
      `spawned` counts the iterations the launching loop has completed in continue-on-error mode. */
  datatype State = State(
    world: World,
    phases: seq<Phase>,
    done: seq<seq<Op>>,
    slots: nat,
    holder: Option<nat>,
    spawned: nat,
    external: bool,
    cancelled: bool,
    firstErr: Option<NodeError>,
    errs: seq<NodeError>)

  datatype Step =
    | Acquire(i: nat)
    | Abandon(i: nat)
    | Exec(i: nat, o: Outcome)
    | Lock(i: nat)
    | SendUpload(i: nat, o: Outcome)
    | Unlock(i: nat)
    | Complete(i: nat)
    | Record(i: nat)
    | Release(i: nat)
    | CancelParent

  predicate Failing(r: Result) { r != Completed }

  predicate HoldsSlot(c: Config, p: Phase) {
    p.Working? || p.Uploading? || p.Unlocking? || p.Returned? || (p.Closing? && c.continueOnError)
  }

  predicate InLock(p: Phase) { p.Uploading? || p.Unlocking? }

  function Init(c: Config, w: World): State {
    State(w, seq(|c.plans|, i => Waiting), seq(|c.plans|, i => []), 0, None, 0, false, false, None, [])
  }

  function Move(s: State, i: nat, p: Phase): State
    requires i < |s.phases|
  {
    s.(phases := s.phases[i := p])
  }

  /** Node i issues `op` to Proxmox: the world and the node's history move together. */
  function Issue(s: State, i: nat, op: Op, o: Outcome): State
    requires i < |s.done|
  {
    if Effect(op, s.world).Some? && o != Refused
    then s.(world := Perform(op, o, s.world).0, done := s.done[i := s.done[i] + [op]])
    else s
  }

  predicate Shape(c: Config, s: State) {
    |s.phases| == |c.plans| && |s.done| == |c.plans|
  }

  predicate Enabled(c: Config, s: State, st: Step)
    requires Shape(c, s)
  {
    if st.CancelParent? then
      !s.external
    else if st.i >= |c.plans| then
      false
    else
      var p, plan := s.phases[st.i], c.plans[st.i];
      match st
      case Acquire(i) => p.Waiting? && s.slots < c.limit && (c.continueOnError ==> i == s.spawned)
      case Abandon(i) => p.Waiting? && !c.continueOnError && s.cancelled
      case Exec(i, o) => p.Working? && p.k < |plan| && !plan[p.k].Upload?
      case Lock(i) => p.Working? && p.k < |plan| && plan[p.k].Upload? && s.holder == None
      case SendUpload(i, o) => p.Uploading? && p.k < |plan|
      case Unlock(i) => p.Unlocking?
      case Complete(i) => p.Working? && p.k == |plan|
      case Record(i) => if c.continueOnError then p.Returned? else p.Closing?
      case Release(i) => s.slots > 0 && (if c.continueOnError then p.Closing? else p.Returned?)
  }

  /** The state after a step; the source's order of effects is the order written here. */
  function Next(c: Config, s: State, st: Step): (s': State)
    requires Shape(c, s) && Enabled(c, s, st)
    ensures Shape(c, s')
    ensures !st.CancelParent? ==>
              && s'.phases == s.phases[st.i := s'.phases[st.i]]
              && s'.done == s.done[st.i := s'.done[st.i]]
  {
    if st.CancelParent? then s.(external := true, cancelled := true)
    else
      var i, p := st.i, s.phases[st.i];
      match st
      case Acquire(_) => Move(s, i, Working(0)).(slots := s.slots + 1, spawned := if c.continueOnError then s.spawned + 1 else 0)
      case Abandon(_) => Move(s, i, Closing(Abandoned))
      case Exec(_, o) =>
        var op := c.plans[i][p.k];
        var ok := Perform(op, o, s.world).1;
        Issue(Move(s, i, if ok then Working(p.k + 1) else Returned(Failed(p.k, s.cancelled))), i, op, o)
      case Lock(_) => Move(s, i, Uploading(p.k)).(holder := Some(i))
      case SendUpload(_, o) =>
        var op := c.plans[i][p.k];
        var ok := Perform(op, o, s.world).1;
        Issue(Move(s, i, Unlocking(p.k, ok, s.cancelled)), i, op, o)
      case Unlock(_) =>
        Move(s, i, if p.ok then Working(p.k + 1) else Returned(Failed(p.k, p.underCancel))).(holder := None)
      case Complete(_) => Move(s, i, Returned(Completed))
      case Record(_) =>
        if c.continueOnError then
          Move(s, i, Closing(p.r)).(errs := if Failing(p.r) then s.errs + [NodeError(i, p.r)] else s.errs)
        else if Failing(p.r) && s.firstErr == None then
          Move(s, i, Finished(p.r)).(firstErr := Some(NodeError(i, p.r)), cancelled := true)
        else
          Move(s, i, Finished(p.r))
      case Release(_) =>
        Move(s, i, if c.continueOnError then Finished(p.r) else Closing(p.r)).(slots := s.slots - 1)
  }

  predicate Final(s: State) { forall i :: 0 <= i < |s.phases| ==> s.phases[i].Finished? }

  /** `applyPlan` returns nil. */
  predicate ReturnsNil(c: Config, s: State) {
    if c.continueOnError then s.errs == [] else s.firstErr == None
  }

  // --- sums over the nodes --------------------------------------------------

  function Sum(f: (nat, Phase) -> nat, ps: seq<Phase>): nat {
    if ps == [] then 0 else Sum(f, ps[..|ps| - 1]) + f(|ps| - 1, ps[|ps| - 1])
  }

  lemma {:induction false} SumUpdate(f: (nat, Phase) -> nat, ps: seq<Phase>, i: nat, p: Phase)
    requires i < |ps|
    ensures Sum(f, ps[i := p]) + f(i, ps[i]) == Sum(f, ps) + f(i, p)
  {
    var n := |ps| - 1;
    if i == n {
      assert ps[i := p][..n] == ps[..n];
    } else {
      assert ps[i := p][..n] == ps[..n][i := p];
      SumUpdate(f, ps[..n], i, p);
    }
  }

  lemma {:induction false} SumZero(f: (nat, Phase) -> nat, ps: seq<Phase>)
    ensures Sum(f, ps) == 0 <==> forall i :: 0 <= i < |ps| ==> f(i, ps[i]) == 0
  {
    if ps != [] {
      SumZero(f, ps[..|ps| - 1]);
      assert forall i :: 0 <= i < |ps| - 1 ==> ps[..|ps| - 1][i] == ps[i];
    }
  }

  function SlotOf(c: Config): (nat, Phase) -> nat { (i, p) => if HoldsSlot(c, p) then 1 else 0 }

  // --- invariants -------------------------------------------------------------

  predicate SlotsCounted(c: Config, s: State) {
    s.slots == Sum(SlotOf(c), s.phases) && s.slots <= c.limit
  }

  predicate MutexHeld(s: State) {
    && (s.holder.Some? ==> s.holder.value < |s.phases|)
    && forall i :: 0 <= i < |s.phases| ==> (InLock(s.phases[i]) <==> s.holder == Some(i))
  }

  /** The effects of a node whose operation k failed: up to k, or including it when it was lost. */
  predicate Cut(plan: seq<Op>, k: nat, d: seq<Op>) {
    k < |plan| && (d == plan[..k] || d == plan[..k + 1])
  }

  predicate ResultFits(plan: seq<Op>, r: Result, d: seq<Op>) {
    match r
    case Completed => d == plan
    case Failed(k, _) => Cut(plan, k, d)
    case Abandoned => d == []
  }

  predicate PhaseFits(c: Config, plan: seq<Op>, p: Phase, d: seq<Op>) {
    match p
    case Waiting => d == []
    case Working(k) => k <= |plan| && d == plan[..k]
    case Uploading(k) => k < |plan| && plan[k].Upload? && d == plan[..k]
    case Unlocking(k, ok, _) => k < |plan| && plan[k].Upload? && Cut(plan, k, d) && (ok ==> d == plan[..k + 1])
    case Returned(r) => r != Abandoned && ResultFits(plan, r, d)
    case Closing(r) => (c.continueOnError ==> r != Abandoned) && ResultFits(plan, r, d)
    case Finished(r) => (c.continueOnError ==> r != Abandoned) && ResultFits(plan, r, d)
  }

  predicate HistoryFits(c: Config, s: State)
    requires Shape(c, s)
  {
    forall i :: 0 <= i < |c.plans| ==> PhaseFits(c, c.plans[i], s.phases[i], s.done[i])
  }

  predicate LaunchOrder(c: Config, s: State) {
    c.continueOnError ==>
      s.spawned <= |s.phases| && forall i :: 0 <= i < |s.phases| ==> (s.phases[i].Waiting? <==> s.spawned <= i)
  }

  /** The result a node has put on record, if any. */
  function Recorded(c: Config, p: Phase): Option<Result> {
    if p.Finished? || (p.Closing? && c.continueOnError) then Some(p.r) else None
  }

  predicate OnRecord(c: Config, s: State, e: NodeError) {
    e.node < |s.phases| && Recorded(c, s.phases[e.node]) == Some(e.result) && Failing(e.result)
  }

  predicate Tainted(p: Phase) {
    match p
    case Unlocking(_, _, underCancel) => underCancel
    case Returned(r) => r == Abandoned || (r.Failed? && r.underCancel)
    case Closing(r) => r == Abandoned || (r.Failed? && r.underCancel)
    case Finished(r) => r == Abandoned || (r.Failed? && r.underCancel)
    case _ => false
  }

  predicate FailFastErrors(c: Config, s: State) {
    !c.continueOnError ==>
      && s.errs == []
      && (s.cancelled <==> s.external || s.firstErr.Some?)
      && (forall i :: 0 <= i < |s.phases| && Tainted(s.phases[i]) ==> s.cancelled)
      && (s.firstErr == None ==> forall i :: 0 <= i < |s.phases| ==> !OnRecord(c, s, NodeError(i, ResultOf(s.phases[i]))))
      && (s.firstErr.Some? ==> OnRecord(c, s, s.firstErr.value))
      && (s.firstErr.Some? && !s.external ==> s.firstErr.value.result.Failed? && !s.firstErr.value.result.underCancel)
  }

  function ResultOf(p: Phase): Result {
    if p.Returned? || p.Closing? || p.Finished? then p.r else Completed
  }

  predicate AllErrors(c: Config, s: State) {
    c.continueOnError ==>
      && s.firstErr == None
      && (forall k :: 0 <= k < |s.errs| ==> OnRecord(c, s, s.errs[k]))
      && (forall i :: 0 <= i < |s.phases| && Recorded(c, s.phases[i]).Some? && Failing(s.phases[i].r) ==>
            NodeError(i, s.phases[i].r) in s.errs)
      && (forall j, k :: 0 <= j < k < |s.errs| ==> s.errs[j].node != s.errs[k].node)
  }

  predicate Inv(c: Config, s: State) {
    && Shape(c, s)
    && SlotsCounted(c, s)
    && MutexHeld(s)
    && HistoryFits(c, s)
    && LaunchOrder(c, s)
    && FailFastErrors(c, s)
    && AllErrors(c, s)
  }

  lemma InitInv(c: Config, w: World)
    ensures Inv(c, Init(c, w))
  {
    SumZero(SlotOf(c), Init(c, w).phases);
  }

  // --- one node's step, apart from the rest of the state ---------------------------------

  predicate Calls(st: Step) { st.Exec? || st.SendUpload? }

  /** A node in this phase can take this step, which makes no call. */
  predicate QuietFrom(c: Config, plan: seq<Op>, p: Phase, st: Step) {
    match st
    case Acquire(_) => p.Waiting?
    case Abandon(_) => p.Waiting? && !c.continueOnError
    case Lock(_) => p.Working? && p.k < |plan| && plan[p.k].Upload?
    case Unlock(_) => p.Unlocking?
    case Complete(_) => p.Working? && p.k == |plan|
    case Record(_) => if c.continueOnError then p.Returned? else p.Closing?
    case Release(_) => if c.continueOnError then p.Closing? else p.Returned?
    case _ => false
  }

  function QuietPhase(c: Config, plan: seq<Op>, p: Phase, st: Step): Phase
    requires QuietFrom(c, plan, p, st)
  {
    match st
    case Acquire(_) => Working(0)
    case Abandon(_) => Closing(Abandoned)
    case Lock(_) => Uploading(p.k)
    case Unlock(_) => if p.ok then Working(p.k + 1) else Returned(Failed(p.k, p.underCancel))
    case Complete(_) => Returned(Completed)
    case Record(_) => if c.continueOnError then Closing(p.r) else Finished(p.r)
    case Release(_) => if c.continueOnError then Finished(p.r) else Closing(p.r)
  }

  lemma QuietMoves(c: Config, s: State, st: Step)
    requires Shape(c, s) && Enabled(c, s, st) && !st.CancelParent? && !Calls(st)
    ensures var i, s' := st.i, Next(c, s, st);
            && QuietFrom(c, c.plans[i], s.phases[i], st) && s'.phases[i] == QuietPhase(c, c.plans[i], s.phases[i], st)
            && s'.done == s.done && s'.world == s.world && s'.external == s.external
  {
  }

  lemma SlotMoves(c: Config, s: State, st: Step)
    requires Shape(c, s) && Enabled(c, s, st) && !st.CancelParent?
    ensures var s', held := Next(c, s, st), SlotOf(c)(st.i, s.phases[st.i]);
            s'.slots + held == s.slots + SlotOf(c)(st.i, s'.phases[st.i]) && (s'.slots > s.slots ==> s.slots < c.limit)
  {
  }

  lemma SlotsKept(c: Config, s: State, st: Step)
    requires Shape(c, s) && SlotsCounted(c, s) && Enabled(c, s, st)
    ensures SlotsCounted(c, Next(c, s, st))
  {
    if !st.CancelParent? {
      SlotMoves(c, s, st);
      SumUpdate(SlotOf(c), s.phases, st.i, Next(c, s, st).phases[st.i]);
    }
  }

  lemma MutexMoves(c: Config, s: State, st: Step)
    requires Shape(c, s) && Enabled(c, s, st) && !st.CancelParent?
    ensures var i, s' := st.i, Next(c, s, st);
            s'.holder == (if st.Lock? then Some(i) else if st.Unlock? then None else s.holder) &&
            (InLock(s'.phases[i]) <==> st.Lock? || st.SendUpload?) && (InLock(s.phases[i]) <==> st.Unlock? || st.SendUpload?) &&
            (st.Lock? ==> s.holder == None)
  {
  }

  lemma MutexKept(c: Config, s: State, st: Step)
    requires Shape(c, s) && MutexHeld(s) && Enabled(c, s, st)
    ensures MutexHeld(Next(c, s, st))
  {
    if !st.CancelParent? {
      MutexMoves(c, s, st);
      assert forall j :: 0 <= j < |s.phases| && j != st.i ==> Next(c, s, st).phases[j] == s.phases[j];
    }
  }

  /** A call extends the node's history by its operation, or not at all; it does when the answer was good. */
  lemma IssueExtends(c: Config, s: State, st: Step)
    requires Shape(c, s) && Enabled(c, s, st) && !st.CancelParent? && Calls(st)
    ensures var i, s' := st.i, Next(c, s, st);
            && (s.phases[i].Working? || s.phases[i].Uploading?) && s.phases[i].k < |c.plans[i]|
            && Called(c.plans[i], s.phases[i], s.done[i], s'.phases[i], s'.done[i]) && s'.external == s.external
  {
  }

  /** From `p` with history `d`, the call of operation k led to `p'` with history `d'`. */
  predicate Called(plan: seq<Op>, p: Phase, d: seq<Op>, p': Phase, d': seq<Op>)
    requires (p.Working? || p.Uploading?) && p.k < |plan|
  {
    && (d' == d || d' == d + [plan[p.k]])
    && match p'
       case Working(k') => p.Working? && k' == p.k + 1 && d' == d + [plan[p.k]]
       case Returned(r) => p.Working? && r.Failed? && r.at == p.k
       case Unlocking(k', ok, _) => p.Uploading? && k' == p.k && (ok ==> d' == d + [plan[p.k]])
       case _ => false
  }

  lemma CalledFits(c: Config, plan: seq<Op>, p: Phase, d: seq<Op>, p': Phase, d': seq<Op>)
    requires (p.Working? || p.Uploading?) && p.k < |plan| && PhaseFits(c, plan, p, d) && Called(plan, p, d, p', d')
    ensures PhaseFits(c, plan, p', d')
  {
    assert plan[..p.k] + [plan[p.k]] == plan[..p.k + 1];
  }

  lemma QuietFits(c: Config, plan: seq<Op>, p: Phase, d: seq<Op>, st: Step)
    requires PhaseFits(c, plan, p, d) && QuietFrom(c, plan, p, st)
    ensures PhaseFits(c, plan, QuietPhase(c, plan, p, st), d)
  {
    if st.Complete? { assert plan[..p.k] == plan; }
  }

  /** The moving node's history still fits its new phase. */
  lemma NodeFits(c: Config, s: State, st: Step)
    requires Shape(c, s) && HistoryFits(c, s) && Enabled(c, s, st) && !st.CancelParent?
    ensures PhaseFits(c, c.plans[st.i], Next(c, s, st).phases[st.i], Next(c, s, st).done[st.i])
  {
    var i, s' := st.i, Next(c, s, st);
    assert PhaseFits(c, c.plans[i], s.phases[i], s.done[i]);
    if Calls(st) {
      IssueExtends(c, s, st);
      CalledFits(c, c.plans[i], s.phases[i], s.done[i], s'.phases[i], s'.done[i]);
    } else {
      QuietMoves(c, s, st);
      QuietFits(c, c.plans[i], s.phases[i], s.done[i], st);
    }
  }

  lemma HistoryKept(c: Config, s: State, st: Step)
    requires Shape(c, s) && HistoryFits(c, s) && Enabled(c, s, st)
    ensures HistoryFits(c, Next(c, s, st))
  {
    if !st.CancelParent? {
      NodeFits(c, s, st);
    }
  }

  lemma LaunchKept(c: Config, s: State, st: Step)
    requires Shape(c, s) && LaunchOrder(c, s) && Enabled(c, s, st)
    ensures LaunchOrder(c, Next(c, s, st))
  {
  }

  /** In fail-fast mode: what a step of node i does to the error on record. */
  lemma FailFastMoves(c: Config, s: State, st: Step)
    requires Shape(c, s) && Enabled(c, s, st) && !c.continueOnError && !st.CancelParent?
    ensures var i, s' := st.i, Next(c, s, st);
            && s'.errs == s.errs && s'.external == s.external
            && if st.Record? then
                 RecordsFirst(s, i, s')
               else
                 s'.firstErr == s.firstErr && s'.cancelled == s.cancelled && !s'.phases[i].Finished? && !s.phases[i].Finished?
  {
  }

  /** Node i's result is recorded, and is the first error if it is one and there was none. */
  predicate RecordsFirst(s: State, i: nat, s': State)
    requires i < |s.phases| && i < |s'.phases|
  {
    && s.phases[i].Closing? && s'.phases[i] == Finished(s.phases[i].r)
    && if Failing(s.phases[i].r) && s.firstErr == None then s'.firstErr == Some(NodeError(i, s.phases[i].r)) && s'.cancelled
       else s'.firstErr == s.firstErr && s'.cancelled == s.cancelled
  }

  /** A result is tainted only when the context was cancelled. */
  lemma TaintMoves(c: Config, s: State, st: Step)
    requires Shape(c, s) && Enabled(c, s, st) && !st.CancelParent?
    ensures Tainted(Next(c, s, st).phases[st.i]) ==> Tainted(s.phases[st.i]) || s.cancelled
  {
  }

  lemma FailFastFollows(c: Config, s: State, i: nat, s': State)
    requires FailFastErrors(c, s) && !c.continueOnError && i < |s.phases|
    requires s'.phases == s.phases[i := if i < |s'.phases| then s'.phases[i] else s.phases[i]]
    requires s'.errs == s.errs && s'.external == s.external
    requires Tainted(s'.phases[i]) ==> Tainted(s.phases[i]) || s.cancelled
    requires RecordsFirst(s, i, s')
          || (s'.firstErr == s.firstErr && s'.cancelled == s.cancelled && !s'.phases[i].Finished? && !s.phases[i].Finished?)
    ensures FailFastErrors(c, s')
  {
    assert forall j :: 0 <= j < |s.phases| && j != i ==> s'.phases[j] == s.phases[j];
    if RecordsFirst(s, i, s') {
      assert OnRecord(c, s', NodeError(i, s.phases[i].r)) <==> Failing(s.phases[i].r);
    }
  }

  lemma FailFastKept(c: Config, s: State, st: Step)
    requires Shape(c, s) && FailFastErrors(c, s) && Enabled(c, s, st)
    ensures FailFastErrors(c, Next(c, s, st))
  {
    if !c.continueOnError && !st.CancelParent? {
      FailFastMoves(c, s, st);
      TaintMoves(c, s, st);
      FailFastFollows(c, s, st.i, Next(c, s, st));
    }
  }

  lemma RecordKept(c: Config, s: State, st: Step)
    requires Shape(c, s) && Enabled(c, s, st) && c.continueOnError && !st.CancelParent?
    ensures var i, s' := st.i, Next(c, s, st);
            s'.firstErr == s.firstErr &&
            if st.Record? then
              var r := s.phases[i].r;
              Recorded(c, s.phases[i]) == None && s'.phases[i] == Closing(r) && s'.errs == if Failing(r) then s.errs + [NodeError(i, r)] else s.errs
            else s'.errs == s.errs && Recorded(c, s'.phases[i]) == Recorded(c, s.phases[i])
  {
    if !Calls(st) { QuietMoves(c, s, st); } else { IssueExtends(c, s, st); }
  }

  lemma AllErrorsKept(c: Config, s: State, st: Step)
    requires Shape(c, s) && AllErrors(c, s) && Enabled(c, s, st)
    ensures AllErrors(c, Next(c, s, st))
  {
    if c.continueOnError && !st.CancelParent? {
      var i, s' := st.i, Next(c, s, st);
      RecordKept(c, s, st);
      assert forall j :: 0 <= j < |s.phases| && j != i ==> s'.phases[j] == s.phases[j];
      assert forall k :: 0 <= k < |s.errs| ==> OnRecord(c, s, s.errs[k]) && (st.Record? ==> s.errs[k].node != i);
    }
  }

  lemma StepKeepsInv(c: Config, s: State, st: Step)
    requires Inv(c, s) && Enabled(c, s, st)
    ensures Inv(c, Next(c, s, st))
  {
    SlotsKept(c, s, st);
    MutexKept(c, s, st);
    HistoryKept(c, s, st);
    LaunchKept(c, s, st);
    FailFastKept(c, s, st);
    AllErrorsKept(c, s, st);
  }

  // --- whole runs -------------------------------------------------------------

  predicate Legal(c: Config, s: State, steps: seq<Step>)
    requires Shape(c, s)
    decreases |steps|
  {
    steps == [] || (Enabled(c, s, steps[0]) && Legal(c, Next(c, s, steps[0]), steps[1..]))
  }

  function After(c: Config, s: State, steps: seq<Step>): (s': State)
    requires Shape(c, s) && Legal(c, s, steps)
    ensures Shape(c, s')
    decreases |steps|
  {
    if steps == [] then s else After(c, Next(c, s, steps[0]), steps[1..])
  }

  lemma {:induction false} RunKeepsInv(c: Config, s: State, steps: seq<Step>)
    requires Inv(c, s) && Legal(c, s, steps)
    ensures Inv(c, After(c, s, steps))
    decreases |steps|
  {
    if steps != [] {
      StepKeepsInv(c, s, steps[0]);
      RunKeepsInv(c, Next(c, s, steps[0]), steps[1..]);
    }
  }

  /** Every reachable state: as many slots are taken as there are nodes inside, never more than the
      limit; the mutex has one holder, that holder also has a slot, and only it is uploading. */
  lemma ReachableSafety(c: Config, w: World, steps: seq<Step>)
    requires Legal(c, Init(c, w), steps)
    ensures var s := After(c, Init(c, w), steps);
            && s.slots == Sum(SlotOf(c), s.phases) <= c.limit
            && (s.holder.Some? ==> s.holder.value < |s.phases| && HoldsSlot(c, s.phases[s.holder.value]))
            && (forall i, j :: 0 <= i < |s.phases| && 0 <= j < |s.phases| && InLock(s.phases[i]) && InLock(s.phases[j]) ==> i == j)
  {
    InitInv(c, w);
    RunKeepsInv(c, Init(c, w), steps);
  }

  /** Whatever has happened, an upload is sent by the node that holds the mutex, and by no other. */
  lemma UploadsHoldMutex(c: Config, w: World, steps: seq<Step>, st: Step)
    requires Legal(c, Init(c, w), steps) && Enabled(c, After(c, Init(c, w), steps), st) && (st.Exec? || st.SendUpload?)
    ensures var s := After(c, Init(c, w), steps);
            c.plans[st.i][s.phases[st.i].k].Upload? ==> s.holder == Some(st.i)
  {
    InitInv(c, w);
    RunKeepsInv(c, Init(c, w), steps);
  }

  /** The first k nodes are inside, the others have not begun. */
  predicate Filled(c: Config, s: State, k: nat) {
    && Shape(c, s) && k <= |c.plans| && s.slots == k && s.spawned == (if c.continueOnError then k else 0)
    && forall i :: 0 <= i < |c.plans| ==> s.phases[i] == if i < k then Working(0) else Waiting
  }

  lemma {:induction false} FillFrom(c: Config, s: State, k: nat, n: nat) returns (steps: seq<Step>)
    requires Filled(c, s, k) && k <= n <= |c.plans| && n <= c.limit
    ensures Legal(c, s, steps) && Filled(c, After(c, s, steps), n)
    decreases n - k
  {
    if k == n {
      steps := [];
    } else {
      var rest := FillFrom(c, Next(c, s, Acquire(k)), k + 1, n);
      steps := [Acquire(k)] + rest;
      assert steps[0] == Acquire(k) && steps[1..] == rest;
    }
  }

  /** The limit is used: as many nodes as it allows can be at work at once. */
  lemma LimitReached(c: Config, w: World) returns (steps: seq<Step>)
    ensures Legal(c, Init(c, w), steps)
    ensures var s, n := After(c, Init(c, w), steps), if |c.plans| <= c.limit then |c.plans| else c.limit;
            s.slots == n && forall i :: 0 <= i < n ==> s.phases[i].Working?
  {
    steps := FillFrom(c, Init(c, w), 0, if |c.plans| <= c.limit then |c.plans| else c.limit);
  }

  /** What a node may do next does not depend on the others, but for the slots, the mutex and the launch order; and a node that
      has a slot goes on with its calls even when the context has been cancelled. */
  lemma StepsPossible(c: Config, s: State, i: nat, o: Outcome)
    requires Shape(c, s) && i < |c.plans|
    ensures var p, plan := s.phases[i], c.plans[i];
            && (p.Waiting? && s.slots < c.limit && (!c.continueOnError || i == s.spawned) ==> Enabled(c, s, Acquire(i)))
            && (p.Waiting? && !c.continueOnError && s.cancelled ==> Enabled(c, s, Abandon(i)))
            && (p.Working? && p.k < |plan| && !plan[p.k].Upload? ==> Enabled(c, s, Exec(i, o)))
            && (p.Working? && p.k < |plan| && plan[p.k].Upload? && s.holder == None ==> Enabled(c, s, Lock(i)))
            && (p.Uploading? && p.k < |plan| ==> Enabled(c, s, SendUpload(i, o)))
            && (p.Unlocking? ==> Enabled(c, s, Unlock(i)))
            && (p.Working? && p.k == |plan| ==> Enabled(c, s, Complete(i)))
    ensures !s.external ==> Enabled(c, s, CancelParent)
  {
  }

  /** Never more nodes at work than configured, or than four without a configured limit; and as many can be. */
  lemma ConfiguredLimit(maxConcurrency: int, continueOnError: bool, plans: seq<seq<Op>>, w: World, steps: seq<Step>) returns (full: seq<Step>)
    requires var c := Config(EffectiveLimit(maxConcurrency), continueOnError, plans); Legal(c, Init(c, w), steps)
    ensures var c, limit := Config(EffectiveLimit(maxConcurrency), continueOnError, plans), if maxConcurrency > 0 then maxConcurrency else 4;
            && After(c, Init(c, w), steps).slots <= limit && Legal(c, Init(c, w), full)
            && After(c, Init(c, w), full).slots == if |plans| <= limit then |plans| else limit
  {
    var c := Config(EffectiveLimit(maxConcurrency), continueOnError, plans);
    ReachableSafety(c, w, steps);
    full := LimitReached(c, w);
  }

  // --- equivalence to running the nodes one by one -----------------------------

  function Flatten(lists: seq<seq<Op>>): seq<Op> {
    if lists == [] then [] else lists[0] + Flatten(lists[1..])
  }

  /** The nodes one after another in name order. */
  function Sequential(lists: seq<seq<Op>>, w: World): Option<World> {
    Run(Flatten(lists), w)
  }

  predicate IndependentPlans(plans: seq<seq<Op>>) {
    forall i, j, a, b :: 0 <= i < |plans| && 0 <= j < |plans| && i != j && 0 <= a < |plans[i]| && 0 <= b < |plans[j]| ==>
      Independent(plans[i][a], plans[j][b])
  }

  lemma {:induction false} FlattenAt(lists: seq<seq<Op>>, i: nat)
    requires i < |lists|
    ensures Flatten(lists) == Flatten(lists[..i]) + lists[i] + Flatten(lists[i + 1..])
  {
    if i == 0 {
      assert lists[..0] == [];
    } else {
      FlattenAt(lists[1..], i - 1);
      assert lists[1..][..i - 1] == lists[..i][1..];
      assert lists[1..][i..] == lists[i + 1..];
    }
  }

  lemma {:induction false} FlattenMember(lists: seq<seq<Op>>, k: nat)
    requires k < |Flatten(lists)|
    ensures exists j, b :: 0 <= j < |lists| && 0 <= b < |lists[j]| && lists[j][b] == Flatten(lists)[k]
  {
    if k < |lists[0]| {
      assert lists[0][k] == Flatten(lists)[k];
    } else {
      FlattenMember(lists[1..], k - |lists[0]|);
      var j, b :| 0 <= j < |lists[1..]| && 0 <= b < |lists[1..][j]| && lists[1..][j][b] == Flatten(lists[1..])[k - |lists[0]|];
      assert lists[j + 1][b] == Flatten(lists)[k];
    }
  }

  /** An operation issued now by node i counts as if issued when node i had its turn. */
  lemma IssueInTurn(lists: seq<seq<Op>>, i: nat, op: Op, w0: World, w: World)
    requires i < |lists| && Sequential(lists, w0) == Some(w)
    requires forall j, b :: i < j < |lists| && 0 <= b < |lists[j]| ==> Independent(op, lists[j][b])
    ensures Sequential(lists[i := lists[i] + [op]], w0) == Effect(op, w)
  {
    var before, later := Flatten(lists[..i]) + lists[i], Flatten(lists[i + 1..]);
    FlattenAt(lists, i);
    var lists' := lists[i := lists[i] + [op]];
    FlattenAt(lists', i);
    assert lists'[..i] == lists[..i] && lists'[i + 1..] == lists[i + 1..];
    assert Flatten(lists') == before + ([op] + later);
    forall k | 0 <= k < |later| ensures Independent(op, later[k]) {
      FlattenMember(lists[i + 1..], k);
      var j, b :| 0 <= j < |lists[i + 1..]| && 0 <= b < |lists[i + 1..][j]| && lists[i + 1..][j][b] == later[k];
      assert lists[i + 1 + j][b] == later[k];
    }
    RunConcat(before, [op] + later, w0);
    RunConcat(before, later + [op], w0);
    RunConcat(before, later, w0);
    var w1 := Run(before, w0).value;
    CommutePast(later, op, w1);
    RunSnoc(later, op, w1);
  }

  /** The operation node i is about to issue is independent of all that other nodes have done. */
  lemma IndependentOfDone(c: Config, s: State, i: nat, k: nat)
    requires IndependentPlans(c.plans) && Shape(c, s) && HistoryFits(c, s) && i < |c.plans| && k < |c.plans[i]|
    ensures forall j, b :: 0 <= j < |s.done| && j != i && 0 <= b < |s.done[j]| ==> Independent(c.plans[i][k], s.done[j][b])
  {
    forall j, b | 0 <= j < |s.done| && j != i && 0 <= b < |s.done[j]| ensures Independent(c.plans[i][k], s.done[j][b]) {
      DonePrefix(c, s, j);
      assert s.done[j][b] == c.plans[j][b];
    }
  }

  lemma DonePrefix(c: Config, s: State, i: nat)
    requires Shape(c, s) && HistoryFits(c, s) && i < |c.plans|
    ensures s.done[i] <= c.plans[i]
  {
    assert PhaseFits(c, c.plans[i], s.phases[i], s.done[i]);
  }

  /** A call issues its operation for its node; no other step touches Proxmox or the history. */
  lemma StepIssues(c: Config, s: State, st: Step)
    requires Shape(c, s) && Enabled(c, s, st)
    ensures var s' := Next(c, s, st);
            if st.Exec? || st.SendUpload? then
              var issued := Issue(s, st.i, c.plans[st.i][s.phases[st.i].k], st.o);
              s'.done == issued.done && s'.world == issued.world
            else s'.done == s.done && s'.world == s.world
  {
  }

  lemma StepSerial(c: Config, w0: World, s: State, st: Step)
    requires IndependentPlans(c.plans) && Shape(c, s) && HistoryFits(c, s) && Enabled(c, s, st)
    requires Sequential(s.done, w0) == Some(s.world)
    ensures Sequential(Next(c, s, st).done, w0) == Some(Next(c, s, st).world)
  {
    StepIssues(c, s, st);
    if st.Exec? || st.SendUpload? {
      IssueSerial(c, w0, s, st.i, s.phases[st.i].k, st.o);
    }
  }

  lemma IssueSerial(c: Config, w0: World, s: State, i: nat, k: nat, o: Outcome)
    requires IndependentPlans(c.plans) && Shape(c, s) && HistoryFits(c, s) && i < |c.plans| && k < |c.plans[i]|
    requires Sequential(s.done, w0) == Some(s.world)
    ensures var s' := Issue(s, i, c.plans[i][k], o); Sequential(s'.done, w0) == Some(s'.world)
  {
    var op := c.plans[i][k];
    if Effect(op, s.world).Some? && o != Refused {
      IndependentOfDone(c, s, i, k);
      IssueInTurn(s.done, i, op, w0, s.world);
    }
  }

  /** Every interleaving, whatever fails: Proxmox is in the state that running the nodes one by one in
      name order gives, each node cut after the operations of its own that took effect. */
  lemma {:induction false} RunSerial(c: Config, w0: World, s: State, steps: seq<Step>)
    requires IndependentPlans(c.plans) && Inv(c, s) && Legal(c, s, steps)
    requires Sequential(s.done, w0) == Some(s.world)
    ensures Sequential(After(c, s, steps).done, w0) == Some(After(c, s, steps).world)
    decreases |steps|
  {
    if steps != [] {
      StepKeepsInv(c, s, steps[0]);
      StepSerial(c, w0, s, steps[0]);
      RunSerial(c, w0, Next(c, s, steps[0]), steps[1..]);
    }
  }

  lemma {:induction false} FlattenEmpty(lists: seq<seq<Op>>)
    requires forall i :: 0 <= i < |lists| ==> lists[i] == []
    ensures Flatten(lists) == []
  {
    if lists != [] {
      FlattenEmpty(lists[1..]);
    }
  }

  lemma Serializable(c: Config, w: World, steps: seq<Step>)
    requires IndependentPlans(c.plans) && Legal(c, Init(c, w), steps)
    ensures var s := After(c, Init(c, w), steps);
            && Sequential(s.done, w) == Some(s.world)
            && forall i :: 0 <= i < |c.plans| ==> s.done[i] <= c.plans[i]
  {
    var s0, s := Init(c, w), After(c, Init(c, w), steps);
    InitInv(c, w);
    FlattenEmpty(s0.done);
    RunSerial(c, w, s0, steps);
    RunKeepsInv(c, s0, steps);
    forall i | 0 <= i < |c.plans| ensures s.done[i] <= c.plans[i] {
      DonePrefix(c, s, i);
    }
  }

  /** A finished run that returns nil has the effect of applying every node's plan one by one,
      for every interleaving, every concurrency limit and both error modes. */
  lemma CleanRunIsSequential(c: Config, w: World, steps: seq<Step>)
    requires IndependentPlans(c.plans) && Legal(c, Init(c, w), steps)
    requires Final(After(c, Init(c, w), steps)) && ReturnsNil(c, After(c, Init(c, w), steps))
    ensures Sequential(c.plans, w) == Some(After(c, Init(c, w), steps).world)
  {
    Serializable(c, w, steps);
    NilIffAllComplete(c, w, steps);
    assert After(c, Init(c, w), steps).done == c.plans;
  }

  // --- concurrency adds no failures ----------------------------------------------

  /** Nobody cancels from outside and the environment lets every acceptable call through. */
  predicate Smooth(steps: seq<Step>) {
    forall k :: 0 <= k < |steps| ==>
      !steps[k].CancelParent? && (steps[k].Exec? || steps[k].SendUpload? ==> steps[k].o == Done)
  }

  predicate Unharmed(p: Phase) {
    match p
    case Unlocking(_, ok, _) => ok
    case Returned(r) => r == Completed
    case Closing(r) => r == Completed
    case Finished(r) => r == Completed
    case _ => true
  }

  /** What each node has not done yet. */
  function Rests(plans: seq<seq<Op>>, done: seq<seq<Op>>): (r: seq<seq<Op>>)
    requires |plans| == |done|
    ensures |r| == |plans|
  {
    seq(|plans|, i requires 0 <= i < |plans| => if done[i] <= plans[i] then plans[i][|done[i]|..] else [])
  }

  /** The first operation of node i may as well come before everything of the nodes ahead of it. */
  lemma TakeTurnEarly(lists: seq<seq<Op>>, i: nat, op: Op, rest: seq<Op>, w: World)
    requires i < |lists| && lists[i] == [op] + rest
    requires forall j, b :: 0 <= j < i && 0 <= b < |lists[j]| ==> Independent(op, lists[j][b])
    ensures Sequential(lists, w) == if Effect(op, w).Some? then Sequential(lists[i := rest], Effect(op, w).value) else None
  {
    var ahead, later := Flatten(lists[..i]), rest + Flatten(lists[i + 1..]);
    FlattenAt(lists, i);
    FlattenAt(lists[i := rest], i);
    assert lists[i := rest][..i] == lists[..i] && lists[i := rest][i + 1..] == lists[i + 1..];
    assert Flatten(lists) == (ahead + [op]) + later;
    assert Flatten(lists[i := rest]) == ahead + later;
    assert ([op] + ahead) + later == [op] + (ahead + later);
    forall k | 0 <= k < |ahead| ensures Independent(op, ahead[k]) {
      FlattenMember(lists[..i], k);
      var j, b :| 0 <= j < |lists[..i]| && 0 <= b < |lists[..i][j]| && lists[..i][j][b] == ahead[k];
      assert lists[j][b] == ahead[k];
    }
    CommutePast(ahead, op, w);
    RunConcat(ahead + [op], later, w);
    RunConcat([op] + ahead, later, w);
    RunConcat([op], ahead + later, w);
    RunOne(op, w);
  }

  predicate OnCourse(c: Config, s: State, target: World) {
    && Inv(c, s)
    && (forall i :: 0 <= i < |s.phases| ==> Unharmed(s.phases[i]))
    && Sequential(Rests(c.plans, s.done), s.world) == Some(target)
  }

  /** The next operation of node i is accepted, and what is left afterwards still leads to the target. */
  lemma IssueOnCourse(c: Config, s: State, i: nat, k: nat, target: World)
    requires IndependentPlans(c.plans) && Shape(c, s) && HistoryFits(c, s)
    requires i < |c.plans| && k < |c.plans[i]| && s.done[i] == c.plans[i][..k]
    requires Sequential(Rests(c.plans, s.done), s.world) == Some(target)
    ensures Perform(c.plans[i][k], Done, s.world).1
    ensures var s' := Issue(s, i, c.plans[i][k], Done); Sequential(Rests(c.plans, s'.done), s'.world) == Some(target)
  {
    var op, rest, rests := c.plans[i][k], c.plans[i][k + 1..], Rests(c.plans, s.done);
    RestsAfter(c.plans, s.done, i, k);
    forall j, b | 0 <= j < i && 0 <= b < |rests[j]| ensures Independent(op, rests[j][b]) {
      RestOfPlan(c.plans, s.done, j, b);
    }
    TakeTurnEarly(rests, i, op, rest, s.world);
  }

  lemma RestOfPlan(plans: seq<seq<Op>>, done: seq<seq<Op>>, j: nat, b: nat)
    requires |plans| == |done| && j < |plans| && b < |Rests(plans, done)[j]|
    ensures |done[j]| + b < |plans[j]| && Rests(plans, done)[j][b] == plans[j][|done[j]| + b]
  {
  }

  /** What is left of the plans before and after operation k of node i. */
  lemma RestsAfter(plans: seq<seq<Op>>, done: seq<seq<Op>>, i: nat, k: nat)
    requires |plans| == |done| && i < |plans| && k < |plans[i]| && done[i] == plans[i][..k]
    ensures Rests(plans, done)[i] == [plans[i][k]] + plans[i][k + 1..]
    ensures Rests(plans, done[i := done[i] + [plans[i][k]]]) == Rests(plans, done)[i := plans[i][k + 1..]]
  {
    assert plans[i][..k] + [plans[i][k]] == plans[i][..k + 1];
  }

  lemma SmoothOne(st: Step)
    requires Smooth([st])
    ensures !st.CancelParent? && (Calls(st) ==> st.o == Done)
  {
    assert !([st][0]).CancelParent? && (Calls([st][0]) ==> [st][0].o == Done);
  }

  /** What a call that is answered with success does to its node and to the rest. */
  lemma GoodCall(c: Config, s: State, st: Step)
    requires Shape(c, s) && Enabled(c, s, st) && !st.CancelParent? && Calls(st) && st.o == Done
    requires Perform(c.plans[st.i][s.phases[st.i].k], Done, s.world).1
    ensures var s', issued := Next(c, s, st), Issue(s, st.i, c.plans[st.i][s.phases[st.i].k], Done);
            && s'.done == issued.done && s'.world == issued.world && Unharmed(s'.phases[st.i]) && s'.cancelled == s.cancelled
  {
  }

  /** A step without a call does no harm to an unharmed node. */
  lemma GoodQuiet(c: Config, s: State, st: Step)
    requires Shape(c, s) && Enabled(c, s, st) && !st.CancelParent? && !Calls(st) && Unharmed(s.phases[st.i]) && !s.cancelled
    ensures var s' := Next(c, s, st); Unharmed(s'.phases[st.i]) && !s'.cancelled
  {
  }

  lemma StepUnharmed(c: Config, s: State, st: Step, target: World)
    requires IndependentPlans(c.plans) && OnCourse(c, s, target) && !s.cancelled
    requires Enabled(c, s, st) && Smooth([st])
    ensures !st.CancelParent? && Unharmed(Next(c, s, st).phases[st.i]) && !Next(c, s, st).cancelled
    ensures Sequential(Rests(c.plans, Next(c, s, st).done), Next(c, s, st).world) == Some(target)
  {
    SmoothOne(st);
    var i, p := st.i, s.phases[st.i];
    assert PhaseFits(c, c.plans[i], p, s.done[i]) && Unharmed(p);
    if Calls(st) {
      IssueExtends(c, s, st);
      IssueOnCourse(c, s, i, p.k, target);
      GoodCall(c, s, st);
    } else {
      QuietMoves(c, s, st);
      GoodQuiet(c, s, st);
    }
  }

  lemma StepStaysOnCourse(c: Config, s: State, st: Step, target: World)
    requires IndependentPlans(c.plans) && OnCourse(c, s, target) && !s.cancelled
    requires Enabled(c, s, st) && Smooth([st])
    ensures OnCourse(c, Next(c, s, st), target) && !Next(c, s, st).cancelled
  {
    StepUnharmed(c, s, st, target);
    StepKeepsInv(c, s, st);
  }

  lemma {:induction false} RunStaysOnCourse(c: Config, s: State, steps: seq<Step>, target: World)
    requires IndependentPlans(c.plans) && OnCourse(c, s, target) && !s.cancelled
    requires Legal(c, s, steps) && Smooth(steps)
    ensures OnCourse(c, After(c, s, steps), target)
    decreases |steps|
  {
    if steps != [] {
      StepStaysOnCourse(c, s, steps[0], target);
      assert Smooth(steps[1..]) by {
        assert forall k :: 0 <= k < |steps[1..]| ==> steps[1..][k] == steps[k + 1];
      }
      RunStaysOnCourse(c, Next(c, s, steps[0]), steps[1..], target);
    }
  }

  /** If the nodes could be applied one by one, then no interleaving makes any of them fail. */
  lemma ConcurrencyAddsNoFailure(c: Config, w: World, steps: seq<Step>)
    requires IndependentPlans(c.plans) && Sequential(c.plans, w).Some?
    requires Legal(c, Init(c, w), steps) && Smooth(steps) && Final(After(c, Init(c, w), steps))
    ensures ReturnsNil(c, After(c, Init(c, w), steps))
    ensures Sequential(c.plans, w) == Some(After(c, Init(c, w), steps).world)
  {
    InitInv(c, w);
    var s := Init(c, w);
    assert Rests(c.plans, s.done) == c.plans;
    RunStaysOnCourse(c, s, steps, Sequential(c.plans, w).value);
    NilIffAllComplete(c, w, steps);
    CleanRunIsSequential(c, w, steps);
  }

  // --- error accounting ---------------------------------------------------------

  /** nil is returned exactly when every node went through its whole list. */
  lemma NilIffAllComplete(c: Config, w: World, steps: seq<Step>)
    requires Legal(c, Init(c, w), steps) && Final(After(c, Init(c, w), steps))
    ensures var s := After(c, Init(c, w), steps);
            ReturnsNil(c, s) <==> forall i :: 0 <= i < |c.plans| ==> s.phases[i].r == Completed
    ensures var s := After(c, Init(c, w), steps);
            ReturnsNil(c, s) ==> forall i :: 0 <= i < |c.plans| ==> s.done[i] == c.plans[i]
  {
    InitInv(c, w);
    RunKeepsInv(c, Init(c, w), steps);
    var s := After(c, Init(c, w), steps);
    if c.continueOnError {
      if s.errs != [] {
        assert OnRecord(c, s, s.errs[0]);
      }
    } else if s.firstErr == None {
      forall i | 0 <= i < |c.plans| ensures s.phases[i].r == Completed {
        assert !OnRecord(c, s, NodeError(i, ResultOf(s.phases[i])));
      }
    }
    forall i | 0 <= i < |c.plans| && s.phases[i].r == Completed ensures s.done[i] == c.plans[i] {
      assert PhaseFits(c, c.plans[i], s.phases[i], s.done[i]);
    }
  }

  /** Continue-on-error: every node takes a slot and ends on its own account, and the reported errors
      are those of the failing nodes, each of them once. */
  lemma ContinueReportsAll(c: Config, w: World, steps: seq<Step>)
    requires c.continueOnError && Legal(c, Init(c, w), steps) && Final(After(c, Init(c, w), steps))
    ensures var s := After(c, Init(c, w), steps);
            && (forall i :: 0 <= i < |c.plans| ==> s.phases[i].r == Completed || s.phases[i].r.Failed?)
            && (forall e :: e in multiset(s.errs) ==> e.node < |c.plans| && s.phases[e.node].r == e.result && Failing(e.result))
            && (forall i :: 0 <= i < |c.plans| && Failing(s.phases[i].r) ==> multiset(s.errs)[NodeError(i, s.phases[i].r)] == 1)
  {
    InitInv(c, w);
    RunKeepsInv(c, Init(c, w), steps);
    var s := After(c, Init(c, w), steps);
    forall i | 0 <= i < |c.plans| ensures s.phases[i].r == Completed || s.phases[i].r.Failed? {
      assert PhaseFits(c, c.plans[i], s.phases[i], s.done[i]);
    }
    forall e | e in multiset(s.errs) ensures OnRecord(c, s, e) {
      assert e in s.errs;
    }
    forall i | 0 <= i < |c.plans| && Failing(s.phases[i].r)
      ensures multiset(s.errs)[NodeError(i, s.phases[i].r)] == 1
    {
      DistinctOnce(s.errs, NodeError(i, s.phases[i].r));
    }
  }

  lemma {:induction false} DistinctOnce(errs: seq<NodeError>, e: NodeError)
    requires forall j, k :: 0 <= j < k < |errs| ==> errs[j].node != errs[k].node
    ensures multiset(errs)[e] == if e in errs then 1 else 0
  {
    if errs != [] {
      assert errs == [errs[0]] + errs[1..];
      DistinctOnce(errs[1..], e);
      assert forall k :: 0 <= k < |errs[1..]| ==> errs[1..][k] == errs[k + 1] && errs[1..][k].node != errs[0].node;
    }
  }

  /** Some step of the run is node i's call k, and that call was not answered with success; when `alone` is asked for,
      nothing had been cancelled by then. */
  predicate CallFailed(c: Config, s: State, steps: seq<Step>, i: nat, k: nat, alone: bool)
    requires Shape(c, s) && Legal(c, s, steps)
    decreases |steps|
  {
    steps != [] &&
    (FailsNow(c, s, steps[0], i, k, alone) || CallFailed(c, Next(c, s, steps[0]), steps[1..], i, k, alone))
  }

  predicate FailsNow(c: Config, s: State, st: Step, i: nat, k: nat, alone: bool)
    requires Shape(c, s) && Enabled(c, s, st)
  {
    && !st.CancelParent? && st.i == i && Calls(st) && s.phases[i].k == k && !Perform(c.plans[i][k], st.o, s.world).1
    && (alone ==> !s.cancelled)
  }

  /** The node's failure at operation k is decided. */
  predicate Doomed(p: Phase, k: nat, alone: bool) {
    match p
    case Unlocking(k', ok, underCancel) => k' == k && !ok && (alone ==> !underCancel)
    case Returned(r) => r.Failed? && r.at == k && (alone ==> !r.underCancel)
    case Closing(r) => r.Failed? && r.at == k && (alone ==> !r.underCancel)
    case Finished(r) => r.Failed? && r.at == k && (alone ==> !r.underCancel)
    case _ => false
  }

  lemma DoomedNow(c: Config, s: State, st: Step, i: nat, k: nat, alone: bool)
    requires Shape(c, s) && Enabled(c, s, st) && i < |c.plans|
    requires Doomed(Next(c, s, st).phases[i], k, alone) && !Doomed(s.phases[i], k, alone)
    ensures FailsNow(c, s, st, i, k, alone)
  {
    if !st.CancelParent? && st.i == i && !Calls(st) { QuietMoves(c, s, st); }
  }

  lemma {:induction false} FailureHasCall(c: Config, s: State, steps: seq<Step>, i: nat, k: nat, alone: bool)
    requires Shape(c, s) && Legal(c, s, steps) && i < |c.plans|
    requires Doomed(After(c, s, steps).phases[i], k, alone) && !Doomed(s.phases[i], k, alone)
    ensures CallFailed(c, s, steps, i, k, alone)
    decreases |steps|
  {
    var next := Next(c, s, steps[0]);
    if Doomed(next.phases[i], k, alone) {
      DoomedNow(c, s, steps[0], i, k, alone);
    } else {
      FailureHasCall(c, next, steps[1..], i, k, alone);
    }
  }

  /** A node's result is no invention: a node that failed at operation k made that call, and it did not succeed. */
  lemma FailedNodeHasCall(c: Config, w: World, steps: seq<Step>, i: nat)
    requires Legal(c, Init(c, w), steps) && i < |c.plans|
    requires var p := After(c, Init(c, w), steps).phases[i]; p.Finished? && p.r.Failed?
    ensures CallFailed(c, Init(c, w), steps, i, After(c, Init(c, w), steps).phases[i].r.at, false)
  {
    FailureHasCall(c, Init(c, w), steps, i, After(c, Init(c, w), steps).phases[i].r.at, false);
  }

  /** Fail-fast: the returned error belongs to a node that failed, and it is a root cause: unless the
      caller cancelled, it is an operation that failed before anything was cancelled. */
  lemma FailFastReportsRootCause(c: Config, w: World, steps: seq<Step>)
    requires !c.continueOnError && Legal(c, Init(c, w), steps) && Final(After(c, Init(c, w), steps))
    requires !ReturnsNil(c, After(c, Init(c, w), steps))
    ensures var s := After(c, Init(c, w), steps);
            var e := s.firstErr.value;
            && e.node < |c.plans| && s.phases[e.node].r == e.result && Failing(e.result)
            && (!s.external ==> e.result.Failed? && CallFailed(c, Init(c, w), steps, e.node, e.result.at, true))
  {
    InitInv(c, w);
    RunKeepsInv(c, Init(c, w), steps);
    var s := After(c, Init(c, w), steps);
    if !s.external {
      FailureHasCall(c, Init(c, w), steps, s.firstErr.value.node, s.firstErr.value.result.at, true);
    }
  }

  /** The first error recorded is the one that stays. */
  lemma {:induction false} FirstErrorStays(c: Config, s: State, steps: seq<Step>)
    requires Shape(c, s) && Legal(c, s, steps) && s.firstErr.Some?
    ensures After(c, s, steps).firstErr == s.firstErr
    decreases |steps|
  {
    if steps != [] {
      FirstErrorStays(c, Next(c, s, steps[0]), steps[1..]);
    }
  }

  // --- progress -------------------------------------------------------------------

  /** No reachable state with an unfinished node is stuck. */
  lemma NoDeadlock(c: Config, s: State)
    requires Inv(c, s) && c.limit >= 1 && !Final(s)
    ensures exists st: Step :: !st.CancelParent? && Enabled(c, s, st)
  {
    if i :| 0 <= i < |s.phases| && !s.phases[i].Waiting? && !s.phases[i].Finished? {
      NodeCanMove(c, s, i);
    } else {
      SumZero(SlotOf(c), s.phases);
      var i :| 0 <= i < |s.phases| && s.phases[i].Waiting?;
      assert Enabled(c, s, Acquire(if c.continueOnError then s.spawned else i));
    }
  }

  lemma NodeCanMove(c: Config, s: State, i: nat)
    requires Inv(c, s) && i < |s.phases| && !s.phases[i].Waiting? && !s.phases[i].Finished?
    ensures exists st: Step :: !st.CancelParent? && Enabled(c, s, st)
  {
    var p, plan := s.phases[i], c.plans[i];
    assert PhaseFits(c, plan, p, s.done[i]);
    match p
    case Working(k) =>
      if k == |plan| {
        assert Enabled(c, s, Complete(i));
      } else if !plan[k].Upload? {
        assert Enabled(c, s, Exec(i, Done));
      } else if s.holder == None {
        assert Enabled(c, s, Lock(i));
      } else {
        var h := s.holder.value;
        assert PhaseFits(c, c.plans[h], s.phases[h], s.done[h]);
        assert Enabled(c, s, if s.phases[h].Uploading? then SendUpload(h, Done) else Unlock(h));
      }
    case Uploading(k) => assert Enabled(c, s, SendUpload(i, Done));
    case Unlocking(_, _, _) => assert Enabled(c, s, Unlock(i));
    case Returned(_) =>
      HolderCounts(c, s, i);
      assert Enabled(c, s, if c.continueOnError then Record(i) else Release(i));
    case Closing(_) =>
      HolderCounts(c, s, i);
      assert Enabled(c, s, if c.continueOnError then Release(i) else Record(i));
  }

  lemma HolderCounts(c: Config, s: State, i: nat)
    requires SlotsCounted(c, s) && i < |s.phases|
    ensures HoldsSlot(c, s.phases[i]) ==> s.slots > 0
  {
    SumZero(SlotOf(c), s.phases);
    assert HoldsSlot(c, s.phases[i]) ==> SlotOf(c)(i, s.phases[i]) == 1;
  }

  lemma NodeProgresses(c: Config, s: State, st: Step)
    requires Shape(c, s) && Enabled(c, s, st) && !st.CancelParent?
    requires PhaseFits(c, c.plans[st.i], s.phases[st.i], s.done[st.i])
    ensures Left(c.plans[st.i], Next(c, s, st).phases[st.i]) < Left(c.plans[st.i], s.phases[st.i])
    ensures Next(c, s, st).external == s.external
  {
    var i := st.i;
    if Calls(st) {
      IssueExtends(c, s, st);
      CallProgresses(c.plans[i], s.phases[i], s.done[i], Next(c, s, st).phases[i], Next(c, s, st).done[i]);
    } else {
      QuietMoves(c, s, st);
      QuietProgresses(c, c.plans[i], s.phases[i], s.done[i], st);
    }
  }

  lemma CallProgresses(plan: seq<Op>, p: Phase, d: seq<Op>, p': Phase, d': seq<Op>)
    requires (p.Working? || p.Uploading?) && p.k < |plan| && Called(plan, p, d, p', d')
    ensures Left(plan, p') < Left(plan, p)
  {
  }

  lemma QuietProgresses(c: Config, plan: seq<Op>, p: Phase, d: seq<Op>, st: Step)
    requires PhaseFits(c, plan, p, d) && QuietFrom(c, plan, p, st)
    ensures Left(plan, QuietPhase(c, plan, p, st)) < Left(plan, p)
  {
  }

  /** What a node still has to do: three units an operation (lock, upload, unlock) and four to leave. */
  function Left(plan: seq<Op>, p: Phase): nat {
    match p
    case Waiting => 3 * |plan| + 5
    case Working(k) => 3 * (if k <= |plan| then |plan| - k else 0) + 4
    case Uploading(k) => 3 * (if k <= |plan| then |plan| - k else 0) + 3
    case Unlocking(k, _, _) => 3 * (if k <= |plan| then |plan| - k else 0) + 2
    case Returned(_) => 3
    case Closing(_) => 1
    case Finished(_) => 0
  }

  function LeftOf(c: Config): (nat, Phase) -> nat {
    (i: nat, p: Phase) => if i < |c.plans| then Left(c.plans[i], p) else 0
  }

  function Measure(c: Config, s: State): nat {
    Sum(LeftOf(c), s.phases) + (if s.external then 0 else 1)
  }

  lemma StepDecreases(c: Config, s: State, st: Step)
    requires Shape(c, s) && HistoryFits(c, s) && Enabled(c, s, st)
    ensures Measure(c, Next(c, s, st)) < Measure(c, s)
  {
    if !st.CancelParent? {
      var i, p' := st.i, Next(c, s, st).phases[st.i];
      assert PhaseFits(c, c.plans[i], s.phases[i], s.done[i]);
      NodeProgresses(c, s, st);
      SumUpdate(LeftOf(c), s.phases, i, p');
      assert Next(c, s, st).phases == s.phases[i := p'];
    }
  }

  /** Every run ends: no run is longer than the measure of its first state, and one that cannot go
      on has every node finished. */
  lemma {:induction false} RunsEnd(c: Config, s: State, steps: seq<Step>)
    requires Inv(c, s) && c.limit >= 1 && Legal(c, s, steps)
    ensures |steps| <= Measure(c, s)
    ensures Final(After(c, s, steps)) || exists st: Step :: !st.CancelParent? && Enabled(c, After(c, s, steps), st)
    decreases |steps|
  {
    if steps == [] {
      if !Final(s) {
        NoDeadlock(c, s);
      }
    } else {
      StepKeepsInv(c, s, steps[0]);
      StepDecreases(c, s, steps[0]);
      RunsEnd(c, Next(c, s, steps[0]), steps[1..]);
    }
  }
}
