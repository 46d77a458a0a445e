/** Replaying a trace: walk the records, re-execute the executed ones, compare the outputs. */
module Replay {
  import opened Wrappers
  import opened TraceSchema

  datatype Mode = Strict | Observe | DryRun

  /** `failed` is the executor's error, if any. */
  datatype Result = Result(stepID: string, tool: string, matched: bool, failed: bool, diverged: bool)

  datatype ReplayError = ChainInvalid(idx: int, e: Err) | DivergedAt(i: nat)

  /** The executor may remember what it executed before: it sees the records executed so far, this one last.
      `None` is an execution error. */
  type Executor = seq<Record> -> Option<string>

  /** `canon` re-marshals a JSON text, or is `None` when the text is not JSON. */
  predicate EqualNormalized(canon: string -> Option<string>, a: string, b: string) {
    if a == "" && b == "" then true
    else if canon(a) == None || canon(b) == None then a == b
    else canon(a) == canon(b)
  }

  /** The comparison is an equivalence as long as the empty text is not JSON. */
  lemma EqualNormalizedEquivalence(canon: string -> Option<string>, a: string, b: string, d: string)
    requires canon("") == None
    ensures EqualNormalized(canon, a, a)
    ensures EqualNormalized(canon, a, b) ==> EqualNormalized(canon, b, a)
    ensures EqualNormalized(canon, a, b) && EqualNormalized(canon, b, d) ==> EqualNormalized(canon, a, d)
  {
  }

  /** Two outputs are equal when they are one text, or two JSON texts with one canonical form. */
  lemma EqualNormalizedIff(canon: string -> Option<string>, a: string, b: string)
    ensures EqualNormalized(canon, a, b) <==> a == b || (a + b != "" && canon(a).Some? && canon(b) == canon(a))
  {
  }

  /** The records handed to the executor are those with the decision `executed`, and none in a dry run. */
  lemma {:induction false} ExecutedMeans(mode: Mode, recs: seq<Record>, r: Record)
    ensures r in Executed(mode, recs) <==> mode != DryRun && r in recs && r.decision == "executed"
    ensures mode != DryRun && (forall x :: x in recs ==> x.decision == "executed") ==> Executed(mode, recs) == recs
  {
    if recs != [] {
      var init := recs[..|recs| - 1];
      ExecutedMeans(mode, init, r);
      assert recs == init + [recs[|recs| - 1]];
    }
  }

  predicate Executable(mode: Mode, r: Record) { mode != DryRun && r.decision == "executed" }

  /** The records of a list that this mode hands to the executor, in order. */
  function Executed(mode: Mode, recs: seq<Record>): seq<Record> {
    if recs == [] then []
    else Executed(mode, recs[..|recs| - 1]) + (if Executable(mode, recs[|recs| - 1]) then [recs[|recs| - 1]] else [])
  }

  /** Does record i, reached after all before it were replayed, diverge? */
  predicate Diverges(mode: Mode, exec: Executor, canon: string -> Option<string>, recs: seq<Record>, i: nat)
    requires i < |recs|
  {
    Executable(mode, recs[i]) &&
    match exec(Executed(mode, recs[..i + 1]))
    case None => true
    case Some(out) => !EqualNormalized(canon, out, recs[i].output)
  }

  predicate FitsRecord(mode: Mode, exec: Executor, canon: string -> Option<string>, recs: seq<Record>, i: nat, res: Result)
    requires i < |recs|
  {
    && res.stepID == recs[i].stepID && res.tool == recs[i].tool
    && res.diverged == Diverges(mode, exec, canon, recs, i) && res.matched == !res.diverged
    && (res.failed <==> Executable(mode, recs[i]) && exec(Executed(mode, recs[..i + 1])) == None)
  }

  lemma ExecutedNext(mode: Mode, recs: seq<Record>, i: nat)
    requires i < |recs|
    ensures Executed(mode, recs[..i + 1]) == Executed(mode, recs[..i]) + (if Executable(mode, recs[i]) then [recs[i]] else [])
  {
    assert recs[..i + 1][..i] == recs[..i];
  }

  lemma {:induction false} DryRunExecutesNothing(recs: seq<Record>)
    ensures Executed(DryRun, recs) == []
  {
    if recs != [] {
      DryRunExecutesNothing(recs[..|recs| - 1]);
    }
  }

  /** One record: skipped, or executed and compared. */
  method ReplayOne(exec: Executor, canon: string -> Option<string>, mode: Mode, recs: seq<Record>, i: nat, before: seq<Record>)
    returns (res: Result, calls: seq<Record>)
    requires i < |recs| && before == Executed(mode, recs[..i])
    ensures FitsRecord(mode, exec, canon, recs, i, res) && calls == Executed(mode, recs[..i + 1])
  {
    var rec := recs[i];
    ExecutedNext(mode, recs, i);
    calls := before;
    if mode == DryRun || rec.decision != "executed" {
      return Result(rec.stepID, rec.tool, true, false, false), calls;
    }
    calls := calls + [rec];
    var got := exec(calls);
    if got == None {
      return Result(rec.stepID, rec.tool, false, true, true), calls;
    }
    var same := EqualNormalized(canon, got.value, rec.output);
    return Result(rec.stepID, rec.tool, same, false, !same), calls;
  }

  /** `calls` is the list of records handed to the executor. */
  method Replay(c: Codec, recs: seq<Record>, exec: Executor, canon: string -> Option<string>, mode: Mode)
    returns (results: seq<Result>, err: Option<ReplayError>, calls: seq<Record>)
    ensures !Verified(c, recs) ==>
              && results == [] && calls == [] && err.Some? && err.value.ChainInvalid? && 0 <= err.value.idx < |recs|
              && Verified(c, recs[..err.value.idx]) && Some(err.value.e) == Fault(c, recs, err.value.idx)
    ensures |results| <= |recs| && forall i :: 0 <= i < |results| ==> FitsRecord(mode, exec, canon, recs, i, results[i])
    ensures calls == Executed(mode, recs[..|results|])
    ensures Verified(c, recs) && mode != Strict ==> err == None && |results| == |recs|
    ensures Verified(c, recs) && mode == Strict && err == None ==>
              |results| == |recs| && forall i :: 0 <= i < |recs| ==> !Diverges(mode, exec, canon, recs, i)
    ensures Verified(c, recs) && mode == Strict && err.Some? ==>
              && |results| > 0 && err == Some(DivergedAt(|results| - 1)) && Diverges(mode, exec, canon, recs, |results| - 1)
              && forall i :: 0 <= i < |results| - 1 ==> !Diverges(mode, exec, canon, recs, i)
    ensures mode == DryRun ==> calls == []
  {
    results, calls := [], [];
    assert recs[..0] == [];
    if mode == DryRun {
      forall n | 0 <= n <= |recs| ensures Executed(mode, recs[..n]) == [] {
        DryRunExecutesNothing(recs[..n]);
      }
    }
    var idx, broken := VerifyChain(c, recs);
    if broken.Some? {
      return results, Some(ChainInvalid(idx, broken.value)), calls;
    }
    for i := 0 to |recs|
      invariant |results| == i
      invariant forall j :: 0 <= j < i ==> FitsRecord(mode, exec, canon, recs, j, results[j])
      invariant mode == Strict ==> forall j :: 0 <= j < i ==> !Diverges(mode, exec, canon, recs, j)
      invariant calls == Executed(mode, recs[..i])
    {
      var res;
      res, calls := ReplayOne(exec, canon, mode, recs, i, calls);
      results := results + [res];
      if res.diverged && mode == Strict {
        return results, Some(DivergedAt(i)), calls;
      }
    }
    assert recs[..|recs|] == recs;
    return results, None, calls;
  }
}
