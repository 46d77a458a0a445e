/** Trace records, their hashes and the chain that links them. The JSON codec and SHA-256 are
    parameters; the predicates below are all that is assumed of them. */
module TraceSchema {
  import opened Wrappers

  datatype Record = Record(
    schemaVersion: int, ts: int, stepID: string, tool: string, input: string, output: string,
    decision: string, denyRule: string, error: string, durationMs: int, prevHash: string, hash: string)

  /** `encode` fails on a record whose raw JSON fields are not JSON. `norm` is what encoding followed by
      decoding makes of a record: JSON compacts the raw fields, and replaces invalid text by U+FFFD. */
  datatype Codec = Codec(
    encode: Record -> Option<string>,
    decode: string -> Option<Record>,
    norm: Record -> Record,
    sha: string -> string)

  const CURRENT_SCHEMA_VERSION := 1

  /** One line of JSON: not empty and without line breaks. */
  predicate IsLine(line: string) { line != "" && '\n' !in line && '\r' !in line }

  /** A value of the fields that link the chain: a hash, or nothing. */
  ghost predicate IsDigest(c: Codec, h: string) { h == "" || exists b :: c.sha(b) == h }

  /** What is assumed of the codec, for one record and one value of its hash field: an encoding is a line that decodes
      to the normalised record; normalising works field by field and keeps the version and digests; and whether a record
      can be encoded does not depend on its hash field. */
  ghost predicate CodecLaw(c: Codec, r: Record, h: string) {
    && (c.encode(r).Some? ==> IsLine(c.encode(r).value) && c.decode(c.encode(r).value) == Some(c.norm(r)))
    && c.norm(r).schemaVersion == r.schemaVersion
    && (IsDigest(c, r.prevHash) ==> c.norm(r).prevHash == r.prevHash)
    && (IsDigest(c, r.hash) ==> c.norm(r).hash == r.hash)
    && c.norm(r.(hash := h)).(hash := "") == c.norm(r).(hash := "")
    && (c.encode(r.(hash := h)).Some? <==> c.encode(r).Some?)
  }

  ghost predicate ValidCodec(c: Codec) {
    && (forall r: Record, h: string :: CodecLaw(c, r, h))
    && (forall b :: c.sha(b) != "")
  }

  ghost predicate CollisionFree(c: Codec) {
    forall a, b :: c.sha(a) == c.sha(b) ==> a == b
  }

  /** The hash of the encoding with the hash field blank. */
  function ComputeHash(c: Codec, r: Record): Option<string> {
    match c.encode(r.(hash := ""))
    case None => None
    case Some(b) => Some(c.sha(b))
  }

  datatype Err = UnknownSchema | EncodeFailed | HashMismatch | ChainBroken | UnmarshalFailed | LineTooLong

  function Validate(c: Codec, r: Record): Option<Err> {
    if r.schemaVersion != CURRENT_SCHEMA_VERSION then Some(UnknownSchema)
    else match ComputeHash(c, r)
      case None => Some(EncodeFailed)
      case Some(want) => if want != r.hash then Some(HashMismatch) else None
  }

  /** What is wrong with record i, its own fields first and then its link. */
  function Fault(c: Codec, recs: seq<Record>, i: nat): Option<Err>
    requires i < |recs|
  {
    match Validate(c, recs[i])
    case Some(e) => Some(e)
    case None =>
      if recs[i].prevHash != (if i == 0 then "" else recs[i - 1].hash) then Some(ChainBroken) else None
  }

  predicate Verified(c: Codec, recs: seq<Record>) {
    forall i :: 0 <= i < |recs| ==> Fault(c, recs, i) == None
  }

  /** -1 for a valid chain, else the least faulty index: the shortest prefix that fails ends there. */
  method VerifyChain(c: Codec, recs: seq<Record>) returns (idx: int, err: Option<Err>)
    ensures -1 <= idx < |recs|
    ensures idx == -1 <==> Verified(c, recs)
    ensures idx == -1 <==> err == None
    ensures idx >= 0 ==> Verified(c, recs[..idx]) && !Verified(c, recs[..idx + 1]) && err == Fault(c, recs, idx)
  {
    for i := 0 to |recs|
      invariant forall j :: 0 <= j < i ==> Fault(c, recs, j) == None
    {
      var r := recs[i];
      err := Validate(c, r);
      if err == None && i == 0 && r.prevHash != "" {
        err := Some(ChainBroken);
      }
      if err == None && i > 0 && r.prevHash != recs[i - 1].hash {
        err := Some(ChainBroken);
      }
      if err.Some? {
        FaultInPrefix(c, recs, i);
        assert Fault(c, recs[..i + 1], i) == Fault(c, recs, i);
        return i, err;
      }
    }
    return -1, None;
  }

  lemma FaultInPrefix(c: Codec, recs: seq<Record>, n: nat)
    requires n <= |recs|
    ensures forall j :: 0 <= j < n ==> Fault(c, recs[..n], j) == Fault(c, recs, j)
  {
  }

  lemma PrefixVerified(c: Codec, recs: seq<Record>, n: nat)
    requires Verified(c, recs) && n <= |recs|
    ensures Verified(c, recs[..n])
  {
    FaultInPrefix(c, recs, n);
  }

  /** The canonical form of a record: what its hash is computed over. */
  function Canonical(c: Codec, r: Record): Option<string> { c.encode(r.(hash := "")) }

  /** Decoding does not change what the hash is computed over. Invalid text does not survive: its replacement is
      encoded differently from the way it was written. */
  predicate Survives(c: Codec, r: Record) { Canonical(c, c.norm(r)) == Canonical(c, r) }

  /** The hash stays right. */
  predicate HashKept(c: Codec, r: Record) { ComputeHash(c, c.norm(r)) == ComputeHash(c, r) }

  /** A record keeps its hash exactly when it survives. */
  lemma HashKeptIff(c: Codec, r: Record)
    requires CollisionFree(c)
    ensures HashKept(c, r) <==> Survives(c, r)
  {
  }

  lemma LinkIsDigest(c: Codec, recs: seq<Record>, i: nat)
    requires Verified(c, recs) && i < |recs|
    ensures IsDigest(c, recs[i].prevHash)
  {
    assert Fault(c, recs, i) == None;
    if i > 0 {
      assert Fault(c, recs, i - 1) == None;
      assert c.sha(Canonical(c, recs[i - 1]).value) == recs[i - 1].hash;
    }
  }

  /** Two verified chains that end in the same hash have the same length and the same records, up to
      what the hash can see; the last hash commits to the whole trace. */
  lemma {:induction false} LastHashCommits(c: Codec, a: seq<Record>, b: seq<Record>)
    requires ValidCodec(c) && CollisionFree(c)
    requires Verified(c, a) && Verified(c, b) && a != [] && b != []
    requires a[|a| - 1].hash == b[|b| - 1].hash
    ensures |a| == |b| && forall i :: 0 <= i < |a| ==> Canonical(c, a[i]) == Canonical(c, b[i]) && c.norm(a[i]) == c.norm(b[i])
    decreases |a|
  {
    var m, n := |a| - 1, |b| - 1;
    assert Fault(c, a, m) == None && Fault(c, b, n) == None;
    SameHashSameRecord(c, a[m], b[n]);
    LinkIsDigest(c, a, m);
    LinkIsDigest(c, b, n);
    if m > 0 {
      assert Fault(c, a, m - 1) == None;
    }
    if n > 0 {
      assert Fault(c, b, n - 1) == None;
    }
    if m > 0 && n > 0 {
      PrefixVerified(c, a, m);
      PrefixVerified(c, b, n);
      LastHashCommits(c, a[..m], b[..n]);
      forall i | 0 <= i < |a| ensures Canonical(c, a[i]) == Canonical(c, b[i]) && c.norm(a[i]) == c.norm(b[i]) {
        if i < m {
          assert a[..m][i] == a[i] && b[..n][i] == b[i];
        }
      }
    }
  }

  lemma SameHashSameRecord(c: Codec, r: Record, s: Record)
    requires ValidCodec(c) && CollisionFree(c)
    requires Validate(c, r) == None && Validate(c, s) == None && r.hash == s.hash
    ensures Canonical(c, r) == Canonical(c, s) && c.norm(r) == c.norm(s)
    ensures IsDigest(c, r.prevHash) && IsDigest(c, s.prevHash) ==> r.prevHash == s.prevHash
  {
    var r0, s0 := r.(hash := ""), s.(hash := "");
    assert c.sha(c.encode(r0).value) == c.sha(c.encode(s0).value) == r.hash;
    assert CodecLaw(c, r0, "") && CodecLaw(c, s0, "");
    assert CodecLaw(c, r, "") && CodecLaw(c, s, "");
    assert c.norm(r0) == c.norm(s0);
    SameButHash(c.norm(r), c.norm(s));
  }

  lemma SameButHash(r: Record, s: Record)
    requires r.(hash := "") == s.(hash := "") && r.hash == s.hash
    ensures r == s
  {
  }
}
