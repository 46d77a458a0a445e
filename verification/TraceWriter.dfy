/** The append-only writer, and the whole life of a trace file: any number of rounds of open, write and
    close by one writer, then a load. */
module TraceWriter {
  import opened Wrappers
  import opened TraceSchema
  import opened TraceFile

  class File {
    var data: string

    constructor ()
      ensures data == ""
    {
      data := "";
    }
  }

  /** The hash a writer resumes from; an unreadable last line counts as none. */
  function ResumeHash(c: Codec, data: string): string {
    match LastRecord(c, data)
    case Found(r) => r.hash
    case _ => ""
  }

  /** The record as written: defaults filled in, linked and hashed. */
  function Stamp(c: Codec, rec: Record, now: int, prev: string): Option<Record> {
    var r := rec.(schemaVersion := if rec.schemaVersion == 0 then CURRENT_SCHEMA_VERSION else rec.schemaVersion,
                  ts := if rec.ts == 0 then now else rec.ts,
                  prevHash := prev);
    match ComputeHash(c, r)
    case None => None
    case Some(h) => if c.encode(r.(hash := h)) == None then None else Some(r.(hash := h))
  }

  /** The written record is the caller's, but for the version, the time and the two hashes. */
  predicate SameRecord(e: Entry, r: Record) {
    && r.stepID == e.rec.stepID && r.tool == e.rec.tool && r.input == e.rec.input && r.output == e.rec.output
    && r.decision == e.rec.decision && r.denyRule == e.rec.denyRule && r.error == e.rec.error && r.durationMs == e.rec.durationMs
    && r.ts == (if e.rec.ts != 0 then e.rec.ts else e.now)
    && r.schemaVersion == (if e.rec.schemaVersion != 0 then e.rec.schemaVersion else 1)
  }

  lemma StampKeeps(c: Codec, e: Entry, prev: string)
    requires Stamp(c, e.rec, e.now, prev).Some?
    ensures var r := Stamp(c, e.rec, e.now, prev).value;
            SameRecord(e, r) && r.prevHash == prev && c.encode(r.(hash := "")).Some? && r.hash == c.sha(c.encode(r.(hash := "")).value)
  {
    var r := Stamp(c, e.rec, e.now, prev).value;
    assert r.(hash := "").(hash := "") == r.(hash := "");
  }

  /** A record is refused only when it cannot be encoded. */
  lemma WritesIff(c: Codec, e: Entry, prev: string)
    requires ValidCodec(c)
    ensures Stamp(c, e.rec, e.now, prev).Some? <==>
              c.encode(e.rec.(schemaVersion := if e.rec.schemaVersion == 0 then 1 else e.rec.schemaVersion,
                              ts := if e.rec.ts == 0 then e.now else e.rec.ts, prevHash := prev)).Some?
  {
    var r := e.rec.(schemaVersion := if e.rec.schemaVersion == 0 then 1 else e.rec.schemaVersion,
                    ts := if e.rec.ts == 0 then e.now else e.rec.ts, prevHash := prev);
    assert CodecLaw(c, r, "");
    if c.encode(r.(hash := "")).Some? { assert CodecLaw(c, r, c.sha(c.encode(r.(hash := "")).value)); }
  }

  /** The log is some of the entries, in order, one record each. */
  ghost predicate ComesFrom(log: seq<Record>, entries: seq<Entry>)
    decreases |entries|
  {
    if entries == [] then log == []
    else ComesFrom(log, entries[1..]) || (log != [] && SameRecord(entries[0], log[0]) && ComesFrom(log[1..], entries[1..]))
  }

  /** The entry can be written, whatever it is linked to. */
  ghost predicate CanWrite(c: Codec, e: Entry) { forall prev :: Stamp(c, e.rec, e.now, prev).Some? }

  /** What is logged are the entries; those that can be written are all there. */
  lemma {:induction false} LoggedComesFrom(c: Codec, prev: string, entries: seq<Entry>)
    ensures ComesFrom(Logged(c, prev, entries), entries)
    ensures (forall e :: e in entries ==> CanWrite(c, e)) ==> |Logged(c, prev, entries)| == |entries|
    decreases |entries|
  {
    if entries != [] {
      var s := Stamp(c, entries[0].rec, entries[0].now, prev);
      if s == None {
        LoggedComesFrom(c, prev, entries[1..]);
        assert entries[0] in entries;
      } else {
        StampKeeps(c, entries[0], prev);
        LoggedComesFrom(c, s.value.hash, entries[1..]);
        assert Logged(c, prev, entries)[1..] == Logged(c, s.value.hash, entries[1..]);
      }
    }
  }

  lemma {:induction false} ComesFromBoth(a: seq<Record>, b: seq<Record>, es: seq<Entry>, fs: seq<Entry>)
    requires ComesFrom(a, es) && ComesFrom(b, fs)
    ensures ComesFrom(a + b, es + fs)
    decreases |es|
  {
    if es == [] {
      assert a + b == b && es + fs == fs;
    } else {
      assert (es + fs)[0] == es[0] && (es + fs)[1..] == es[1..] + fs;
      if ComesFrom(a, es[1..]) {
        ComesFromBoth(a, b, es[1..], fs);
      } else {
        ComesFromBoth(a[1..], b, es[1..], fs);
        assert (a + b)[0] == a[0] && (a + b)[1..] == a[1..] + b;
      }
    }
  }

  /** All rounds' entries, one after the other. */
  function Entries(rounds: seq<seq<Entry>>): seq<Entry> {
    if rounds == [] then [] else rounds[0] + Entries(rounds[1..])
  }

  lemma {:induction false} RoundsComeFrom(c: Codec, log: seq<Record>, before: seq<Entry>, rounds: seq<seq<Entry>>)
    requires ComesFrom(log, before)
    ensures ComesFrom(RoundsLog(c, log, rounds), before + Entries(rounds))
    decreases |rounds|
  {
    if rounds == [] {
      assert before + Entries(rounds) == before;
    } else {
      var prev := ResumeHash(c, Text(c, log));
      RoundComesFrom(c, log, before, prev, rounds[0]);
      RoundsComeFrom(c, log + Logged(c, prev, rounds[0]), before + rounds[0], rounds[1..]);
      AssocEntries(before, rounds[0], Entries(rounds[1..]));
    }
  }

  lemma RoundComesFrom(c: Codec, log: seq<Record>, before: seq<Entry>, prev: string, entries: seq<Entry>)
    requires ComesFrom(log, before)
    ensures ComesFrom(log + Logged(c, prev, entries), before + entries)
  {
    LoggedComesFrom(c, prev, entries);
    ComesFromBoth(log, Logged(c, prev, entries), before, entries);
  }

  lemma AssocEntries(a: seq<Entry>, b: seq<Entry>, c: seq<Entry>)
    ensures a + (b + c) == (a + b) + c
  {
  }

  lemma {:induction false} RoundsWriteAll(c: Codec, log: seq<Record>, rounds: seq<seq<Entry>>)
    requires forall e :: e in Entries(rounds) ==> CanWrite(c, e)
    ensures |RoundsLog(c, log, rounds)| == |log| + |Entries(rounds)|
    decreases |rounds|
  {
    if rounds != [] {
      LoggedComesFrom(c, ResumeHash(c, Text(c, log)), rounds[0]);
      RoundsWriteAll(c, log + Logged(c, ResumeHash(c, Text(c, log)), rounds[0]), rounds[1..]);
    }
  }

  function Line(c: Codec, r: Record): string {
    match c.encode(r)
    case None => ""
    case Some(b) => b + "\n"
  }

  class Writer {
    const codec: Codec
    const file: File
    var buf: string
    var prevHash: string

    /** What the file will hold once the buffer is flushed. */
    function Contents(): string
      reads this, file
    {
      file.data + buf
    }

    constructor (codec: Codec, file: File)
      ensures this.codec == codec && this.file == file && buf == "" && prevHash == ResumeHash(codec, file.data)
    {
      var last := ReadLastRecord(codec, file.data);
      this.codec, this.file, buf := codec, file, "";
      prevHash := if last.Found? then last.r.hash else "";
    }

    /** Append one record, or fail and leave everything alone. The buffer may spill into the file at any point. */
    method Write(rec: Record, now: int) returns (ok: bool)
      modifies this, file
      ensures var r := Stamp(codec, rec, now, old(prevHash));
              if r.Some? then ok && Contents() == old(Contents()) + Line(codec, r.value) && prevHash == r.value.hash
              else !ok && unchanged(this) && unchanged(file)
    {
      var r := rec;
      if r.schemaVersion == 0 {
        r := r.(schemaVersion := CURRENT_SCHEMA_VERSION);
      }
      if r.ts == 0 {
        r := r.(ts := now);
      }
      r := r.(prevHash := prevHash);
      var h := ComputeHash(codec, r);
      if h == None {
        return false;
      }
      r := r.(hash := h.value);
      var b := codec.encode(r);
      if b == None {
        return false;
      }
      Append(b.value);
      Append("\n");
      prevHash := h.value;
      ok := true;
    }

    method Append(text: string)
      modifies this`buf, file
      ensures Contents() == old(Contents()) + text
    {
      buf := buf + text;
      var spilled: nat :| spilled <= |buf|;
      file.data, buf := file.data + buf[..spilled], buf[spilled..];
    }

    /** Sync and close both flush. */
    method Close()
      modifies this`buf, file
      ensures file.data == old(Contents()) && buf == ""
    {
      file.data, buf := file.data + buf, "";
    }
  }

  // --- the life of a file ---------------------------------------------------------

  datatype Entry = Entry(rec: Record, now: int)

  /** The records one writer leaves behind, given the hash it resumed from. */
  function Logged(c: Codec, prev: string, entries: seq<Entry>): seq<Record>
    decreases |entries|
  {
    if entries == [] then []
    else match Stamp(c, entries[0].rec, entries[0].now, prev)
      case None => Logged(c, prev, entries[1..])
      case Some(r) => [r] + Logged(c, r.hash, entries[1..])
  }

  function Text(c: Codec, recs: seq<Record>): string {
    if recs == [] then "" else Line(c, recs[0]) + Text(c, recs[1..])
  }

  lemma LoggedStep(c: Codec, prev: string, entries: seq<Entry>, i: nat)
    requires i < |entries|
    ensures var r := Stamp(c, entries[i].rec, entries[i].now, prev);
            Text(c, Logged(c, prev, entries[i..])) ==
            if r.Some? then Line(c, r.value) + Text(c, Logged(c, r.value.hash, entries[i + 1..])) else Text(c, Logged(c, prev, entries[i + 1..]))
  {
    assert entries[i..][1..] == entries[i + 1..];
    var r := Stamp(c, entries[i].rec, entries[i].now, prev);
    if r.Some? {
      var later := Logged(c, r.value.hash, entries[i + 1..]);
      assert ([r.value] + later)[1..] == later;
    }
  }

  /** Open, write, close. */
  method Session(c: Codec, file: File, entries: seq<Entry>)
    modifies file
    ensures file.data == old(file.data) + Text(c, Logged(c, ResumeHash(c, old(file.data)), entries))
  {
    var w := new Writer(c, file);
    ghost var goal := old(file.data) + Text(c, Logged(c, w.prevHash, entries));
    assert w.Contents() == file.data && entries[0..] == entries;
    for i := 0 to |entries|
      invariant w.file == file && w.codec == c && fresh(w)
      invariant w.Contents() + Text(c, Logged(c, w.prevHash, entries[i..])) == goal
    {
      LoggedStep(c, w.prevHash, entries, i);
      ghost var before, r := w.Contents(), Stamp(c, entries[i].rec, entries[i].now, w.prevHash);
      var ok := w.Write(entries[i].rec, entries[i].now);
      if r.Some? {
        Assoc(before, Line(c, r.value), Text(c, Logged(c, w.prevHash, entries[i + 1..])));
      }
    }
    w.Close();
  }

  lemma Assoc(a: string, b: string, c: string)
    ensures a + (b + c) == (a + b) + c
  {
  }

  /** All rounds on one file, starting from `log`, the records already in it. */
  function RoundsLog(c: Codec, log: seq<Record>, rounds: seq<seq<Entry>>): seq<Record>
    decreases |rounds|
  {
    if rounds == [] then log
    else RoundsLog(c, log + Logged(c, ResumeHash(c, Text(c, log)), rounds[0]), rounds[1..])
  }

  function RoundsText(c: Codec, data: string, rounds: seq<seq<Entry>>): string
    decreases |rounds|
  {
    if rounds == [] then data
    else RoundsText(c, data + Text(c, Logged(c, ResumeHash(c, data), rounds[0])), rounds[1..])
  }

  /** A writer's record: encodable and carrying its own hash. */
  predicate Stamped(c: Codec, r: Record) {
    c.encode(r).Some? && ComputeHash(c, r) == Some(r.hash)
  }

  /** Every record is stamped and linked to the one before it, the first one to `prev`. */
  predicate Linked(c: Codec, prev: string, recs: seq<Record>)
    decreases |recs|
  {
    recs == [] || (Stamped(c, recs[0]) && recs[0].prevHash == prev && Linked(c, recs[0].hash, recs[1..]))
  }

  /** The hash the next record links to. */
  function EndHash(prev: string, recs: seq<Record>): string {
    if recs == [] then prev else recs[|recs| - 1].hash
  }

  lemma {:induction false} LinkedConcat(c: Codec, prev: string, a: seq<Record>, b: seq<Record>)
    requires Linked(c, prev, a) && Linked(c, EndHash(prev, a), b)
    ensures Linked(c, prev, a + b)
    decreases |a|
  {
    if a == [] {
      assert a + b == b;
    } else {
      assert EndHash(a[0].hash, a[1..]) == EndHash(prev, a);
      LinkedConcat(c, a[0].hash, a[1..], b);
      assert (a + b)[1..] == a[1..] + b;
    }
  }

  lemma {:induction false} LinkedAt(c: Codec, prev: string, recs: seq<Record>, i: nat)
    requires Linked(c, prev, recs) && i < |recs|
    ensures Stamped(c, recs[i]) && recs[i].prevHash == if i == 0 then prev else recs[i - 1].hash
    decreases |recs|
  {
    if i > 0 {
      LinkedAt(c, recs[0].hash, recs[1..], i - 1);
    }
  }

  lemma {:induction false} TextConcat(c: Codec, a: seq<Record>, b: seq<Record>)
    ensures Text(c, a + b) == Text(c, a) + Text(c, b)
  {
    if a == [] {
      assert a + b == b;
    } else {
      assert (a + b)[1..] == a[1..] + b;
      TextConcat(c, a[1..], b);
    }
  }

  /** The scan from the back finds the last record written. */
  lemma ResumesFromLast(c: Codec, log: seq<Record>)
    requires ValidCodec(c) && Linked(c, "", log)
    ensures ResumeHash(c, Text(c, log)) == EndHash("", log)
  {
    if log != [] {
      var n := |log| - 1;
      LastLineOfText(c, log);
      LinkedAt(c, "", log, n);
      StampedDigest(c, log[n]);
      assert CodecLaw(c, log[n], "");
    }
  }

  lemma StampedDigest(c: Codec, r: Record)
    requires Stamped(c, r)
    ensures IsDigest(c, r.hash)
  {
    assert c.sha(c.encode(r.(hash := "")).value) == r.hash;
  }

  lemma LinkedEncodes(c: Codec, log: seq<Record>, i: nat)
    requires ValidCodec(c) && Linked(c, "", log) && i < |log|
    ensures c.encode(log[i]).Some? && '\n' !in c.encode(log[i]).value
  {
    LinkedAt(c, "", log, i);
    assert CodecLaw(c, log[i], "");
  }

  lemma LastLineOfText(c: Codec, log: seq<Record>)
    requires ValidCodec(c) && Linked(c, "", log) && log != []
    ensures c.encode(log[|log| - 1]).Some? && LastLine(Text(c, log)) == c.encode(log[|log| - 1]).value
  {
    var n := |log| - 1;
    LinkedEncodes(c, log, n);
    if n > 0 { LinkedEncodes(c, log, n - 1); }
    LastLineOfSnoc(c, log, log[..n], log[n]);
  }

  lemma LastLineOfSnoc(c: Codec, log: seq<Record>, init: seq<Record>, r: Record)
    requires log == init + [r] && c.encode(r).Some? && '\n' !in c.encode(r).value
    requires init == [] || c.encode(init[|init| - 1]).Some?
    ensures LastLine(Text(c, log)) == c.encode(r).value
  {
    EndsWithNewline(c, init);
    SnocLine(c, init, r);
  }

  lemma SnocLine(c: Codec, init: seq<Record>, r: Record)
    requires c.encode(r).Some? && '\n' !in c.encode(r).value
    requires Text(c, init) == "" || Text(c, init)[|Text(c, init)| - 1] == '\n'
    ensures LastLine(Text(c, init + [r])) == c.encode(r).value
  {
    TextSnoc(c, init, r);
    LastLineAppended(Text(c, init), c.encode(r).value);
  }

  lemma LastLineAppended(before: string, line: string)
    requires '\n' !in line && (before == "" || before[|before| - 1] == '\n')
    ensures LastLine(before + (line + "\n")) == line
  {
    Assoc(before, line, "\n");
    LastLineIs(before + (line + "\n"), before, line, "\n");
  }

  lemma EndsWithNewline(c: Codec, log: seq<Record>)
    requires log == [] || c.encode(log[|log| - 1]).Some?
    ensures log != [] ==> Text(c, log) != "" && Text(c, log)[|Text(c, log)| - 1] == '\n'
  {
    if log != [] {
      var init, r := log[..|log| - 1], log[|log| - 1];
      TextSnoc(c, init, r);
      assert init + [r] == log;
    }
  }

  lemma TextSnoc(c: Codec, init: seq<Record>, r: Record)
    ensures Text(c, init + [r]) == Text(c, init) + Line(c, r)
  {
    TextConcat(c, init, [r]);
    TextOne(c, r);
  }

  lemma TextOne(c: Codec, r: Record)
    ensures Text(c, [r]) == Line(c, r)
  {
    var one := [r];
    assert one[1..] == [] && Text(c, one[1..]) == "";
    assert Line(c, r) + "" == Line(c, r);
  }

  lemma StampLinks(c: Codec, rec: Record, now: int, prev: string)
    requires ValidCodec(c) && Stamp(c, rec, now, prev).Some?
    ensures Stamped(c, Stamp(c, rec, now, prev).value) && Stamp(c, rec, now, prev).value.prevHash == prev
  {
    var r := Stamp(c, rec, now, prev).value;
    assert r.(hash := "") == r.(hash := "").(hash := "");
  }

  lemma {:induction false} LoggedLinks(c: Codec, prev: string, entries: seq<Entry>)
    requires ValidCodec(c)
    ensures Linked(c, prev, Logged(c, prev, entries))
    decreases |entries|
  {
    if entries != [] {
      var s := Stamp(c, entries[0].rec, entries[0].now, prev);
      if s == None {
        LoggedLinks(c, prev, entries[1..]);
      } else {
        StampLinks(c, entries[0].rec, entries[0].now, prev);
        LoggedLinks(c, s.value.hash, entries[1..]);
        assert ([s.value] + Logged(c, s.value.hash, entries[1..]))[1..] == Logged(c, s.value.hash, entries[1..]);
      }
    }
  }

  /** After any rounds the file is the text of one linked log, the log of all of them. */
  lemma {:induction false} RoundsAgree(c: Codec, log: seq<Record>, rounds: seq<seq<Entry>>)
    requires ValidCodec(c) && Linked(c, "", log)
    ensures RoundsText(c, Text(c, log), rounds) == Text(c, RoundsLog(c, log, rounds)) && Linked(c, "", RoundsLog(c, log, rounds))
    decreases |rounds|
  {
    if rounds != [] {
      ResumesFromLast(c, log);
      var more := Logged(c, EndHash("", log), rounds[0]);
      LoggedLinks(c, EndHash("", log), rounds[0]);
      LinkedConcat(c, "", log, more);
      TextConcat(c, log, more);
      RoundsAgree(c, log + more, rounds[1..]);
    }
  }

  function Normalized(c: Codec, recs: seq<Record>): (r: seq<Record>)
    ensures |r| == |recs| && forall i :: 0 <= i < |recs| ==> r[i] == c.norm(recs[i])
  {
    if recs == [] then [] else [c.norm(recs[0])] + Normalized(c, recs[1..])
  }

  predicate LinesFit(c: Codec, recs: seq<Record>) {
    forall i :: 0 <= i < |recs| ==> c.encode(recs[i]).Some? && |c.encode(recs[i]).value| < 4_194_304
  }

  /** Reading the text of a log gives back its records, normalised, or stops at the first long line. */
  lemma {:induction false} ReadsBack(c: Codec, log: seq<Record>)
    requires ValidCodec(c) && forall i :: 0 <= i < |log| ==> c.encode(log[i]).Some?
    ensures LinesFit(c, log) ==> ReadAll(c, Text(c, log)) == (Normalized(c, log), None)
    ensures !LinesFit(c, log) ==> ReadAll(c, Text(c, log)).1 == Some(LineTooLong)
    decreases |log|
  {
    if log != [] {
      var b, s := c.encode(log[0]).value, Text(c, log);
      assert CodecLaw(c, log[0], "");
      assert s == b + "\n" + Text(c, log[1..]);
      assert s[..|b|] == b && s[|b|] == '\n';
      LineEndIs(s, |b|);
      assert Rest(s) == Text(c, log[1..]);
      assert b[|b| - 1] in b;
      assert FirstLine(s) == b;
      ReadsBack(c, log[1..]);
      if |b| < MAX_TOKEN {
        var later := ScanAll(Text(c, log[1..]));
        assert ScanAll(s) == Deliver(b, later);
        assert ([b] + later.lines)[1..] == later.lines;
        assert LinesFit(c, log) <==> LinesFit(c, log[1..]) by {
          assert forall i :: 0 < i < |log| ==> log[i] == log[1..][i - 1];
        }
      }
    }
  }

  lemma ValidWhenNormalized(c: Codec, r: Record)
    requires ValidCodec(c) && Stamped(c, r)
    ensures Validate(c, c.norm(r)) == None <==> r.schemaVersion == CURRENT_SCHEMA_VERSION && HashKept(c, r)
  {
    StampedDigest(c, r);
    assert CodecLaw(c, r, "");
  }

  lemma LinkNormalized(c: Codec, log: seq<Record>, i: nat)
    requires ValidCodec(c) && Linked(c, "", log) && i < |log|
    ensures c.norm(log[i]).prevHash == if i == 0 then "" else c.norm(log[i - 1]).hash
  {
    LinkedAt(c, "", log, i);
    assert CodecLaw(c, log[i], "");
    if i > 0 {
      LinkedAt(c, "", log, i - 1);
      StampedDigest(c, log[i - 1]);
      assert CodecLaw(c, log[i - 1], "");
    }
  }

  /** The record has the current version and is the same to the hash after decoding. */
  predicate Loadable(c: Codec, r: Record) { r.schemaVersion == CURRENT_SCHEMA_VERSION && HashKept(c, r) }

  /** A linked log verifies after reading exactly when every record has the current schema version and keeps its hash. */
  lemma LinkedVerifies(c: Codec, log: seq<Record>)
    requires ValidCodec(c) && Linked(c, "", log)
    ensures Verified(c, Normalized(c, log)) <==> forall i :: 0 <= i < |log| ==> Loadable(c, log[i])
  {
    var recs := Normalized(c, log);
    forall i | 0 <= i < |log| ensures Fault(c, recs, i) == None <==> Loadable(c, log[i]) {
      LinkedAt(c, "", log, i);
      ValidWhenNormalized(c, log[i]);
      LinkNormalized(c, log, i);
    }
  }

  /** For any number of rounds on a new file: loading gives nil exactly when every record has the current
      schema version, keeps its hash and fits the reader's limit, and then it gives the written records in order. */
  lemma LoadsWhatWasWritten(c: Codec, rounds: seq<seq<Entry>>)
    requires ValidCodec(c)
    ensures var log, loaded := RoundsLog(c, [], rounds), ReadAll(c, RoundsText(c, "", rounds));
            && (loaded.1 == None && Verified(c, loaded.0) <==> LinesFit(c, log) && forall i :: 0 <= i < |log| ==> Loadable(c, log[i]))
            && (LinesFit(c, log) ==> loaded == (Normalized(c, log), None))
            && ComesFrom(log, Entries(rounds))
            && ((forall e :: e in Entries(rounds) ==> CanWrite(c, e)) ==> |log| == |Entries(rounds)|)
  {
    RoundsAgree(c, [], rounds);
    RoundsComeFrom(c, [], [], rounds);
    assert [] + Entries(rounds) == Entries(rounds);
    if forall e :: e in Entries(rounds) ==> CanWrite(c, e) { RoundsWriteAll(c, [], rounds); }
    var log := RoundsLog(c, [], rounds);
    forall i | 0 <= i < |log| ensures Stamped(c, log[i]) {
      LinkedAt(c, "", log, i);
    }
    ReadsBack(c, log);
    LinkedVerifies(c, log);
  }

  /** One record that does not survive decoding, such as one with invalid text, and the file it is written to does
      not load. */
  lemma InvalidTextFailsToLoad(c: Codec, rec: Record, now: int)
    requires ValidCodec(c) && CollisionFree(c)
    requires Stamp(c, rec, now, "").Some? && !Survives(c, Stamp(c, rec, now, "").value)
    ensures var loaded := ReadAll(c, RoundsText(c, "", [[Entry(rec, now)]]));
            loaded.1 == None ==> !Verified(c, loaded.0)
  {
    var entries := [Entry(rec, now)];
    var rounds := [entries];
    var r := Stamp(c, rec, now, "").value;
    assert rounds[1..] == [] && entries[1..] == [];
    assert Text(c, []) == "" && ResumeHash(c, "") == "" by { ResumesFromLast(c, []); }
    assert Logged(c, "", entries) == [r] && [] + [r] == [r];
    assert RoundsLog(c, [], rounds) == RoundsLog(c, [r], rounds[1..]) == [r];
    HashKeptIff(c, r);
    LoadsWhatWasWritten(c, rounds);
    assert !Loadable(c, [r][0]);
  }

  /** A line that does not decode ends the reading: what was before it is read, and the error is the decoder's. */
  lemma BadLineStops(c: Codec, log: seq<Record>, line: string, rest: string)
    requires ValidCodec(c) && LinesFit(c, log) && IsLine(line) && |line| < 4_194_304 && c.decode(line) == None
    ensures ReadAll(c, Text(c, log) + (line + "\n" + rest)) == (Normalized(c, log), Some(UnmarshalFailed))
    decreases |log|
  {
    if log == [] {
      assert Text(c, log) + (line + "\n" + rest) == line + "\n" + rest;
      FirstLineRead(line, rest);
    } else {
      var b, later := c.encode(log[0]).value, Text(c, log[1..]) + (line + "\n" + rest);
      assert CodecLaw(c, log[0], "");
      assert Text(c, log) + (line + "\n" + rest) == b + "\n" + later;
      FirstLineRead(b, later);
      assert forall i :: 0 <= i < |log[1..]| ==> log[1..][i] == log[i + 1];
      BadLineStops(c, log[1..], line, rest);
    }
  }

  lemma FirstLineRead(line: string, rest: string)
    requires IsLine(line) && |line| < MAX_TOKEN
    ensures ScanAll(line + "\n" + rest) == Deliver(line, ScanAll(rest))
    ensures ScanAll(line + "\n" + rest).lines[1..] == ScanAll(rest).lines
  {
    var s := line + "\n" + rest;
    assert s[..|line|] == line && s[|line|] == '\n';
    LineEndIs(s, |line|);
    assert Rest(s) == rest;
    assert line[|line| - 1] in line;
  }

  /** Lines that end in a carriage return and a newline are read without either. */
  lemma CarriageReturnDropped(line: string, rest: string)
    requires IsLine(line) && |line| + 1 < MAX_TOKEN
    ensures ScanAll(line + "\r\n" + rest) == Deliver(line, ScanAll(rest))
  {
    var ended := line + "\r";
    assert line + "\r\n" + rest == ended + "\n" + rest;
    assert '\n' !in ended;
    LineRead(ended, rest);
    assert ended[|ended| - 1] == '\r' && ended[..|ended| - 1] == line;
  }

  lemma LineRead(line: string, rest: string)
    requires line != "" && '\n' !in line && |line| < MAX_TOKEN
    ensures ScanAll(line + "\n" + rest) == Deliver(DropCR(line), ScanAll(rest))
  {
    var s := line + "\n" + rest;
    assert s[..|line|] == line && s[|line|] == '\n';
    LineEndIs(s, |line|);
    assert Rest(s) == rest;
  }

  /** A last line that does not decode is passed over in silence: the next record is linked to nothing. */
  lemma UnreadableEndUnlinks(c: Codec, log: seq<Record>, line: string)
    requires ValidCodec(c) && line != "" && '\n' !in line && c.decode(line) == None
    requires log == [] || c.encode(log[|log| - 1]).Some?
    ensures ResumeHash(c, Text(c, log) + (line + "\n")) == ""
  {
    EndsWithNewline(c, log);
    LastLineAppended(Text(c, log), line);
  }

  /** Schema version 0 or 1 is what callers must pass. */
  lemma {:induction false} LoggedVersions(c: Codec, prev: string, entries: seq<Entry>)
    requires forall i :: 0 <= i < |entries| ==> entries[i].rec.schemaVersion in {0, 1}
    ensures forall i :: 0 <= i < |Logged(c, prev, entries)| ==> Logged(c, prev, entries)[i].schemaVersion == CURRENT_SCHEMA_VERSION
    decreases |entries|
  {
    if entries != [] {
      var s := Stamp(c, entries[0].rec, entries[0].now, prev);
      LoggedVersions(c, if s.Some? then s.value.hash else prev, entries[1..]);
    }
  }
}
