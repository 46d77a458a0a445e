/** The trace file: an append-only writer that resumes its chain by looking at the end of the file, and
    a reader that walks it from the front. */
module TraceFile {
  import opened Wrappers
  import opened TraceSchema

  // --- lines, from the front ----------------------------------------------------

  /** The scanner's buffer limit: a line and its newline must fit. */
  const MAX_TOKEN: nat := 4 * 1024 * 1024

  /** Where the first line of `s` ends: at its newline, or at the end of `s`. */
  function LineEnd(s: string): (q: nat)
    ensures q <= |s|
  {
    if s == "" || s[0] == '\n' then 0 else LineEnd(s[1..]) + 1
  }

  lemma {:induction false} LineEndIs(s: string, n: nat)
    requires n <= |s| && '\n' !in s[..n] && (n < |s| ==> s[n] == '\n')
    ensures LineEnd(s) == n
  {
    if n > 0 {
      assert s[0] in s[..n];
      assert s[..n] == [s[0]] + s[1..][..n - 1];
      LineEndIs(s[1..], n - 1);
    }
  }

  lemma {:induction false} LineEndAtMost(s: string, k: nat)
    requires k < |s| && s[k] == '\n'
    ensures LineEnd(s) <= k
  {
    if s[0] != '\n' {
      LineEndAtMost(s[1..], k - 1);
    }
  }

  function DropCR(line: string): string {
    if line != "" && line[|line| - 1] == '\r' then line[..|line| - 1] else line
  }

  function Rest(s: string): string
  {
    if LineEnd(s) < |s| then s[LineEnd(s) + 1..] else ""
  }

  datatype Scanned = Scanned(lines: seq<string>, tooLong: bool)

  /** The non-empty lines of `s`, up to the first one that does not fit the buffer. */
  function ScanAll(s: string): Scanned
    decreases |s|
  {
    if s == "" then Scanned([], false)
    else if LineEnd(s) >= MAX_TOKEN then Scanned([], true)
    else Deliver(FirstLine(s), ScanAll(Rest(s)))
  }

  function FirstLine(s: string): string { DropCR(s[..LineEnd(s)]) }

  function Deliver(line: string, later: Scanned): Scanned {
    if line == "" then later else Scanned([line] + later.lines, later.tooLong)
  }

  /** Decode lines in order, stopping at the first that is not a record. */
  function DecodeAll(c: Codec, lines: seq<string>): (seq<Record>, bool) {
    if lines == [] then ([], true)
    else match c.decode(lines[0])
      case None => ([], false)
      case Some(r) => var later := DecodeAll(c, lines[1..]); ([r] + later.0, later.1)
  }

  /** What reading a whole file gives: the records before the first failure, and the failure. */
  function ReadAll(c: Codec, s: string): (seq<Record>, Option<Err>) {
    var scanned := ScanAll(s);
    var decoded := DecodeAll(c, scanned.lines);
    (decoded.0, if !decoded.1 then Some(UnmarshalFailed) else if scanned.tooLong then Some(LineTooLong) else None)
  }

  datatype Next = EOF | Got(r: Record) | Bad(e: Err)

  class Reader {
    const codec: Codec
    const data: string
    var pos: nat

    ghost predicate Valid()
      reads this
    {
      pos <= |data|
    }

    constructor (codec: Codec, data: string)
      ensures Valid() && this.codec == codec && this.data == data && pos == 0
    {
      this.codec, this.data, pos := codec, data, 0;
    }

    /** The next record: empty lines are skipped. */
    method Next() returns (n: Next)
      requires Valid()
      modifies this
      ensures Valid()
      ensures n == EOF ==> ReadAll(codec, old(data[pos..])) == ([], None)
      ensures n.Bad? ==> ReadAll(codec, old(data[pos..])) == ([], Some(n.e))
      ensures n.Got? ==>
                && pos > old(pos)
                && var later := ReadAll(codec, data[pos..]);
                   ReadAll(codec, old(data[pos..])) == ([n.r] + later.0, later.1)
    {
      while pos < |data|
        invariant Valid() && pos >= old(pos)
        invariant ReadAll(codec, data[pos..]) == ReadAll(codec, old(data[pos..]))
      {
        var s := data[pos..];
        var q := LineEnd(s);
        if q >= MAX_TOKEN {
          return Bad(LineTooLong);
        }
        var line := FirstLine(s);
        pos := if q < |s| then pos + q + 1 else |data|;
        assert data[pos..] == Rest(s);
        if line != "" {
          var scanned := ScanAll(s);
          assert scanned.lines[1..] == ScanAll(Rest(s)).lines;
          var r := codec.decode(line);
          return if r == None then Bad(UnmarshalFailed) else Got(r.value);
        }
      }
      return EOF;
    }

    method All() returns (recs: seq<Record>, err: Option<Err>)
      requires Valid()
      modifies this
      ensures Valid()
      ensures (recs, err) == ReadAll(codec, old(data[pos..]))
    {
      recs := [];
      assert recs + ReadAll(codec, data[pos..]).0 == ReadAll(codec, data[pos..]).0;
      while true
        invariant Valid()
        invariant Continues(ReadAll(codec, old(data[pos..])), recs, ReadAll(codec, data[pos..]))
        decreases |data| - pos
      {
        ghost var before := ReadAll(codec, data[pos..]);
        var n := Next();
        assert recs + [] == recs;
        match n
        case EOF => return recs, None;
        case Bad(e) => return recs, Some(e);
        case Got(r) =>
          ContinuesStep(ReadAll(codec, old(data[pos..])), recs, before, r, ReadAll(codec, data[pos..]));
          recs := recs + [r];
      }
    }
  }

  /** Having read `recs`, what is left to read completes the whole. */
  predicate Continues(whole: (seq<Record>, Option<Err>), recs: seq<Record>, left: (seq<Record>, Option<Err>)) {
    whole == (recs + left.0, left.1)
  }

  lemma ContinuesStep(whole: (seq<Record>, Option<Err>), recs: seq<Record>, left: (seq<Record>, Option<Err>), r: Record, later: (seq<Record>, Option<Err>))
    requires Continues(whole, recs, left) && left == ([r] + later.0, later.1)
    ensures Continues(whole, recs + [r], later)
  {
    assert recs + ([r] + later.0) == recs + [r] + later.0;
  }

  /** Open, read all, verify the chain. */
  method LoadAll(c: Codec, data: string) returns (recs: seq<Record>, err: Option<Err>)
    ensures recs == ReadAll(c, data).0
    ensures err == None <==> ReadAll(c, data).1 == None && Verified(c, recs)
    ensures ReadAll(c, data).1.Some? ==> err == ReadAll(c, data).1
    ensures ReadAll(c, data).1 == None && err.Some? ==>
              exists i :: 0 <= i < |recs| && Verified(c, recs[..i]) && err == Fault(c, recs, i)
  {
    var r := new Reader(c, data);
    assert data[0..] == data;
    recs, err := r.All();
    if err == None {
      var idx;
      idx, err := VerifyChain(c, recs);
    }
  }

  // --- the last line, from the back -----------------------------------------------

  /** `s` is `before`, the last line, and possibly one newline at the very end. */
  predicate EndsIn(s: string, before: string, line: string, tail: string) {
    && s == before + line + tail && '\n' !in line
    && (tail == "\n" || (tail == "" && (line != "" || before == "")))
    && (before == "" || before[|before| - 1] == '\n')
  }

  /** Scan backwards for the last line. */
  method ReadLastLine(data: string) returns (line: string)
    ensures line == LastLine(data)
  {
    if data == "" {
      return "";
    }
    var end := |data|;
    if data[end - 1] == '\n' {
      end := end - 1;
    }
    var start := end;
    while start > 0 && data[start - 1] != '\n'
      invariant 0 <= start <= end
      invariant '\n' !in data[start..end]
    {
      start := start - 1;
      assert data[start..end] == [data[start]] + data[start + 1..end];
    }
    line := data[start..end];
    assert data == data[..start] + line + data[end..];
    LastLineIs(data, data[..start], line, data[end..]);
  }

  /** The last line, computed from the front. */
  function LastLine(s: string): string
    decreases |s|
  {
    if Rest(s) == "" then s[..LineEnd(s)] else LastLine(Rest(s))
  }

  /** However the end of `s` is found, it is the same line. */
  lemma {:induction false} LastLineIs(s: string, before: string, line: string, tail: string)
    requires EndsIn(s, before, line, tail)
    ensures LastLine(s) == line
    decreases |s|
  {
    if before == "" {
      OnlyLine(s, line, tail);
    } else {
      var before' := FirstLineOff(s, before, line, tail);
      LastLineIs(Rest(s), before', line, tail);
    }
  }

  lemma OnlyLine(s: string, line: string, tail: string)
    requires EndsIn(s, "", line, tail)
    ensures LineEnd(s) == |line| && Rest(s) == "" && s[..LineEnd(s)] == line
  {
    assert s == line + tail && s[..|line|] == line;
    LineEndIs(s, |line|);
  }

  lemma FirstLineOff(s: string, before: string, line: string, tail: string) returns (before': string)
    requires EndsIn(s, before, line, tail) && before != ""
    ensures |Rest(s)| < |s| && Rest(s) != "" && EndsIn(Rest(s), before', line, tail)
  {
    var q := LineEnd(s);
    assert s[|before| - 1] == '\n';
    LineEndAtMost(s, |before| - 1);
    before' := before[q + 1..];
    assert s[q + 1..] == before' + line + tail;
  }

  /** `readLastRecord`: no record, a record, or a line that is not one. */
  datatype Last = NoRecord | Found(r: Record) | Unreadable

  function LastRecord(c: Codec, s: string): Last {
    if LastLine(s) == "" then NoRecord
    else match c.decode(LastLine(s))
      case None => Unreadable
      case Some(r) => Found(r)
  }

  method ReadLastRecord(c: Codec, data: string) returns (last: Last)
    ensures last == LastRecord(c, data)
  {
    var line := ReadLastLine(data);
    if line == "" {
      return NoRecord;
    }
    var r := c.decode(line);
    return if r == None then Unreadable else Found(r.value);
  }

  /** The backward and the forward scan agree on every file without an over-long line: the backward
      scan's line is the last one that the forward scan delivers, or is blank. */
  lemma {:induction false} ScansAgree(s: string)
    requires !ScanAll(s).tooLong
    ensures DropCR(LastLine(s)) != "" ==> LastOf(ScanAll(s).lines) == DropCR(LastLine(s))
    decreases |s|
  {
    if s != "" {
      ScanStep(s);
      if Rest(s) != "" {
        ScansAgree(Rest(s));
        assert LastLine(s) == LastLine(Rest(s));
      }
    }
  }

  lemma ScanStep(s: string)
    requires s != "" && !ScanAll(s).tooLong
    ensures !ScanAll(Rest(s)).tooLong
    ensures var later := ScanAll(Rest(s)).lines;
            LastOf(ScanAll(s).lines) == if later == [] then FirstLine(s) else LastOf(later)
    ensures Rest(s) == "" ==> ScanAll(Rest(s)).lines == [] && DropCR(LastLine(s)) == FirstLine(s)
  {
    LastDelivered(FirstLine(s), ScanAll(Rest(s)));
  }

  lemma LastDelivered(line: string, later: Scanned)
    ensures LastOf(Deliver(line, later).lines) == if later.lines == [] then line else LastOf(later.lines)
  {
  }

  function LastOf(lines: seq<string>): string {
    if lines == [] then "" else lines[|lines| - 1]
  }
}
