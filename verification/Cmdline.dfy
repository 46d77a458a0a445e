/** The kernel command-line patcher: boot lines of a boot loader configuration get the installer's arguments,
    before the `---` that ends the arguments of the live system. */
module Cmdline {
  import opened Wrappers
  import Text

  /** White space as the class `\s` of the pattern sees it. */
  predicate Ws(c: char) {
    c in {' ', '\t', '\n', '\r', '\U{000C}'}
  }

  predicate AllWs(s: string) {
    s != "" ==> Ws(s[0]) && AllWs(s[1..])
  }

  function WsLen(s: string): (n: nat)
    ensures n <= |s|
  {
    if s == "" || !Ws(s[0]) then 0 else 1 + WsLen(s[1..])
  }

  lemma {:induction false} WsLenSpec(s: string)
    ensures AllWs(s[..WsLen(s)])
    ensures WsLen(s) < |s| ==> !Ws(s[WsLen(s)])
  {
    if s != "" && Ws(s[0]) {
      WsLenSpec(s[1..]);
      assert s[..WsLen(s)][1..] == s[1..][..WsLen(s[1..])];
    }
  }

  /** The text does not start with white space. */
  predicate Flush(s: string) { s == "" || !Ws(s[0]) }

  lemma {:induction false} WsLenIs(ws: string, rest: string)
    requires AllWs(ws) && Flush(rest)
    ensures WsLen(ws + rest) == |ws| && (ws + rest)[|ws|..] == rest && (ws + rest)[..|ws|] == ws
  {
    if ws == "" {
      assert ws + rest == rest;
    } else {
      WsLenIs(ws[1..], rest);
      assert (ws + rest)[1..] == ws[1..] + rest;
    }
  }

  // --- boot lines ------------------------------------------------------------------

  datatype Boot = Boot(indent: string, verb: string, body: string)

  const SEPARATOR := "---"
  const MARK := "autoinstall"

  predicate IsVerb(v: string) { v == "linux" || v == "linuxefi" || v == "append" }

  /** `verb` followed by white space. */
  predicate VerbStarts(verb: string, t: string) {
    verb <= t && |verb| < |t| && Ws(t[|verb|])
  }

  function VerbAt(t: string): Option<string> {
    if VerbStarts("linux", t) then Some("linux")
    else if VerbStarts("linuxefi", t) then Some("linuxefi")
    else if VerbStarts("append", t) then Some("append")
    else None
  }

  /** The pattern of a boot line; both runs of white space are as long as they can be. */
  function MatchLine(line: string): Option<Boot> {
    var n := WsLen(line);
    var t := line[n..];
    var verb := VerbAt(t);
    if verb == None then None
    else
      var rest := t[|verb.value|..];
      Some(Boot(line[..n], verb.value, rest[WsLen(rest)..]))
  }

  predicate Splits(line: string, b: Boot, gap: string) {
    line == b.indent + (b.verb + (gap + b.body)) &&
    AllWs(b.indent) && IsVerb(b.verb) && AllWs(gap) && gap != "" && Flush(b.body)
  }

  lemma VerbIs(verb: string, gap: string, rest: string)
    requires IsVerb(verb) && AllWs(gap) && gap != ""
    ensures VerbAt(verb + (gap + rest)) == Some(verb) && (verb + (gap + rest))[|verb|..] == gap + rest
    ensures Flush(verb + (gap + rest))
  {
    var t := verb + (gap + rest);
    assert t[|verb|] == gap[0];
    assert verb <= t && VerbStarts(verb, t);
    if verb == "linuxefi" { assert t[5] == 'e'; }
    if verb == "append" { assert t[0] == 'a'; }
  }

  lemma MatchIs(line: string, b: Boot, gap: string)
    requires Splits(line, b, gap)
    ensures MatchLine(line) == Some(b)
  {
    var t := b.verb + (gap + b.body);
    VerbIs(b.verb, gap, b.body);
    WsLenIs(b.indent, t);
    WsLenIs(gap, b.body);
  }

  lemma WsSplit(s: string) returns (ws: string, rest: string)
    ensures ws == s[..WsLen(s)] && rest == s[WsLen(s)..] && s == ws + rest && AllWs(ws) && Flush(rest)
    ensures s != "" && Ws(s[0]) ==> ws != ""
  {
    WsLenSpec(s);
    ws, rest := s[..WsLen(s)], s[WsLen(s)..];
  }

  lemma VerbFound(t: string, verb: string)
    requires VerbAt(t) == Some(verb)
    ensures IsVerb(verb) && verb <= t && t == verb + t[|verb|..] && t[|verb|..] != "" && Ws(t[|verb|..][0])
  {
  }

  lemma MatchFound(line: string, b: Boot) returns (gap: string)
    requires MatchLine(line) == Some(b)
    ensures Splits(line, b, gap)
  {
    var indent, t := WsSplit(line);
    VerbFound(t, b.verb);
    var body;
    gap, body := WsSplit(t[|b.verb|..]);
    assert b.body == body;
  }

  /** A line is a boot line exactly when it is white space, a verb, white space and a body; then the parts are
      these and no others. */
  lemma MatchIff(line: string, b: Boot)
    ensures MatchLine(line) == Some(b) <==> exists gap :: Splits(line, b, gap)
  {
    if MatchLine(line) == Some(b) {
      var gap := MatchFound(line, b);
    }
    if gap :| Splits(line, b, gap) {
      MatchIs(line, b, gap);
    }
  }

  // --- injection -------------------------------------------------------------------

  /** A separator standing alone, white space before it and white space or the end after it. `i` is where the
      white space before it is. */
  predicate SepAt(s: string, i: nat) {
    i + 4 <= |s| && Ws(s[i]) && s[i + 1] == '-' && s[i + 2] == '-' && s[i + 3] == '-' && (i + 4 == |s| || Ws(s[i + 4]))
  }

  /** The first separator, the length of the text when there is none. */
  function FindSep(s: string): (i: nat)
    ensures i <= |s|
  {
    if s == "" || SepAt(s, 0) then 0 else 1 + FindSep(s[1..])
  }

  lemma {:induction false} FindSepSpec(s: string)
    ensures FindSep(s) < |s| ==> SepAt(s, FindSep(s))
    ensures forall i :: 0 <= i < FindSep(s) ==> !SepAt(s, i)
  {
    if s != "" && !SepAt(s, 0) {
      FindSepSpec(s[1..]);
      forall i | 0 <= i < FindSep(s) ensures !SepAt(s, i) {
        if i > 0 { assert SepAt(s, i) <==> SepAt(s[1..], i - 1); }
      }
    }
  }

  function InjectBeforeSeparator(body: string, args: string): string {
    var i := FindSep(body);
    body[..i] + " " + args + body[i..]
  }

  function PatchLine(line: string, args: string): string {
    var m := MatchLine(line);
    if m == None || Text.Contains(m.value.body, MARK) then line
    else m.value.indent + m.value.verb + " " + InjectBeforeSeparator(m.value.body, args)
  }

  function PatchLines(lines: seq<string>, args: string): (patched: seq<string>)
    ensures |patched| == |lines|
  {
    if lines == [] then [] else [PatchLine(lines[0], args)] + PatchLines(lines[1..], args)
  }

  function Patch(text: string, args: string): string {
    Text.Join(PatchLines(Text.Split(text, '\n'), args), '\n')
  }

  // --- what a boot line means: its tokens -----------------------------------------------

  function Tokens(s: string): (ts: seq<string>)
    ensures s != "" && !Ws(s[0]) ==> ts != []
  {
    if s == "" then []
    else if Ws(s[0]) then Tokens(s[1..])
    else if |s| == 1 || Ws(s[1]) then [[s[0]]] + Tokens(s[1..])
    else
      var ts := Tokens(s[1..]);
      [[s[0]] + ts[0]] + ts[1..]
  }

  lemma FirstOff(a: string, b: string)
    requires a != ""
    ensures a == [a[0]] + a[1..] && a + b == [a[0]] + (a[1..] + b)
  {
  }

  /** Where white space meets, the tokens of two texts are those of the one and then those of the other. */
  lemma {:induction false} TokensConcat(a: string, b: string)
    requires a == "" || b == "" || Ws(a[|a| - 1]) || Ws(b[0])
    ensures Tokens(a + b) == Tokens(a) + Tokens(b)
  {
    if a == "" {
      assert a + b == b;
    } else if b == "" {
      assert a + b == a && Tokens(a) + [] == Tokens(a);
    } else {
      TokensConcat(a[1..], b);
      TokensCons(a[0], a[1..], b);
      FirstOff(a, b);
    }
  }

  /** What one more character in front does to the tokens. */
  function Grow(c: char, t: string, ts: seq<string>): seq<string> {
    if Ws(c) then ts
    else if t == "" || Ws(t[0]) || ts == [] then [[c]] + ts
    else [[c] + ts[0]] + ts[1..]
  }

  lemma TokensGrow(c: char, t: string)
    ensures Tokens([c] + t) == Grow(c, t, Tokens(t))
  {
    assert ([c] + t)[1..] == t;
  }

  lemma GrowConcat(c: char, t: string, ts: seq<string>, more: seq<string>)
    requires t != "" && !Ws(t[0]) ==> ts != []
    ensures t != "" ==> Grow(c, t, ts + more) == Grow(c, t, ts) + more
    ensures Grow(c, "", ts + more) == Grow(c, "", ts) + more
  {
    if ts != [] {
      assert (ts + more)[0] == ts[0] && (ts + more)[1..] == ts[1..] + more;
      assert [[c] + ts[0]] + (ts[1..] + more) == [[c] + ts[0]] + ts[1..] + more;
    }
    assert [[c]] + (ts + more) == [[c]] + ts + more;
  }

  lemma TokensCons(c: char, a: string, b: string)
    requires Tokens(a + b) == Tokens(a) + Tokens(b) && b != "" && (a == "" ==> Ws(c) || Ws(b[0]))
    ensures Tokens([c] + (a + b)) == Tokens([c] + a) + Tokens(b)
  {
    TokensGrow(c, a + b);
    TokensGrow(c, a);
    GrowConcat(c, a, Tokens(a), Tokens(b));
    if a != "" { assert (a + b)[0] == a[0]; } else { assert a + b == b; }
  }

  /** The first token of a text that starts with one. */
  lemma {:induction false} FirstToken(s: string)
    requires s != "" && !Ws(s[0])
    ensures var w := Tokens(s)[0]; w <= s && (|w| == |s| || Ws(s[|w|]))
  {
    var t := s[1..];
    TokensGrow(s[0], t);
    assert s == [s[0]] + t;
    if t != "" && !Ws(t[0]) {
      FirstToken(t);
      LongerStart(s[0], Tokens(t)[0], t);
    }
  }

  lemma LongerStart(c: char, w: string, t: string)
    requires w <= t && (|w| == |t| || Ws(t[|w|]))
    ensures [c] + w <= [c] + t && (|[c] + w| == |[c] + t| || Ws(([c] + t)[|[c] + w|]))
  {
  }

  /** A token `---` that is not the very start of the text is a separator. */
  lemma {:induction false} SeparatorToken(s: string, k: nat) returns (i: nat)
    requires k < |Tokens(s)| && Tokens(s)[k] == SEPARATOR && (k > 0 || Ws(s[0]))
    ensures SepAt(s, i)
    decreases |s|
  {
    if Ws(s[0]) {
      if k == 0 && !Ws(s[1]) {
        FirstToken(s[1..]);
        return 0;
      }
      var j := SeparatorToken(s[1..], k);
      return j + 1;
    }
    var j := SeparatorToken(s[1..], if |s| == 1 || Ws(s[1]) then k - 1 else k);
    return j + 1;
  }

  /** The place of the first `---` that is not the first token, the number of tokens when there is none. */
  function FirstSeparator(ts: seq<string>, from: nat): (k: nat)
    requires from <= |ts|
    ensures from <= k <= |ts|
    decreases |ts| - from
  {
    if from == |ts| || ts[from] == SEPARATOR then from else FirstSeparator(ts, from + 1)
  }

  lemma {:induction false} FirstSeparatorIs(ts: seq<string>, from: nat, k: nat)
    requires from <= k <= |ts| && (k < |ts| ==> ts[k] == SEPARATOR)
    requires forall j :: from <= j < k ==> ts[j] != SEPARATOR
    ensures FirstSeparator(ts, from) == k
    decreases k - from
  {
    if from < k { FirstSeparatorIs(ts, from + 1, k); }
  }

  function Boundary(ts: seq<string>): nat {
    if ts == [] then 0 else FirstSeparator(ts, 1)
  }

  /** The separator that the text search finds is the first `---` token after the first token. */
  lemma SeparatorSplitsTokens(body: string)
    requires Flush(body)
    ensures var i := FindSep(body);
            Tokens(body) == Tokens(body[..i]) + Tokens(body[i..]) && Boundary(Tokens(body)) == |Tokens(body[..i])|
  {
    var i := FindSep(body);
    FindSepSpec(body);
    var before, after := Tokens(body[..i]), Tokens(body[i..]);
    assert body == body[..i] + body[i..];
    TokensConcat(body[..i], body[i..]);
    forall k | 1 <= k < |before| ensures before[k] != SEPARATOR {
      if before[k] == SEPARATOR {
        var j := SeparatorToken(body[..i], k);
        assert SepAt(body, j);
      }
    }
    if i < |body| {
      assert i > 0;
      assert body[i..][1..] == body[i + 1..];
      assert after == Tokens(body[i + 1..]);
      DashesFirst(body[i + 1..]);
      FirstSeparatorIs(before + after, 1, |before|);
    } else if before + after != [] {
      assert after == [];
      FirstSeparatorIs(before + after, 1, |before|);
    }
  }

  lemma DashesFirst(s: string)
    requires 3 <= |s| && s[..3] == SEPARATOR && (|s| == 3 || Ws(s[3]))
    ensures Tokens(s) != [] && Tokens(s)[0] == SEPARATOR
  {
    assert s[0] == '-' && s[1] == '-' && s[2] == '-';
    FirstToken(s);
    AllOfWord(s);
    var w := Tokens(s)[0];
    assert w == s[..|w|] && |w| > 0;
  }

  /** A token has no white space in it. */
  lemma {:induction false} AllOfWord(s: string)
    requires s != "" && !Ws(s[0])
    ensures forall c :: c in Tokens(s)[0] ==> !Ws(c)
    ensures Tokens(s)[0] != ""
  {
    if |s| > 1 && !Ws(s[1]) { AllOfWord(s[1..]); }
  }

  /** The tokens after the injection: the arguments stand before the first `---` that is not the first token,
      at the end when there is none. */
  lemma InjectTokens(body: string, args: string)
    requires Flush(body)
    ensures var ts, k := Tokens(body), Boundary(Tokens(body));
            Tokens(InjectBeforeSeparator(body, args)) == ts[..k] + Tokens(args) + ts[k..]
  {
    var i := FindSep(body);
    FindSepSpec(body);
    SeparatorSplitsTokens(body);
    var before, after := body[..i], body[i..];
    TokensConcat(before + " " + args, after);
    TokensConcat(before + " ", args);
    TokensConcat(before, " ");
    assert Tokens(" ") == [] && Tokens(before) + [] == Tokens(before);
    assert before + " " + args + after == InjectBeforeSeparator(body, args);
  }

  /** What the kernel of the live system is given: the tokens before the first `---`. */
  function Live(ts: seq<string>): (live: seq<string>)
    ensures |live| <= |ts|
  {
    if ts == [] || ts[0] == SEPARATOR then [] else [ts[0]] + Live(ts[1..])
  }

  /** The separator and what is kept for the installed system. */
  function Kept(ts: seq<string>): seq<string> {
    ts[|Live(ts)|..]
  }

  lemma {:induction false} LiveIs(ts: seq<string>, k: nat)
    requires k <= |ts| && (k < |ts| ==> ts[k] == SEPARATOR)
    requires forall j :: 0 <= j < k ==> ts[j] != SEPARATOR
    ensures Live(ts) == ts[..k]
  {
    if k > 0 {
      LiveIs(ts[1..], k - 1);
      assert ts[..k] == [ts[0]] + ts[1..][..k - 1];
    }
  }

  lemma {:induction false} BoundarySpec(ts: seq<string>, from: nat)
    requires from <= |ts|
    ensures var k := FirstSeparator(ts, from); k < |ts| ==> ts[k] == SEPARATOR
    ensures forall j :: from <= j < FirstSeparator(ts, from) ==> ts[j] != SEPARATOR
    decreases |ts| - from
  {
    if from < |ts| && ts[from] != SEPARATOR { BoundarySpec(ts, from + 1); }
  }

  /** The arguments were added to what the live system's kernel is given, and nothing else was changed. */
  predicate Reached(body: string, patched: string, args: string) {
    Live(Tokens(patched)) == Live(Tokens(body)) + Tokens(args) && Kept(Tokens(patched)) == Kept(Tokens(body))
  }

  /** The arguments reach the live system's kernel exactly when the line does not begin with `---` and nothing
      in it looks patched already. */
  lemma ArgumentsReachLiveKernelIff(line: string, b: Boot, args: string)
    requires MatchLine(line) == Some(b) && Tokens(args) != [] && SEPARATOR !in Tokens(args)
    ensures var m := MatchLine(PatchLine(line, args));
            m != None && m.value.indent == b.indent && m.value.verb == b.verb &&
            (Reached(b.body, m.value.body, args)
             <==> !Text.Contains(b.body, MARK) && !(Tokens(b.body) != [] && Tokens(b.body)[0] == SEPARATOR))
  {
    var ts := Tokens(b.body);
    if !Text.Contains(b.body, MARK) {
      var gap := MatchFound(line, b);
      var ws, patched := PatchedLine(line, b, args);
      PatchedTokens(b.body, args, ws, patched.body);
      InjectReaches(ts, Tokens(args));
    }
  }

  /** A line that begins with `---`: the arguments do not reach the live system's kernel. */
  lemma LeadingSeparatorMisses(args: string)
    requires Tokens(args) != [] && SEPARATOR !in Tokens(args)
    ensures var b, m := Boot("", "linux", "---"), MatchLine(PatchLine("linux ---", args));
            MatchLine("linux ---") == Some(b) && m != None && !Reached(b.body, m.value.body, args)
  {
    DashesLine();
    DashesToken();
    ArgumentsReachLiveKernelIff("linux ---", Boot("", "linux", "---"), args);
  }

  lemma DashesLine()
    ensures MatchLine("linux ---") == Some(Boot("", "linux", "---"))
  {
    assert AllWs(" ") by { assert " "[1..] == ""; }
    MatchIs("linux ---", Boot("", "linux", "---"), " ");
  }

  lemma DashesToken()
    ensures Tokens("---") == ["---"]
  {
    assert "-"[1..] == "" && "--"[1..] == "-" && "---"[1..] == "--";
    assert Tokens("-") == ["-"];
    assert ['-'] + "-" == "--" && ['-'] + "--" == "---";
    assert Tokens("--") == [['-'] + "-"];
    assert Tokens("---") == [['-'] + "--"];
  }

  function Injected(ts: seq<string>, added: seq<string>): seq<string> {
    ts[..Boundary(ts)] + added + ts[Boundary(ts)..]
  }

  lemma InjectReaches(ts: seq<string>, added: seq<string>)
    requires added != [] && SEPARATOR !in added
    ensures (Live(Injected(ts, added)) == Live(ts) + added && Kept(Injected(ts, added)) == Kept(ts))
       <==> !(ts != [] && ts[0] == SEPARATOR)
  {
    if ts != [] && ts[0] == SEPARATOR {
      InjectMisses(ts, added);
    } else {
      if ts != [] { BoundarySpec(ts, 1); }
      LiveIs(ts, Boundary(ts));
      LiveGrows(ts, Boundary(ts), added);
    }
  }

  lemma InjectMisses(ts: seq<string>, added: seq<string>)
    requires ts != [] && ts[0] == SEPARATOR && added != []
    ensures Live(Injected(ts, added)) == [] && Live(ts) + added != []
  {
    assert Injected(ts, added)[0] == SEPARATOR;
    assert |Live(ts) + added| > 0;
  }

  lemma LiveGrows(ts: seq<string>, k: nat, added: seq<string>)
    requires k <= |ts| && (k < |ts| ==> ts[k] == SEPARATOR) && SEPARATOR !in added
    requires forall j :: 0 <= j < k ==> ts[j] != SEPARATOR
    ensures Live(ts[..k] + added + ts[k..]) == ts[..k] + added
    ensures Kept(ts[..k] + added + ts[k..]) == ts[k..]
  {
    var out, n := ts[..k] + added + ts[k..], k + |added|;
    LiveIs(out, n);
    assert out[..n] == ts[..k] + added && out[n..] == ts[k..];
  }

  lemma Regroup(a: string, b: string, c: string, d: string, e: string)
    ensures a + b + c + (d + e) == a + (b + ((c + d) + e))
  {
  }

  /** The line that was patched is a boot line again, with the same verb and the injected body. */
  lemma PatchedLine(line: string, b: Boot, args: string) returns (ws: string, patched: Boot)
    requires MatchLine(line) == Some(b) && !Text.Contains(b.body, MARK)
    ensures MatchLine(PatchLine(line, args)) == Some(patched) && patched.indent == b.indent && patched.verb == b.verb
    ensures AllWs(ws) && InjectBeforeSeparator(b.body, args) == ws + patched.body
  {
    var gap := MatchFound(line, b);
    var body;
    ws, body := WsSplit(InjectBeforeSeparator(b.body, args));
    patched := Boot(b.indent, b.verb, body);
    Regroup(b.indent, b.verb, " ", ws, body);
    assert (" " + ws)[1..] == ws;
    MatchIs(PatchLine(line, args), patched, " " + ws);
  }

  lemma PatchedTokens(body: string, args: string, ws: string, patched: string)
    requires Flush(body) && AllWs(ws) && InjectBeforeSeparator(body, args) == ws + patched
    ensures var ts, k := Tokens(body), Boundary(Tokens(body)); Tokens(patched) == ts[..k] + Tokens(args) + ts[k..]
  {
    InjectTokens(body, args);
    WsHasNoTokens(ws);
    TokensConcat(ws, patched);
    assert [] + Tokens(patched) == Tokens(patched);
  }

  lemma {:induction false} WsHasNoTokens(ws: string)
    requires AllWs(ws)
    ensures Tokens(ws) == []
    ensures ws != "" ==> Ws(ws[|ws| - 1])
  {
    if ws != "" { WsHasNoTokens(ws[1..]); }
  }

  // --- the file -----------------------------------------------------------------------

  lemma {:induction false} PatchLinesAt(lines: seq<string>, args: string, k: nat)
    requires k < |lines|
    ensures PatchLines(lines, args)[k] == PatchLine(lines[k], args)
  {
    if k > 0 { PatchLinesAt(lines[1..], args, k - 1); }
  }

  lemma NotInEither(c: char, a: string, b: string)
    ensures c !in a + b <==> c !in a && c !in b
  {
    if c in a + b {
      var k :| 0 <= k < |a + b| && (a + b)[k] == c;
      assert k < |a| ==> a[k] == c;
      assert k >= |a| ==> b[k - |a|] == c;
    }
    if c in a { var k :| 0 <= k < |a| && a[k] == c; assert (a + b)[k] == c; }
    if c in b { var k :| 0 <= k < |b| && b[k] == c; assert (a + b)[|a| + k] == c; }
  }

  lemma InjectStaysOneLine(body: string, args: string)
    requires '\n' !in body && '\n' !in args
    ensures '\n' !in InjectBeforeSeparator(body, args)
  {
    var i := FindSep(body);
    assert body == body[..i] + body[i..];
    NotInEither('\n', body[..i], body[i..]);
    NotInEither('\n', body[..i] + " ", args);
    NotInEither('\n', body[..i] + " " + args, body[i..]);
  }

  lemma PatchLineStaysOneLine(line: string, args: string)
    requires '\n' !in line && '\n' !in args
    ensures '\n' !in PatchLine(line, args)
  {
    var m := MatchLine(line);
    if m != None && !Text.Contains(m.value.body, MARK) {
      var b := m.value;
      var gap := MatchFound(line, b);
      NotInEither('\n', b.indent, b.verb + (gap + b.body));
      NotInEither('\n', b.verb, gap + b.body);
      NotInEither('\n', gap, b.body);
      InjectStaysOneLine(b.body, args);
      NotInEither('\n', b.indent, b.verb);
      NotInEither('\n', b.indent + b.verb, " ");
      NotInEither('\n', b.indent + b.verb + " ", InjectBeforeSeparator(b.body, args));
    }
  }

  /** A line that looks patched already, and a line that is no boot line, stay as they are. */
  lemma LineStays(line: string, args: string)
    requires MatchLine(line) == None || Text.Contains(MatchLine(line).value.body, "autoinstall")
    ensures PatchLine(line, args) == line
  {
  }

  lemma {:induction false} PatchLinesStay(lines: seq<string>, args: string)
    requires Text.NoneHas(lines, '\n') && '\n' !in args
    ensures Text.NoneHas(PatchLines(lines, args), '\n')
  {
    if lines != [] {
      PatchLineStaysOneLine(lines[0], args);
      PatchLinesStay(lines[1..], args);
      assert PatchLines(lines, args)[1..] == PatchLines(lines[1..], args);
    }
  }

  /** The patched file has the lines of the original one by one, patched: as many of them, those that are not
      boot lines as they were. */
  lemma PatchKeepsLines(text: string, args: string)
    requires '\n' !in args
    ensures var lines := Text.Split(text, '\n');
            Text.Split(Patch(text, args), '\n') == PatchLines(lines, args) &&
            forall k :: 0 <= k < |lines| ==>
              PatchLines(lines, args)[k] == PatchLine(lines[k], args) &&
              (MatchLine(lines[k]) == None || Text.Contains(MatchLine(lines[k]).value.body, "autoinstall") ==>
                 PatchLines(lines, args)[k] == lines[k])
  {
    var lines := Text.Split(text, '\n');
    Text.JoinSplit(text, '\n');
    PatchLinesStay(lines, args);
    Text.SplitJoin(PatchLines(lines, args), '\n');
    forall k | 0 <= k < |lines| ensures PatchLines(lines, args)[k] == PatchLine(lines[k], args) {
      PatchLinesAt(lines, args, k);
    }
  }

  lemma OccursLater(prefix: string, s: string, sub: string)
    requires Text.Contains(s, sub)
    ensures Text.Contains(prefix + s, sub)
  {
    Text.ContainsIff(s, sub);
    Text.ContainsIff(prefix + s, sub);
    var p :| Text.OccursAt(s, sub, p);
    assert (prefix + s)[|prefix| + p..|prefix| + p + |sub|] == s[p..p + |sub|];
    assert Text.OccursAt(prefix + s, sub, |prefix| + p);
  }

  lemma OccursBefore(s: string, suffix: string, sub: string)
    requires Text.Contains(s, sub)
    ensures Text.Contains(s + suffix, sub)
  {
    Text.ContainsIff(s, sub);
    Text.ContainsIff(s + suffix, sub);
    var p :| Text.OccursAt(s, sub, p);
    assert (s + suffix)[p..p + |sub|] == s[p..p + |sub|];
    assert Text.OccursAt(s + suffix, sub, p);
  }

  lemma {:induction false} MarkAfterWs(ws: string, s: string)
    requires AllWs(ws) && Text.Contains(ws + s, MARK)
    ensures Text.Contains(s, MARK)
  {
    if ws == "" {
      assert ws + s == s;
    } else {
      var t := ws + s;
      assert t[1..] == ws[1..] + s;
      Text.ContainsIff(t, MARK);
      var p :| Text.OccursAt(t, MARK, p);
      assert MARK[0] == 'a' && t[p..p + |MARK|][0] == t[p];
      Text.OccursInTail(t, MARK, p);
      Text.ContainsIff(t[1..], MARK);
      MarkAfterWs(ws[1..], s);
    }
  }

  lemma PatchLineTwice(line: string, args: string)
    requires Text.Contains(args, MARK)
    ensures PatchLine(PatchLine(line, args), args) == PatchLine(line, args)
  {
    var m := MatchLine(line);
    if m != None && !Text.Contains(m.value.body, MARK) {
      var b := m.value;
      var ws, patched := PatchedLine(line, b, args);
      var i := FindSep(b.body);
      OccursLater(b.body[..i] + " ", args, MARK);
      OccursBefore(b.body[..i] + " " + args, b.body[i..], MARK);
      MarkAfterWs(ws, patched.body);
    }
  }

  lemma {:induction false} PatchLinesTwice(lines: seq<string>, args: string)
    requires Text.Contains(args, MARK)
    ensures PatchLines(PatchLines(lines, args), args) == PatchLines(lines, args)
  {
    if lines != [] {
      PatchLineTwice(lines[0], args);
      PatchLinesTwice(lines[1..], args);
      assert PatchLines(lines, args)[1..] == PatchLines(lines[1..], args);
    }
  }

  lemma LineGrows(b: Boot, args: string)
    requires b.indent == "" && b.verb == "linux" && Flush(b.body) && !Text.Contains(b.body, MARK)
    ensures MatchLine("linux " + b.body) == Some(b)
    ensures PatchLine("linux " + b.body, args) == "linux " + InjectBeforeSeparator(b.body, args)
    ensures |InjectBeforeSeparator(b.body, args)| > |b.body|
  {
    Regroup("", "linux", " ", "", b.body);
    assert "" + b.body == b.body && " " + "" == " ";
    assert AllWs(" ") by { assert " "[1..] == ""; }
    assert "" + "linux" + " " == "linux ";
    MatchIs("linux " + b.body, b, " ");
  }

  /** Without the mark in the arguments, a boot line is patched again and again. */
  lemma PatchedAgain(args: string)
    requires '\n' !in args && !Text.Contains(args, MARK)
    ensures !PatchedOnce("linux x", args)
  {
    NoMarkInX(args);
    PatchLinuxX(args);
    PatchGrows("x " + args, args);
  }

  lemma PatchLinuxX(args: string)
    requires '\n' !in args
    ensures Patch("linux x", args) == "linux " + ("x " + args)
  {
    Text.ContainsIff("x", MARK);
    LineGrows(Boot("", "linux", "x"), args);
    assert FindSep("x") == 1 && InjectBeforeSeparator("x", args) == "x " + args;
    assert "linux " + "x" == "linux x";
    PatchOneLine("linux x", args);
  }

  lemma PatchGrows(body: string, args: string)
    requires '\n' !in body && body != "" && Flush(body) && !Text.Contains(body, MARK)
    ensures |Patch("linux " + body, args)| > |"linux " + body|
  {
    LineGrows(Boot("", "linux", body), args);
    PatchOneLine("linux " + body, args);
  }

  lemma NoMarkInX(args: string)
    requires !Text.Contains(args, MARK)
    ensures !Text.Contains("x " + args, MARK)
  {
    var s := "x " + args;
    Text.ContainsIff(s, MARK);
    Text.ContainsIff(args, MARK);
    forall p | Text.OccursAt(s, MARK, p) ensures false {
      assert MARK[0] == 'a' && s[p..p + |MARK|][0] == s[p];
      assert s[p..p + |MARK|] == args[p - 2..p - 2 + |MARK|];
      assert Text.OccursAt(args, MARK, p - 2);
    }
  }

  lemma PatchOneLine(line: string, args: string)
    requires '\n' !in line
    ensures Patch(line, args) == PatchLine(line, args)
  {
    Text.SplitFirst(line, "", '\n');
    assert [line][1..] == [];
  }

  /** Patching the file again changes nothing. */
  predicate PatchedOnce(text: string, args: string) { Patch(Patch(text, args), args) == Patch(text, args) }

  lemma PatchTwice(text: string, args: string)
    requires '\n' !in args && Text.Contains(args, MARK)
    ensures PatchedOnce(text, args)
  {
    PatchKeepsLines(text, args);
    PatchLinesTwice(Text.Split(text, '\n'), args);
  }

  /** For arguments on one line: patching any file twice is patching it once exactly when the arguments carry
      the mark that patched lines are told by. */
  lemma PatchIdempotentIff(args: string)
    requires '\n' !in args
    ensures (forall text :: PatchedOnce(text, args)) <==> Text.Contains(args, MARK)
  {
    if Text.Contains(args, MARK) {
      forall text ensures PatchedOnce(text, args) { PatchTwice(text, args); }
    } else {
      PatchedAgain(args);
    }
  }

  /** The body of the loop. */
  method PatchOne(line: string, args: string) returns (patched: string)
    ensures patched == PatchLine(line, args)
  {
    var m := MatchLine(line);
    if m == None || Text.Contains(m.value.body, MARK) { return line; }
    patched := m.value.indent + m.value.verb + " " + InjectBeforeSeparator(m.value.body, args);
  }

  /** The loop of `patchKernelCmdline`, over the lines in place. */
  method PatchInPlace(lines: array<string>, args: string)
    modifies lines
    ensures lines[..] == PatchLines(old(lines[..]), args)
  {
    ghost var was, want := lines[..], PatchLines(lines[..], args);
    var i := 0;
    while i < lines.Length
      invariant 0 <= i <= lines.Length
      invariant forall k :: 0 <= k < lines.Length ==> lines[k] == if k < i then want[k] else was[k]
    {
      PatchLinesAt(was, args, i);
      lines[i] := PatchOne(lines[i], args);
      i := i + 1;
    }
    assert lines[..] == want;
  }

  method PatchKernelCmdline(text: string, args: string) returns (out: string)
    ensures out == Patch(text, args)
  {
    var parts := Text.Split(text, '\n');
    var lines := new string[|parts|](i requires 0 <= i < |parts| => parts[i]);
    assert lines[..] == parts;
    PatchInPlace(lines, args);
    out := Text.Join(lines[..], '\n');
  }
}
