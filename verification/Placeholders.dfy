/** The `${kind:spec|filters}` placeholders: the matcher, the parser that lists them and the expansion that
    replaces them. */
module Placeholders {
  import opened Wrappers
  import Numbers
  import Text

  datatype Kind = Env | File | Vault | Gen | Ref

  /** A match of the pattern. `filter` is what follows the first bar, empty when there is no bar. */
  datatype Placeholder = Placeholder(kind: Kind, spec: string, filter: string)

  function Head(k: Kind): string {
    match k
    case Env => "${env:"
    case File => "${file:"
    case Vault => "${vault:"
    case Gen => "${gen:"
    case Ref => "${ref:"
  }

  /** The text of a placeholder. */
  function Raw(p: Placeholder): string {
    Head(p.kind) + Tail(p.spec, p.filter)
  }

  function Tail(spec: string, filter: string): string {
    spec + (if filter == "" then "}" else "|" + filter + "}")
  }

  /** No character of `s` is one of `stops`. */
  predicate Free(s: string, stops: set<char>) {
    forall i :: 0 <= i < |s| ==> s[i] !in stops
  }

  const AFTER_SPEC: set<char> := {'}', '|'}
  const AFTER_FILTER: set<char> := {'}'}

  /** What the pattern's two groups can hold. */
  predicate WellFormed(p: Placeholder) {
    p.spec != "" && Free(p.spec, AFTER_SPEC) && Free(p.filter, AFTER_FILTER)
  }

  // --- the matcher -----------------------------------------------------------------

  /** The length of the longest prefix of `s` without a stop. */
  function Span(s: string, stops: set<char>): (n: nat)
    ensures n <= |s|
  {
    if s == "" || s[0] in stops then 0 else 1 + Span(s[1..], stops)
  }

  lemma {:induction false} SpanSpec(s: string, stops: set<char>)
    ensures Free(s[..Span(s, stops)], stops)
    ensures Span(s, stops) < |s| ==> s[Span(s, stops)] in stops
  {
    if s != "" && s[0] !in stops {
      SpanSpec(s[1..], stops);
      assert s[..Span(s, stops)] == [s[0]] + s[1..][..Span(s[1..], stops)];
    }
  }

  lemma {:induction false} SpanIs(s: string, stops: set<char>, run: string, c: char, rest: string)
    requires Free(run, stops) && c in stops && s == run + [c] + rest
    ensures Span(s, stops) == |run| && s[..|run|] == run && s[|run|] == c && s[|run| + 1..] == rest
    decreases |run|
  {
    if run != "" {
      assert s[0] == run[0] && s[1..] == run[1..] + [c] + rest;
      SpanIs(s[1..], stops, run[1..], c, rest);
    }
  }

  function KindAt(s: string): Option<Kind> {
    if Head(Env) <= s then Some(Env)
    else if Head(File) <= s then Some(File)
    else if Head(Vault) <= s then Some(Vault)
    else if Head(Gen) <= s then Some(Gen)
    else if Head(Ref) <= s then Some(Ref)
    else None
  }

  /** The groups after the head. Both runs are maximal: nothing but a stop may follow either. */
  function MatchTail(t: string): Option<(string, string)> {
    var n := Span(t, AFTER_SPEC);
    if n == 0 || n == |t| then None
    else if t[n] == '}' then Some((t[..n], ""))
    else MatchFilter(t[..n], t[n + 1..])
  }

  function MatchFilter(spec: string, t: string): Option<(string, string)> {
    var m := Span(t, AFTER_FILTER);
    if m == 0 || m == |t| then None else Some((spec, t[..m]))
  }

  /** The match of the pattern at the very start of `s`. */
  function MatchAt(s: string): Option<Placeholder> {
    var k := KindAt(s);
    if k == None then None
    else
      var groups := MatchTail(s[|Head(k.value)|..]);
      if groups == None then None else Some(Placeholder(k.value, groups.value.0, groups.value.1))
  }

  lemma KindIff(s: string, k: Kind)
    ensures KindAt(s) == Some(k) <==> Head(k) <= s
  {
    assert Head(k)[2] == match k case Env => 'e' case File => 'f' case Vault => 'v' case Gen => 'g' case Ref => 'r';
  }

  lemma FilterIff(spec: string, t: string, filter: string)
    requires filter != ""
    ensures MatchFilter(spec, t) == Some((spec, filter)) <==> Free(filter, AFTER_FILTER) && filter + "}" <= t
  {
    SpanSpec(t, AFTER_FILTER);
    if Free(filter, AFTER_FILTER) && filter + "}" <= t {
      assert t == filter + ['}'] + t[|filter| + 1..];
      SpanIs(t, AFTER_FILTER, filter, '}', t[|filter| + 1..]);
    }
  }

  lemma TailMatches(t: string, spec: string, filter: string)
    requires spec != "" && Free(spec, AFTER_SPEC) && Free(filter, AFTER_FILTER) && Tail(spec, filter) <= t
    ensures MatchTail(t) == Some((spec, filter))
  {
    var rest := t[|spec| + 1..];
    var c := if filter == "" then '}' else '|';
    assert t[|spec|] == Tail(spec, filter)[|spec|] == c;
    assert t == spec + [c] + rest;
    SpanIs(t, AFTER_SPEC, spec, c, rest);
    if filter != "" {
      assert Tail(spec, filter)[|spec| + 1..] == filter + "}";
      assert filter + "}" <= rest;
      FilterIff(spec, rest, filter);
    }
  }

  lemma TailFound(t: string, spec: string, filter: string)
    requires MatchTail(t) == Some((spec, filter))
    ensures spec != "" && Free(spec, AFTER_SPEC) && Free(filter, AFTER_FILTER) && Tail(spec, filter) <= t
  {
    var n := Span(t, AFTER_SPEC);
    SpanSpec(t, AFTER_SPEC);
    assert t == spec + [t[n]] + t[n + 1..];
    if filter != "" {
      FilterIff(spec, t[n + 1..], filter);
      assert Tail(spec, filter) == spec + ['|'] + (filter + "}");
    }
  }

  /** The matcher is the pattern: `p` matches at the start of `s` exactly when `s` starts with the text of
      `p` and the groups of `p` hold what the pattern lets them hold. At most one `p` does. */
  lemma MatchIff(s: string, p: Placeholder)
    ensures MatchAt(s) == Some(p) <==> WellFormed(p) && Raw(p) <= s
  {
    KindIff(s, p.kind);
    if Head(p.kind) <= s {
      var t := s[|Head(p.kind)|..];
      assert s == Head(p.kind) + t;
      assert Raw(p) <= s <==> Tail(p.spec, p.filter) <= t;
      if WellFormed(p) && Raw(p) <= s { TailMatches(t, p.spec, p.filter); }
      if MatchAt(s) == Some(p) { TailFound(t, p.spec, p.filter); }
    }
  }

  /** The text of a match matches by itself, with the same groups: the second match of the replacement
      function always succeeds. */
  lemma RawMatchesItself(s: string, p: Placeholder)
    requires MatchAt(s) == Some(p)
    ensures MatchAt(Raw(p)) == Some(p)
  {
    MatchIff(s, p);
    MatchIff(Raw(p), p);
  }

  // --- scanning and printing ------------------------------------------------------------

  /** A text, cut into the matches and the characters between them. */
  datatype Piece = Char(c: char) | Hole(p: Placeholder)

  function PieceText(x: Piece): string {
    match x
    case Char(c) => [c]
    case Hole(p) => Raw(p)
  }

  function Print(ps: seq<Piece>): string {
    if ps == [] then "" else PieceText(ps[0]) + Print(ps[1..])
  }

  /** Matches are looked for from the left and do not overlap. */
  function Scan(s: string): (ps: seq<Piece>) {
    if s == "" then []
    else
      var m := MatchAt(s);
      if m == None then [Char(s[0])] + Scan(s[1..])
      else
        MatchIff(s, m.value);
        [Hole(m.value)] + Scan(s[|Raw(m.value)|..])
  }

  lemma ScanStep(s: string)
    requires s != ""
    ensures MatchAt(s) == None ==> Scan(s)[0] == Char(s[0]) && Scan(s)[1..] == Scan(s[1..])
    ensures MatchAt(s) != None ==> var p := MatchAt(s).value;
            WellFormed(p) && Raw(p) <= s && Scan(s)[0] == Hole(p) && Scan(s)[1..] == Scan(s[|Raw(p)|..])
  {
    var m := MatchAt(s);
    if m != None { MatchIff(s, m.value); }
  }

  /** Every hole is a match, and no match starts at a character left outside the holes. */
  predicate Leftmost(ps: seq<Piece>) {
    ps != [] ==>
      (match ps[0]
       case Char(_) => MatchAt(Print(ps)) == None
       case Hole(p) => WellFormed(p)) &&
      Leftmost(ps[1..])
  }

  lemma {:induction false} ScanPrints(s: string)
    ensures Print(Scan(s)) == s && Leftmost(Scan(s))
  {
    if s != "" {
      ScanStep(s);
      var m := MatchAt(s);
      if m == None {
        ScanPrints(s[1..]);
        CharPrinted(s, Scan(s));
      } else {
        ScanPrints(s[|Raw(m.value)|..]);
        HolePrinted(s, Scan(s), m.value);
      }
    }
  }

  lemma CharPrinted(s: string, ps: seq<Piece>)
    requires s != "" && ps != [] && MatchAt(s) == None && ps[0] == Char(s[0]) && Print(ps[1..]) == s[1..] && Leftmost(ps[1..])
    ensures Print(ps) == s && Leftmost(ps)
  {
  }

  lemma HolePrinted(s: string, ps: seq<Piece>, p: Placeholder)
    requires ps != [] && Raw(p) <= s && WellFormed(p) && ps[0] == Hole(p) && Print(ps[1..]) == s[|Raw(p)|..] && Leftmost(ps[1..])
    ensures Print(ps) == s && Leftmost(ps)
  {
  }

  lemma PrintStep(ps: seq<Piece>)
    requires ps != []
    ensures PieceText(ps[0]) <= Print(ps) && Print(ps)[|PieceText(ps[0])|..] == Print(ps[1..])
  {
  }

  lemma SameHeadAndTail(a: seq<Piece>, b: seq<Piece>)
    requires a != [] && b != [] && a[0] == b[0] && a[1..] == b[1..]
    ensures a == b
  {
    assert a == [a[0]] + a[1..] && b == [b[0]] + b[1..];
  }

  lemma {:induction false} LeftmostIsScan(ps: seq<Piece>)
    requires Leftmost(ps)
    ensures Scan(Print(ps)) == ps
  {
    if ps != [] {
      LeftmostIsScan(ps[1..]);
      LeftmostStep(ps, Print(ps));
      SameHeadAndTail(Scan(Print(ps)), ps);
    }
  }

  lemma LeftmostStep(ps: seq<Piece>, s: string)
    requires ps != [] && Leftmost(ps) && s == Print(ps) && Scan(Print(ps[1..])) == ps[1..]
    ensures Scan(s) != [] && Scan(s)[0] == ps[0] && Scan(s)[1..] == ps[1..]
  {
    PrintStep(ps);
    if ps[0].Hole? { MatchIff(s, ps[0].p); }
    ScanStep(s);
  }

  /** The scan is the one way of cutting the text that leaves no match uncovered and covers nothing else. */
  lemma ScanIff(s: string, ps: seq<Piece>)
    ensures ps == Scan(s) <==> Print(ps) == s && Leftmost(ps)
  {
    ScanPrints(s);
    if Print(ps) == s && Leftmost(ps) { LeftmostIsScan(ps); }
  }

  /** Placeholders the pattern can match, and literals in which no dollar sign has a brace right behind it: prices,
      password hashes and the like are such literals, and a dollar sign may end them. */
  predicate Printable(ps: seq<Piece>) {
    ps != [] ==>
      (match ps[0] case Char(c) => !(c == '$' && |ps| > 1 && ps[1] == Char('{')) case Hole(p) => WellFormed(p)) && Printable(ps[1..])
  }

  lemma NoMatchWithoutOpening(s: string)
    requires |s| < 2 || s[0] != '$' || s[1] != '{'
    ensures MatchAt(s) == None
  {
    assert forall k :: |Head(k)| >= 6 && Head(k)[0] == '$' && Head(k)[1] == '{';
  }

  lemma {:induction false} PrintableLeftmost(ps: seq<Piece>)
    requires Printable(ps)
    ensures Leftmost(ps)
  {
    if ps != [] {
      PrintableLeftmost(ps[1..]);
      if ps[0].Char? {
        PrintStep(ps);
        if |ps| > 1 {
          PrintStep(ps[1..]);
          assert Print(ps)[1] == Print(ps[1..])[0] == PieceText(ps[1])[0];
        }
        NoMatchWithoutOpening(Print(ps));
      }
    }
  }

  function Holes(ps: seq<Piece>): seq<Placeholder> {
    if ps == [] then []
    else (if ps[0].Hole? then [ps[0].p] else []) + Holes(ps[1..])
  }

  /** Printing and parsing undo each other: whatever literals and placeholders are printed one after the
      other, the placeholders come back, in order, and nothing else. */
  lemma ParseInvertsPrint(ps: seq<Piece>)
    requires Printable(ps)
    ensures Scan(Print(ps)) == ps && Holes(Scan(Print(ps))) == Holes(ps)
  {
    PrintableLeftmost(ps);
    LeftmostIsScan(ps);
  }

  /** With `done` found and `rest` still to scan, the parse will give `end`. */
  ghost predicate ParseLeft(end: seq<Placeholder>, done: seq<Placeholder>, rest: string) {
    end == done + Holes(Scan(rest))
  }

  lemma HolesStep(s: string)
    requires s != ""
    ensures MatchAt(s) == None ==> Holes(Scan(s)) == Holes(Scan(s[1..]))
    ensures MatchAt(s) != None ==> var p := MatchAt(s).value;
            Raw(p) <= s && Holes(Scan(s)) == [p] + Holes(Scan(s[|Raw(p)|..]))
  {
    ScanStep(s);
    if MatchAt(s) == None { assert [] + Holes(Scan(s)[1..]) == Holes(Scan(s)[1..]); }
  }

  lemma Reassociate<T>(a: seq<T>, b: seq<T>, c: seq<T>)
    ensures a + (b + c) == a + b + c
  {
  }

  lemma ParseStep(end: seq<Placeholder>, done: seq<Placeholder>, rest: string)
    requires ParseLeft(end, done, rest) && rest != ""
    ensures MatchAt(rest) == None ==> ParseLeft(end, done, rest[1..])
    ensures MatchAt(rest) != None ==> var p := MatchAt(rest).value;
            Raw(p) <= rest && ParseLeft(end, done + [p], rest[|Raw(p)|..])
  {
    HolesStep(rest);
    if MatchAt(rest) != None {
      var p := MatchAt(rest).value;
      Reassociate(done, [p], Holes(Scan(rest[|Raw(p)|..])));
    }
  }

  /** `ParsePlaceholders`. */
  method ParsePlaceholders(input: string) returns (out: seq<Placeholder>)
    ensures out == Holes(Scan(input))
  {
    out := [];
    var rest := input;
    ghost var end := Holes(Scan(input));
    while rest != ""
      invariant ParseLeft(end, out, rest)
      decreases |rest|
    {
      ParseStep(end, out, rest);
      var m := MatchAt(rest);
      if m == None {
        rest := rest[1..];
      } else {
        out, rest := out + [m.value], rest[|Raw(m.value)|..];
      }
    }
  }

  // --- what a placeholder stands for ---------------------------------------------------

  /** The variables, the files and the loaded tree the values come from, the manifest's name with the digest that
      passwords are cut from, and the base64 encoding. A name that cannot be looked up, a file that cannot be read
      and a path that leads nowhere give `None`. */
  datatype Sources = Sources(
    lookupEnv: string -> Option<string>,
    readFile: string -> Option<string>,
    expandHome: string -> string,
    envName: string,
    hexDigest: string -> string,
    refPath: string -> Option<string>,
    base64: string -> string)

  datatype Error = NoVariable(name: string) | NoFile(path: string) | NoReference(path: string)

  /** `deferred` values are placeholders again, for a later stage to fill in. */
  datatype Answer = Value(text: string, deferred: bool) | Failed(error: Error)

  function TrimAll(parts: seq<string>): (trimmed: seq<string>)
    ensures |trimmed| == |parts| && forall i :: 0 <= i < |parts| ==> trimmed[i] == Text.TrimSpace(parts[i])
  {
    if parts == [] then [] else [Text.TrimSpace(parts[0])] + TrimAll(parts[1..])
  }

  function Filters(p: Placeholder): seq<string> {
    if p.filter == "" then [] else TrimAll(Text.Split(p.filter, '|'))
  }

  const DEFAULT := "default:"

  function DefaultOf(filters: seq<string>): Option<string> {
    if filters == [] then None
    else if DEFAULT <= filters[0] then Some(filters[0][|DEFAULT|..])
    else DefaultOf(filters[1..])
  }

  function OrDefault(filters: seq<string>, error: Error): Answer {
    var d := DefaultOf(filters);
    if d == None then Failed(error) else Value(d.value, false)
  }

  function TrimNewlines(s: string): string {
    if s != "" && s[|s| - 1] == '\n' then TrimNewlines(s[..|s| - 1]) else s
  }

  const PASSWORD := "password"
  const SSH_KEY := "ssh_key"
  const KEY_MARKER := "<GEN_SSH_KEY:"

  /** `expandGen`. */
  function Generated(src: Sources, spec: string): string {
    var parts := Text.Split(spec, ':');
    if parts[0] == PASSWORD then
      if |parts| < 2 then "" else Password(src, Numbers.Atoi(parts[1]), if |parts| >= 3 then parts[2] else "")
    else if parts[0] == SSH_KEY then KEY_MARKER + (if |parts| >= 2 then parts[1] else "ed25519") + ">"
    else ""
  }

  function Password(src: Sources, length: Option<int>, seed: string): string {
    if length == None || length.value <= 0 then ""
    else
      var digest := src.hexDigest(src.envName + ":" + seed);
      if length.value > |digest| then digest else digest[..length.value]
  }

  function Resolve(src: Sources, p: Placeholder): Answer {
    match p.kind
    case Env =>
      var v := src.lookupEnv(p.spec);
      if v == None || v.value == "" then OrDefault(Filters(p), NoVariable(p.spec)) else Value(v.value, false)
    case File =>
      var b := src.readFile(src.expandHome(p.spec));
      if b == None then OrDefault(Filters(p), NoFile(p.spec)) else Value(TrimNewlines(b.value), false)
    case Vault => Value("<VAULT:" + p.spec + ">", true)
    case Gen => Value(Generated(src, p.spec), SSH_KEY + ":" <= p.spec)
    case Ref =>
      var v := src.refPath(p.spec);
      if v == None then Failed(NoReference(p.spec)) else Value(v.value, false)
  }

  /** The filters other than the default, in order; one that is not known is skipped. */
  function Filtered(src: Sources, filters: seq<string>, value: string): string {
    if filters == [] then value
    else Filtered(src, filters[1..], if filters[0] == "base64" then src.base64(value) else value)
  }

  /** What the placeholder is replaced by; a failed one stays as it is. */
  function Replacement(src: Sources, p: Placeholder): string {
    var a := Resolve(src, p);
    if a.Failed? then Raw(p) else Filtered(src, Filters(p), a.text)
  }

  /** The default is the first one given. */
  lemma {:induction false} DefaultIsFirst(filters: seq<string>, d: string)
    ensures DefaultOf(filters) == Some(d) <==>
              exists i :: 0 <= i < |filters| && filters[i] == DEFAULT + d && forall j :: 0 <= j < i ==> !(DEFAULT <= filters[j])
  {
    if filters != [] {
      if DEFAULT <= filters[0] {
        assert filters[0] == DEFAULT + filters[0][|DEFAULT|..];
        assert (DEFAULT + d)[|DEFAULT|..] == d;
      } else {
        DefaultIsFirst(filters[1..], d);
        assert !(filters[0] == DEFAULT + d);
        if i :| 0 <= i < |filters| && filters[i] == DEFAULT + d && forall j :: 0 <= j < i ==> !(DEFAULT <= filters[j]) {
          assert filters[1..][i - 1] == filters[i];
          assert forall j :: 0 <= j < i - 1 ==> filters[1..][j] == filters[j + 1];
        }
        if i :| 0 <= i < |filters[1..]| && filters[1..][i] == DEFAULT + d && forall j :: 0 <= j < i ==> !(DEFAULT <= filters[1..][j]) {
          assert filters[i + 1] == DEFAULT + d;
          assert forall j :: 0 < j < i + 1 ==> filters[j] == filters[1..][j - 1];
        }
      }
    }
  }

  lemma {:induction false} NoDefaultIff(filters: seq<string>)
    ensures DefaultOf(filters) == None <==> forall i :: 0 <= i < |filters| ==> !(DEFAULT <= filters[i])
  {
    if filters != [] {
      NoDefaultIff(filters[1..]);
      assert forall i :: 0 < i < |filters| ==> filters[i] == filters[1..][i - 1];
    }
  }

  /** What a placeholder's source has for it; an empty variable counts as none. */
  predicate Found(src: Sources, p: Placeholder) {
    match p.kind
    case Env => src.lookupEnv(p.spec).Some? && src.lookupEnv(p.spec).value != ""
    case File => src.readFile(src.expandHome(p.spec)).Some?
    case Ref => src.refPath(p.spec).Some?
    case _ => true
  }

  /** A placeholder fails exactly when its source has nothing for it and no default is given; a reference into
      the tree cannot be given one. */
  lemma FailsIff(src: Sources, p: Placeholder)
    ensures Resolve(src, p).Failed? <==>
              !Found(src, p) && (p.kind == Ref || forall i :: 0 <= i < |Filters(p)| ==> !(DEFAULT <= Filters(p)[i]))
  {
    NoDefaultIff(Filters(p));
  }

  /** A source that has something is asked for nothing else: no default counts then. */
  lemma FoundGives(src: Sources, p: Placeholder, v: string)
    ensures p.kind == Env && src.lookupEnv(p.spec) == Some(v) && v != "" ==> Resolve(src, p) == Value(v, false)
    ensures p.kind == Ref && src.refPath(p.spec) == Some(v) ==> Resolve(src, p) == Value(v, false)
    ensures p.kind == File && src.readFile(src.expandHome(p.spec)) == Some(v) ==>
              var a := Resolve(src, p);
              && a.Value? && !a.deferred && a.text <= v && (forall i :: |a.text| <= i < |v| ==> v[i] == '\n')
              && (a.text != "" ==> a.text[|a.text| - 1] != '\n')
    ensures p.kind == Vault ==> Resolve(src, p) == Value("<VAULT:" + p.spec + ">", true)
  {
    TrimNewlinesSpec(v);
  }

  /** Nothing found: the first default is the value, and without one the error names what was looked for. */
  lemma MissingGives(src: Sources, p: Placeholder, i: nat, d: string)
    requires p.kind in {Env, File} && !Found(src, p)
    ensures i < |Filters(p)| && Filters(p)[i] == "default:" + d && (forall j :: 0 <= j < i ==> !("default:" <= Filters(p)[j])) ==>
              Resolve(src, p) == Value(d, false)
    ensures Resolve(src, p).Failed? ==> Resolve(src, p).error == if p.kind == Env then NoVariable(p.spec) else NoFile(p.spec)
  {
    DefaultIsFirst(Filters(p), d);
  }

  /** `text` in base64, k times over. */
  function Encoded(src: Sources, k: nat, text: string): string {
    if k == 0 then text else Encoded(src, k - 1, src.base64(text))
  }

  /** Every `base64` among the filters encodes once more, and no other filter does anything to the value. */
  lemma {:induction false} FilteredMeans(src: Sources, filters: seq<string>, value: string)
    ensures Filtered(src, filters, value) == Encoded(src, multiset(filters)["base64"], value)
  {
    if filters != [] {
      assert filters == [filters[0]] + filters[1..];
      FilteredMeans(src, filters[1..], if filters[0] == "base64" then src.base64(value) else value);
    }
  }

  /** The filters are what stands between the bars, trimmed. */
  lemma FiltersMean(kind: Kind, spec: string, parts: seq<string>)
    requires parts != [] && Text.NoneHas(parts, '|') && Text.Join(parts, '|') != ""
    ensures var fs := Filters(Placeholder(kind, spec, Text.Join(parts, '|')));
            |fs| == |parts| && forall i :: 0 <= i < |parts| ==> fs[i] == Text.TrimSpace(parts[i])
  {
    Text.SplitJoin(parts, '|');
  }

  /** What the generators give: the digest's first characters, a key marker, or nothing. */
  lemma GeneratedMeans(src: Sources, n: Numbers.Int, seed: string)
    requires ':' !in seed
    ensures var digest := src.hexDigest(src.envName + ":" + seed);
            Generated(src, "password:" + (Numbers.Itoa(n) + ":" + seed)) ==
              if n <= 0 then "" else if n > |digest| then digest else digest[..n]
    ensures Generated(src, "ssh_key:" + seed) == "<GEN_SSH_KEY:" + seed + ">"
    ensures Generated(src, "ssh_key") == "<GEN_SSH_KEY:ed25519>"
  {
    NoColonInNumber(n);
    PasswordGenerated(src, n, Numbers.Itoa(n), seed);
    KeyGenerated(src, seed);
  }

  lemma PasswordGenerated(src: Sources, n: int, number: string, seed: string)
    requires ':' !in seed && ':' !in number && number == Numbers.Itoa(n) && Numbers.Fits(n)
    ensures Generated(src, "password:" + (number + ":" + seed)) == Password(src, Some(n), seed)
  {
    SplitThree("password", number, seed);
    Numbers.AtoiInvertsItoa(n);
    var spec := "password:" + (number + ":" + seed);
    assert spec == "password" + ":" + (number + ":" + seed);
    PasswordOf(src, spec, number, seed);
  }

  lemma PasswordOf(src: Sources, spec: string, number: string, seed: string)
    requires Text.Split(spec, ':') == ["password", number, seed]
    ensures Generated(src, spec) == Password(src, Numbers.Atoi(number), seed)
  {
  }

  lemma KeyGenerated(src: Sources, kind: string)
    requires ':' !in kind
    ensures Generated(src, "ssh_key:" + kind) == "<GEN_SSH_KEY:" + kind + ">"
    ensures Generated(src, "ssh_key") == "<GEN_SSH_KEY:ed25519>"
  {
    SplitTwo("ssh_key", kind);
    PrefixedKey(kind);
    KeyOf(src, "ssh_key:" + kind, kind);
    BareKey(src, "ssh_key");
  }

  lemma PrefixedKey(kind: string)
    ensures "ssh_key" + ":" + kind == "ssh_key:" + kind
  {
  }

  lemma SplitTwo(a: string, b: string)
    requires ':' !in a && ':' !in b
    ensures Text.Split(a + ":" + b, ':') == [a, b] && Text.Split(a, ':') == [a]
  {
    Text.SplitFirst(a, b, ':');
    Text.SplitFirst(b, "", ':');
    assert a + [':'] + b == a + ":" + b;
  }

  lemma BareKey(src: Sources, spec: string)
    requires Text.Split(spec, ':') == ["ssh_key"]
    ensures Generated(src, spec) == "<GEN_SSH_KEY:ed25519>"
  {
    assert "<GEN_SSH_KEY:" + "ed25519" + ">" == "<GEN_SSH_KEY:ed25519>";
  }

  lemma KeyOf(src: Sources, spec: string, kind: string)
    requires Text.Split(spec, ':') == ["ssh_key", kind]
    ensures Generated(src, spec) == "<GEN_SSH_KEY:" + kind + ">"
  {
  }

  lemma NoColonInNumber(n: int)
    ensures ':' !in Numbers.Itoa(n)
  {
    Numbers.DigitsAre(if n < 0 then -n else n);
  }

  lemma SplitThree(a: string, b: string, c: string)
    requires ':' !in a && ':' !in b && ':' !in c
    ensures Text.Split(a + ":" + (b + ":" + c), ':') == [a, b, c]
  {
    Text.SplitFirst(a, b + ":" + c, ':');
    Text.SplitFirst(b, c, ':');
    Text.SplitFirst(c, "", ':');
    assert a + [':'] + (b + ":" + c) == a + ":" + (b + ":" + c) && b + [':'] + c == b + ":" + c;
  }

  /** What is put down as deferred: every Vault placeholder and every key with a colon, by its own text. */
  lemma DeferredMeans(src: Sources, p: Placeholder)
    ensures DeferredOf(src, p) == if p.kind == Vault || (p.kind == Gen && "ssh_key:" <= p.spec) then [Raw(p)] else []
  {
    assert SSH_KEY + ":" == "ssh_key:";
  }

  /** Of a file all newlines at the end are dropped and nothing else. */
  lemma {:induction false} TrimNewlinesSpec(s: string)
    ensures TrimNewlines(s) <= s
    ensures forall i :: |TrimNewlines(s)| <= i < |s| ==> s[i] == '\n'
    ensures TrimNewlines(s) != "" ==> TrimNewlines(s)[|TrimNewlines(s)| - 1] != '\n'
  {
    if s != "" && s[|s| - 1] == '\n' { TrimNewlinesSpec(s[..|s| - 1]); }
  }

  /** A generated password is as long as asked for, as far as the digest reaches, and a shorter one for the same
      seed is the beginning of a longer one. */
  lemma PasswordLength(src: Sources, m: int, n: int, seed: string)
    requires 0 < m <= n
    ensures |Password(src, Some(m), seed)| == (if m <= |src.hexDigest(src.envName + ":" + seed)| then m else |src.hexDigest(src.envName + ":" + seed)|)
    ensures Password(src, Some(m), seed) <= Password(src, Some(n), seed)
  {
  }

  /** A key marker is left in the text for exactly the `ssh_key` generators, and it is reported for exactly those
      with a colon: `${gen:ssh_key}` alone leaves a marker that nobody is told of. */
  lemma MarkerUnreportedIff(src: Sources, p: Placeholder)
    requires p.kind == Gen
    ensures Text.Split(p.spec, ':')[0] == SSH_KEY ==> KEY_MARKER <= Generated(src, p.spec)
    ensures Text.Split(p.spec, ':')[0] == SSH_KEY && !Resolve(src, p).deferred <==> p.spec == SSH_KEY
  {
    Text.SplitHeadIs(p.spec, ':', SSH_KEY);
  }

  // --- expansion -----------------------------------------------------------------------

  function Expansion(src: Sources, x: Piece): string {
    match x
    case Char(c) => [c]
    case Hole(p) => Replacement(src, p)
  }

  function ExpandPieces(src: Sources, ps: seq<Piece>): string {
    if ps == [] then "" else Expansion(src, ps[0]) + ExpandPieces(src, ps[1..])
  }

  function Expand(src: Sources, s: string): string {
    ExpandPieces(src, Scan(s))
  }

  function FailureOf(src: Sources, p: Placeholder): seq<Error> {
    var a := Resolve(src, p);
    if a.Failed? then [a.error] else []
  }

  function DeferredOf(src: Sources, p: Placeholder): seq<string> {
    var a := Resolve(src, p);
    if a.Value? && a.deferred then [Raw(p)] else []
  }

  function Failures(src: Sources, ps: seq<Placeholder>): seq<Error> {
    if ps == [] then [] else FailureOf(src, ps[0]) + Failures(src, ps[1..])
  }

  function Deferred(src: Sources, ps: seq<Placeholder>): seq<string> {
    if ps == [] then [] else DeferredOf(src, ps[0]) + Deferred(src, ps[1..])
  }

  /** An error is put down for exactly the placeholders that fail, and names what was looked for. */
  lemma FailureMeans(src: Sources, p: Placeholder)
    ensures FailureOf(src, p) ==
              if Found(src, p) || (p.kind != Ref && exists i :: 0 <= i < |Filters(p)| && "default:" <= Filters(p)[i]) then []
              else match p.kind
                case Env => [NoVariable(p.spec)]
                case File => [NoFile(p.spec)]
                case _ => [NoReference(p.spec)]
  {
    FailsIff(src, p);
  }

  /** The errors and the deferred placeholders of a list are those of its parts, in order. */
  lemma {:induction false} ReportsAdd(src: Sources, ps: seq<Placeholder>, qs: seq<Placeholder>)
    ensures Failures(src, ps + qs) == Failures(src, ps) + Failures(src, qs)
    ensures Deferred(src, ps + qs) == Deferred(src, ps) + Deferred(src, qs)
    ensures forall p :: Failures(src, [p]) == FailureOf(src, p) && Deferred(src, [p]) == DeferredOf(src, p)
  {
    forall p ensures Failures(src, [p]) == FailureOf(src, p) && Deferred(src, [p]) == DeferredOf(src, p) {
      assert [p][1..] == [];
    }
    if ps == [] {
      assert ps + qs == qs;
    } else {
      assert (ps + qs)[0] == ps[0] && (ps + qs)[1..] == ps[1..] + qs;
      ReportsAdd(src, ps[1..], qs);
    }
  }

  /** Expanding a printed text replaces each placeholder and keeps every literal in its place. */
  lemma ExpandPrinted(src: Sources, ps: seq<Piece>)
    requires Printable(ps)
    ensures Expand(src, Print(ps)) == ExpandPieces(src, ps)
  {
    ParseInvertsPrint(ps);
  }

  lemma {:induction false} ExpandUnfilled(src: Sources, ps: seq<Piece>)
    requires Unfilled(src, ps)
    ensures ExpandPieces(src, ps) == Print(ps)
  {
    if ps != [] { ExpandUnfilled(src, ps[1..]); }
  }

  /** No placeholder has a value. */
  predicate Unfilled(src: Sources, ps: seq<Piece>) {
    ps != [] ==> (ps[0].Hole? ==> Resolve(src, ps[0].p).Failed?) && Unfilled(src, ps[1..])
  }

  /** A text in which nothing matches, or nothing that matches has a value, is left alone. */
  lemma ExpandLeavesAlone(src: Sources, s: string)
    requires Unfilled(src, Scan(s))
    ensures Expand(src, s) == s
  {
    ScanPrints(s);
    ExpandUnfilled(src, Scan(s));
  }

  // --- expanding twice ------------------------------------------------------------------

  function Chars(s: string): seq<Piece> {
    if s == "" then [] else [Char(s[0])] + Chars(s[1..])
  }

  /** The pieces of the expanded text: the literals, the values character by character, and the placeholders that
      failed. */
  function Filled(src: Sources, ps: seq<Piece>): seq<Piece> {
    if ps == [] then []
    else
      (if ps[0].Hole? && Resolve(src, ps[0].p).Value? then Chars(Replacement(src, ps[0].p)) else [ps[0]])
      + Filled(src, ps[1..])
  }

  lemma {:induction false} LiteralFirst(src: Sources, v: string, ps: seq<Piece>)
    ensures Print(Chars(v) + ps) == v + Print(ps)
    ensures ExpandPieces(src, Chars(v) + ps) == v + ExpandPieces(src, ps)
    ensures Unfilled(src, Chars(v) + ps) <==> Unfilled(src, ps)
    ensures '$' !in v && Printable(ps) ==> Printable(Chars(v) + ps)
  {
    if v == "" {
      assert Chars(v) + ps == ps && v + Print(ps) == Print(ps) && v + ExpandPieces(src, ps) == ExpandPieces(src, ps);
    } else {
      LiteralFirst(src, v[1..], ps);
      Reassociate([Char(v[0])], Chars(v[1..]), ps);
      CharFirst(src, v[0], Chars(v[1..]) + ps);
      Reassociate([v[0]], v[1..], Print(ps));
      Reassociate([v[0]], v[1..], ExpandPieces(src, ps));
      assert [v[0]] + v[1..] == v;
    }
  }

  lemma CharFirst(src: Sources, c: char, ps: seq<Piece>)
    ensures Print([Char(c)] + ps) == [c] + Print(ps)
    ensures ExpandPieces(src, [Char(c)] + ps) == [c] + ExpandPieces(src, ps)
    ensures Unfilled(src, [Char(c)] + ps) <==> Unfilled(src, ps)
    ensures c != '$' && Printable(ps) ==> Printable([Char(c)] + ps)
  {
    assert ([Char(c)] + ps)[1..] == ps;
  }

  lemma {:induction false} FilledIsExpansion(src: Sources, ps: seq<Piece>)
    ensures Print(Filled(src, ps)) == ExpandPieces(src, ps) && Unfilled(src, Filled(src, ps))
  {
    if ps != [] {
      FilledIsExpansion(src, ps[1..]);
      var more := Filled(src, ps[1..]);
      if ps[0].Hole? && Resolve(src, ps[0].p).Value? {
        LiteralFirst(src, Replacement(src, ps[0].p), more);
      } else {
        assert ([ps[0]] + more)[1..] == more;
      }
    }
  }

  /** In the expanded text no match starts at a literal's or a value's character. */
  predicate Settles(src: Sources, s: string) {
    Leftmost(Filled(src, Scan(s)))
  }

  /** It is enough that no dollar sign of a literal or a value ends up right in front of a brace. */
  lemma PrintableSettles(src: Sources, s: string)
    requires Printable(Filled(src, Scan(s)))
    ensures Settles(src, s)
  {
    PrintableLeftmost(Filled(src, Scan(s)));
  }

  /** A text settles exactly when the second pass finds the placeholders that failed in the first one, and no others. */
  lemma SettlesIff(src: Sources, s: string)
    ensures Settles(src, s) <==> Scan(Expand(src, s)) == Filled(src, Scan(s))
  {
    FilledIsExpansion(src, Scan(s));
    ScanIff(Expand(src, s), Filled(src, Scan(s)));
  }

  /** When the text settles, expanding again changes nothing: the walk may pass over the same string twice. */
  lemma ExpandTwice(src: Sources, s: string)
    requires Settles(src, s)
    ensures Expand(src, Expand(src, s)) == Expand(src, s)
  {
    SettlesIff(src, s);
    FilledIsExpansion(src, Scan(s));
    ExpandUnfilled(src, Filled(src, Scan(s)));
  }

  /** A value that is itself a placeholder is expanded by the second pass, not by the first: the two differ exactly
      when that placeholder is not replaced by itself. */
  lemma ValueExpandedLater(src: Sources, p: Placeholder, q: Placeholder)
    requires WellFormed(p) && WellFormed(q)
    requires Resolve(src, p).Value? && Replacement(src, p) == Raw(q)
    ensures Expand(src, Raw(p)) == Raw(q)
    ensures Expand(src, Expand(src, Raw(p))) == Replacement(src, q)
    ensures Expand(src, Expand(src, Raw(p))) != Expand(src, Raw(p)) <==> Replacement(src, q) != Raw(q)
  {
    ExpandOne(src, p);
    ExpandOne(src, q);
  }

  /** A text need not settle to come out the same again: a variable may hold the very placeholder that names it. */
  lemma KeptWithoutSettling(src: Sources, q: Placeholder)
    requires q == Placeholder(Env, "A", "") && src.lookupEnv("A") == Some(Raw(q))
    ensures Expand(src, Expand(src, Raw(q))) == Expand(src, Raw(q)) && !Settles(src, Raw(q))
  {
    ExpandOne(src, q);
    var ps := [Hole(q)];
    assert ps[1..] == [];
    assert Print(ps) == Raw(q) + "" == Raw(q);
    ParseInvertsPrint(ps);
    SettlesIff(src, Raw(q));
    assert Filled(src, ps) == Chars(Raw(q)) + [];
    assert Chars(Raw(q))[0] == Char(Raw(q)[0]);
  }

  /** The text and the marker of a Vault placeholder. */
  function VaultText(spec: string): string { Head(Vault) + (spec + "}") }

  function VaultMarker(spec: string): string { "<VAULT:" + spec + ">" }

  /** A Vault placeholder between two literals. */
  lemma ExpandVault(src: Sources, before: string, spec: string, after: string)
    requires '$' !in before && '$' !in after && spec != "" && Free(spec, AFTER_SPEC)
    ensures Expand(src, before + (VaultText(spec) + after)) == before + (VaultMarker(spec) + after)
  {
    var p := Placeholder(Vault, spec, "");
    var ps := [Hole(p)] + (Chars(after) + []);
    LiteralFirst(src, after, []);
    assert after + "" == after;
    assert ps[1..] == Chars(after) + [];
    LiteralFirst(src, before, ps);
    ExpandPrinted(src, Chars(before) + ps);
  }

  /** A Vault placeholder inside the name of another one. */
  function Nested(a: string, b: string): string { VaultText(Head(Vault) + a) + (b + "}") }

  lemma NestedOnce(src: Sources, a: string, b: string)
    requires Free(a, AFTER_SPEC) && '$' !in b
    ensures Expand(src, Nested(a, b)) == VaultMarker(Head(Vault) + a) + (b + "}")
  {
    assert Free(Head(Vault) + a, AFTER_SPEC);
    ExpandVault(src, "", Head(Vault) + a, b + "}");
    assert "" + Nested(a, b) == Nested(a, b);
    assert "" + (VaultMarker(Head(Vault) + a) + (b + "}")) == VaultMarker(Head(Vault) + a) + (b + "}");
  }

  lemma Unnest(open: string, mark: string, a: string, b: string)
    ensures mark + (open + a) + ">" + (b + "}") == mark + (open + ((a + ">" + b) + "}") + "")
  {
  }

  lemma NestedTwice(src: Sources, a: string, b: string)
    requires Free(a, AFTER_SPEC) && Free(b, AFTER_SPEC) && '$' !in b
    ensures Expand(src, Expand(src, Nested(a, b))) == "<VAULT:" + (VaultMarker(a + ">" + b) + "")
  {
    NestedOnce(src, a, b);
    ExpandNestedMarker(src, VaultMarker(Head(Vault) + a) + (b + "}"), a, b);
  }

  lemma ExpandNestedMarker(src: Sources, once: string, a: string, b: string)
    requires Free(a, AFTER_SPEC) && Free(b, AFTER_SPEC) && once == VaultMarker(Head(Vault) + a) + (b + "}")
    ensures Expand(src, once) == "<VAULT:" + (VaultMarker(a + ">" + b) + "")
  {
    Unnest(Head(Vault), "<VAULT:", a, b);
    assert once == "<VAULT:" + (VaultText(a + ">" + b) + "");
    assert Free(a + ">" + b, AFTER_SPEC);
    ExpandVault(src, "<VAULT:", a + ">" + b, "");
  }

  /** Whatever the variables, files and so on: expansion is not idempotent. The first pass reads the outer name up to the
      first closing brace and leaves the inner placeholder behind as text; the second pass expands it. */
  lemma ExpansionNotIdempotent(src: Sources)
    ensures Expand(src, Expand(src, Nested("A", "x"))) != Expand(src, Nested("A", "x"))
  {
    NestedOnce(src, "A", "x");
    NestedTwice(src, "A", "x");
    NestedDiffers("A", "x");
  }

  lemma NestedDiffers(a: string, b: string)
    ensures "<VAULT:" + (VaultMarker(a + ">" + b) + "") != VaultMarker(Head(Vault) + a) + (b + "}")
  {
    var once, twice := VaultMarker(Head(Vault) + a) + (b + "}"), "<VAULT:" + (VaultMarker(a + ">" + b) + "");
    assert once[|"<VAULT:"|] == '$' && twice[|"<VAULT:"|] == '<';
  }

  lemma ExpandOne(src: Sources, p: Placeholder)
    requires WellFormed(p)
    ensures Expand(src, Raw(p)) == Replacement(src, p)
  {
    var ps := [Hole(p)];
    assert ps[1..] == [];
    assert Print(ps) == Raw(p) + "" == Raw(p);
    ExpandPrinted(src, ps);
    assert ExpandPieces(src, ps) == Replacement(src, p) + "";
  }

  datatype Report = Report(text: string, errors: seq<Error>, unresolved: seq<string>)

  /** With `done` produced and `rest` still to expand, the expansion will end in `end`. */
  ghost predicate ExpandLeft(src: Sources, end: Report, done: Report, rest: string) {
    end.text == done.text + Expand(src, rest) &&
    end.errors == done.errors + Failures(src, Holes(Scan(rest))) &&
    end.unresolved == done.unresolved + Deferred(src, Holes(Scan(rest)))
  }

  lemma ExpandChar(src: Sources, end: Report, done: Report, rest: string)
    requires ExpandLeft(src, end, done, rest) && rest != "" && MatchAt(rest) == None
    ensures ExpandLeft(src, end, done.(text := done.text + [rest[0]]), rest[1..])
  {
    HolesStep(rest);
    ScanStep(rest);
    Reassociate(done.text, [rest[0]], Expand(src, rest[1..]));
  }

  lemma FailuresStep(src: Sources, p: Placeholder, ps: seq<Placeholder>)
    ensures Failures(src, [p] + ps) == FailureOf(src, p) + Failures(src, ps)
    ensures Deferred(src, [p] + ps) == DeferredOf(src, p) + Deferred(src, ps)
  {
    assert ([p] + ps)[1..] == ps;
  }

  lemma ExpandHole(src: Sources, end: Report, done: Report, rest: string)
    requires ExpandLeft(src, end, done, rest) && rest != "" && MatchAt(rest) != None
    ensures var p := MatchAt(rest).value;
            Raw(p) <= rest &&
            ExpandLeft(src, end, Report(done.text + Replacement(src, p), done.errors + FailureOf(src, p),
                                        done.unresolved + DeferredOf(src, p)), rest[|Raw(p)|..])
  {
    HolesStep(rest);
    ScanStep(rest);
    var p := MatchAt(rest).value;
    var t := rest[|Raw(p)|..];
    FailuresStep(src, p, Holes(Scan(t)));
    Reassociate(done.text, Replacement(src, p), Expand(src, t));
    Reassociate(done.errors, FailureOf(src, p), Failures(src, Holes(Scan(t))));
    Reassociate(done.unresolved, DeferredOf(src, p), Deferred(src, Holes(Scan(t))));
  }

  /** `ResolveResult`: what a walk over many strings adds up. */
  class ResolveResult {
    var unresolved: seq<string>
    var errors: seq<Error>

    constructor ()
      ensures unresolved == [] && errors == []
    {
      unresolved, errors := [], [];
    }

    /** `expandPlaceholders`. */
    method ExpandPlaceholders(src: Sources, s: string) returns (out: string)
      modifies this
      ensures out == Expand(src, s)
      ensures errors == old(errors) + Failures(src, Holes(Scan(s)))
      ensures unresolved == old(unresolved) + Deferred(src, Holes(Scan(s)))
    {
      out := "";
      var rest := s;
      ghost var end := Report(Expand(src, s), errors + Failures(src, Holes(Scan(s))), unresolved + Deferred(src, Holes(Scan(s))));
      while rest != ""
        invariant ExpandLeft(src, end, Report(out, errors, unresolved), rest)
        decreases |rest|
      {
        var m := MatchAt(rest);
        if m == None {
          ExpandChar(src, end, Report(out, errors, unresolved), rest);
          out, rest := out + [rest[0]], rest[1..];
        } else {
          ExpandHole(src, end, Report(out, errors, unresolved), rest);
          var replacement := ReplaceOne(src, m.value);
          out, rest := out + replacement, rest[|Raw(m.value)|..];
        }
      }
    }

    /** The function given to the regular expression's replacement. */
    method ReplaceOne(src: Sources, p: Placeholder) returns (replacement: string)
      modifies this
      ensures replacement == Replacement(src, p)
      ensures errors == old(errors) + FailureOf(src, p)
      ensures unresolved == old(unresolved) + DeferredOf(src, p)
    {
      match Resolve(src, p) {
        case Failed(e) =>
          errors := errors + [e];
          return Raw(p);
        case Value(v, deferred) =>
          if deferred { unresolved := unresolved + [Raw(p)]; }
          return Filtered(src, Filters(p), v);
      }
    }
  }
}
