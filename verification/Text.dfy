/** The few string functions of the Go library that the source uses. */
module Text {
  /** White space as `strings.TrimSpace` sees it. */
  predicate IsSpace(c: char) {
    c in {' ', '\t', '\n', '\r', '\U{000B}', '\U{000C}', '\U{0085}', '\U{00A0}', '\U{1680}', '\U{2028}', '\U{2029}', '\U{202F}', '\U{205F}', '\U{3000}'}
    || '\U{2000}' <= c <= '\U{200A}'
  }

  function TrimLeft(s: string): string {
    if s != "" && IsSpace(s[0]) then TrimLeft(s[1..]) else s
  }

  function TrimRight(s: string): string {
    if s != "" && IsSpace(s[|s| - 1]) then TrimRight(s[..|s| - 1]) else s
  }

  function TrimSpace(s: string): string {
    TrimRight(TrimLeft(s))
  }

  predicate Blank(s: string) { forall i :: 0 <= i < |s| ==> IsSpace(s[i]) }

  predicate Trimmed(s: string) { s != "" ==> !IsSpace(s[0]) && !IsSpace(s[|s| - 1]) }

  lemma {:induction false} TrimLeftMeans(s: string)
    ensures exists a :: s == a + TrimLeft(s) && Blank(a)
    ensures TrimLeft(s) != "" ==> !IsSpace(TrimLeft(s)[0])
  {
    if s != "" && IsSpace(s[0]) {
      TrimLeftMeans(s[1..]);
      var a :| s[1..] == a + TrimLeft(s[1..]) && Blank(a);
      assert s == ([s[0]] + a) + TrimLeft(s);
    } else {
      assert s == "" + s && Blank("");
    }
  }

  lemma {:induction false} TrimRightMeans(s: string)
    ensures exists b :: s == TrimRight(s) + b && Blank(b)
    ensures TrimRight(s) != "" ==> !IsSpace(TrimRight(s)[|TrimRight(s)| - 1]) && TrimRight(s)[0] == s[0]
  {
    if s != "" && IsSpace(s[|s| - 1]) {
      var t := s[..|s| - 1];
      TrimRightMeans(t);
      var b :| t == TrimRight(t) + b && Blank(b);
      assert s == TrimRight(s) + (b + [s[|s| - 1]]);
    } else {
      assert s == s + "" && Blank("");
    }
  }

  /** Trimming takes the white space off both ends and nothing else. */
  lemma TrimSpaceMeans(s: string)
    ensures exists a, b :: s == a + TrimSpace(s) + b && Blank(a) && Blank(b)
    ensures Trimmed(TrimSpace(s)) && (TrimSpace(s) == "" <==> Blank(s))
  {
    TrimLeftMeans(s);
    var left := TrimLeft(s);
    TrimRightMeans(left);
    var a :| s == a + left && Blank(a);
    var b :| left == TrimRight(left) + b && Blank(b);
    assert s == a + TrimSpace(s) + b;
    if TrimSpace(s) == "" {
      assert s == a + b;
    } else {
      assert s[|a|] == TrimSpace(s)[0];
    }
  }

  /** `sub` occurs in `s` at position `p`. */
  predicate OccursAt(s: string, sub: string, p: int) {
    0 <= p <= |s| - |sub| && s[p..p + |sub|] == sub
  }

  lemma OccursInTail(s: string, sub: string, p: int)
    requires s != "" && p > 0
    ensures OccursAt(s, sub, p) <==> OccursAt(s[1..], sub, p - 1)
  {
    if p <= |s| - |sub| {
      assert s[1..][p - 1..p - 1 + |sub|] == s[p..p + |sub|];
    }
  }

  /** `strings.Index`: the first occurrence, or -1. */
  function Index(s: string, sub: string): (i: int)
    ensures -1 <= i <= |s|
  {
    if OccursAt(s, sub, 0) then 0
    else if s == "" then -1
    else if Index(s[1..], sub) == -1 then -1
    else Index(s[1..], sub) + 1
  }

  lemma {:induction false} IndexSpec(s: string, sub: string)
    ensures Index(s, sub) == -1 ==> forall p :: !OccursAt(s, sub, p)
    ensures Index(s, sub) != -1 ==> OccursAt(s, sub, Index(s, sub)) && forall p :: p < Index(s, sub) ==> !OccursAt(s, sub, p)
  {
    if !OccursAt(s, sub, 0) && s != "" {
      IndexSpec(s[1..], sub);
      forall p | p > 0 ensures OccursAt(s, sub, p) <==> OccursAt(s[1..], sub, p - 1) {
        OccursInTail(s, sub, p);
      }
    }
  }

  lemma IndexIs(s: string, sub: string, p: int)
    requires OccursAt(s, sub, p) && forall q :: q < p ==> !OccursAt(s, sub, q)
    ensures Index(s, sub) == p
  {
    IndexSpec(s, sub);
  }

  lemma IndexNone(s: string, sub: string)
    requires forall p :: !OccursAt(s, sub, p)
    ensures Index(s, sub) == -1
  {
    IndexSpec(s, sub);
  }

  predicate Contains(s: string, sub: string) {
    Index(s, sub) != -1
  }

  lemma ContainsIff(s: string, sub: string)
    ensures Contains(s, sub) <==> exists p :: OccursAt(s, sub, p)
  {
    IndexSpec(s, sub);
  }

  predicate HasPrefix(s: string, prefix: string) {
    prefix <= s
  }

  /** `strings.Split` on one character. */
  function Split(s: string, sep: char): (parts: seq<string>)
    ensures parts != []
  {
    if s == "" then [""]
    else if s[0] == sep then [""] + Split(s[1..], sep)
    else
      var parts := Split(s[1..], sep);
      [[s[0]] + parts[0]] + parts[1..]
  }

  /** `strings.Join` with one character. */
  function Join(parts: seq<string>, sep: char): string {
    if parts == [] then ""
    else if |parts| == 1 then parts[0]
    else parts[0] + [sep] + Join(parts[1..], sep)
  }

  predicate NoneHas(parts: seq<string>, sep: char) {
    parts != [] ==> sep !in parts[0] && NoneHas(parts[1..], sep)
  }

  lemma {:induction false} JoinSplit(s: string, sep: char)
    ensures Join(Split(s, sep), sep) == s && NoneHas(Split(s, sep), sep)
  {
    if s != "" {
      JoinSplit(s[1..], sep);
      var parts := Split(s[1..], sep);
      if s[0] == sep { JoinCons("", parts, sep); } else { JoinHead(s[0], parts, sep); }
    }
  }

  lemma JoinCons(first: string, parts: seq<string>, sep: char)
    requires parts != [] && sep !in first && NoneHas(parts, sep)
    ensures Join([first] + parts, sep) == first + [sep] + Join(parts, sep) && NoneHas([first] + parts, sep)
  {
    assert ([first] + parts)[1..] == parts;
  }

  lemma JoinHead(c: char, parts: seq<string>, sep: char)
    requires parts != [] && c != sep && NoneHas(parts, sep)
    ensures Join([[c] + parts[0]] + parts[1..], sep) == [c] + Join(parts, sep)
    ensures NoneHas([[c] + parts[0]] + parts[1..], sep)
  {
    assert ([[c] + parts[0]] + parts[1..])[1..] == parts[1..];
  }

  lemma {:induction false} SplitFirst(first: string, rest: string, sep: char)
    requires sep !in first
    ensures Split(first, sep) == [first]
    ensures Split(first + [sep] + rest, sep) == [first] + Split(rest, sep)
    decreases |first|
  {
    var s := first + [sep] + rest;
    if first == "" {
      assert s[1..] == rest;
    } else {
      SplitFirst(first[1..], rest, sep);
      assert s[1..] == first[1..] + [sep] + rest;
      assert [first[0]] + first[1..] == first;
    }
  }

  /** Joining and splitting undo each other. */
  lemma {:induction false} SplitJoin(parts: seq<string>, sep: char)
    requires parts != [] && NoneHas(parts, sep)
    ensures Split(Join(parts, sep), sep) == parts
  {
    if |parts| == 1 {
      SplitFirst(parts[0], "", sep);
    } else {
      var joined := Join(parts[1..], sep);
      SplitJoin(parts[1..], sep);
      SplitFirst(parts[0], joined, sep);
      assert Join(parts, sep) == parts[0] + [sep] + joined;
      assert [parts[0]] + parts[1..] == parts;
    }
  }

  /** The first part of a split text. */
  lemma SplitHeadIs(s: string, sep: char, w: string)
    requires sep !in w
    ensures Split(s, sep)[0] == w <==> s == w || w + [sep] <= s
  {
    if s == w { SplitFirst(w, "", sep); }
    if w + [sep] <= s {
      assert s == w + [sep] + s[|w| + 1..];
      SplitFirst(w, s[|w| + 1..], sep);
    }
    if Split(s, sep)[0] == w {
      JoinSplit(s, sep);
      var parts := Split(s, sep);
      if |parts| > 1 { assert Join(parts, sep) == w + [sep] + Join(parts[1..], sep); }
    }
  }
}
