/** Redaction of deferred secrets: `<VAULT:...>` and `<GEN_SSH_KEY:...>` become `<REDACTED>`. */
module Redact {
  import opened Text

  const VAULT := "<VAULT:"
  const GEN_SSH_KEY := "<GEN_SSH_KEY:"
  const REDACTED := "<REDACTED>"

  /** What the argument needs of a marker: it starts with its only '<', holds no '>', and does not start
      like the replacement. */
  predicate IsMarker(m: string) {
    |m| >= 2 && m[0] == '<' && m[1] != 'R' && '<' !in m[1..] && '>' !in m
  }

  lemma Markers()
    ensures IsMarker(VAULT) && IsMarker(GEN_SSH_KEY)
  {
  }

  /** From the first marker to the first '>' after it. */
  datatype Span = NoSpan | Span(start: nat, end: nat)

  function FirstSpan(s: string, m: string): (sp: Span)
    ensures sp.Span? ==> sp.start < sp.end <= |s|
  {
    var i := Index(s, m);
    if i < 0 then NoSpan
    else
      var j := Index(s[i..], ">");
      if j < 0 then NoSpan
      else
        IndexSpec(s[i..], ">");
        Span(i, i + j + 1)
  }

  lemma SpanSpec(s: string, m: string)
    requires IsMarker(m) && FirstSpan(s, m).Span?
    ensures var sp := FirstSpan(s, m);
            && OccursAt(s, m, sp.start) && sp.start + |m| < sp.end
            && s[sp.end - 1] == '>' && (forall q :: sp.start <= q < sp.end - 1 ==> s[q] != '>')
            && (forall p :: p < sp.start ==> !OccursAt(s, m, p))
  {
    var i := Index(s, m);
    IndexSpec(s, m);
    FirstGreater(s[i..]);
    MarkerHasNoGreater(s, m, i);
  }

  lemma FirstGreater(t: string)
    ensures var j := Index(t, ">");
            if j < 0 then forall q :: 0 <= q < |t| ==> t[q] != '>'
            else j < |t| && t[j] == '>' && forall q :: 0 <= q < j ==> t[q] != '>'
  {
    IndexSpec(t, ">");
    forall q | 0 <= q < |t| ensures OccursAt(t, ">", q) <==> t[q] == '>' {
      assert t[q..q + 1] == [t[q]];
    }
  }

  lemma MarkerHasNoGreater(s: string, m: string, i: int)
    requires OccursAt(s, m, i) && '>' !in m
    ensures forall k :: i <= k < i + |m| ==> s[k] != '>'
  {
    forall k | i <= k < i + |m| ensures s[k] != '>' {
      assert s[k] == s[i..i + |m|][k - i];
    }
  }

  lemma NoSpanSpec(s: string, m: string)
    requires FirstSpan(s, m) == NoSpan
    ensures NoneClosed(s, m)
  {
    var i := Index(s, m);
    IndexSpec(s, m);
    if i >= 0 {
      FirstGreater(s[i..]);
      assert forall q :: i <= q < |s| ==> s[q] == s[i..][q - i];
    }
  }

  /** No occurrence of the marker has a '>' anywhere after it. */
  ghost predicate NoneClosed(s: string, m: string) {
    forall p, q :: OccursAt(s, m, p) && p <= q < |s| ==> s[q] != '>'
  }

  lemma NoneClosedNoSpan(s: string, m: string)
    requires IsMarker(m) && NoneClosed(s, m)
    ensures FirstSpan(s, m) == NoSpan
  {
    if FirstSpan(s, m).Span? {
      SpanSpec(s, m);
    }
  }

  /** Every span replaced by `r`, left to right. */
  function Replaced(s: string, m: string, r: string): string
    decreases |s|
  {
    match FirstSpan(s, m)
    case NoSpan => s
    case Span(i, e) => s[..i] + (r + Replaced(s[e..], m, r))
  }

  /** What the rewriting loop computes. */
  function Redacted(s: string, m: string): string { Replaced(s, m, REDACTED) }

  function RedactAll(s: string): string {
    Redacted(Redacted(s, VAULT), GEN_SSH_KEY)
  }

  // --- occurrences around a replaced span -------------------------------------------

  lemma OccursShifted(head: string, t: string, m: string, p: int)
    requires p >= |head|
    ensures OccursAt(head + t, m, p) <==> OccursAt(t, m, p - |head|)
  {
    if p <= |head| + |t| - |m| {
      assert (head + t)[p..p + |m|] == t[p - |head|..p - |head| + |m|];
    }
  }

  lemma OccursInside(h: string, t: string, m: string, p: int)
    requires p + |m| <= |h|
    ensures OccursAt(h + t, m, p) <==> OccursAt(h, m, p)
  {
    if p >= 0 {
      assert (h + t)[p..p + |m|] == h[p..p + |m|];
    }
  }

  /** A marker that starts before the end of `h + REDACTED` lies wholly inside `h`. */
  lemma NoneAcross(h: string, t: string, m: string, p: int)
    requires IsMarker(m) && p < |h| + |REDACTED| && OccursAt(h + REDACTED + t, m, p)
    ensures p + |m| <= |h| && OccursAt(h, m, p)
  {
    var s := h + REDACTED + t;
    assert s[p..p + |m|] == m && s[|h|] == '<' && s[|h| + 1] == 'R';
    assert forall k :: 0 <= k < |m| ==> s[p + k] == m[k];
    assert forall k :: 0 < k < |m| ==> m[k] in m[1..] && m[k] != '<';
    assert forall k :: 0 < k < |REDACTED| ==> REDACTED[k] != '<' && s[|h| + k] == REDACTED[k];
    assert p + |m| <= |h|;
    assert s == h + (REDACTED + t);
    OccursInside(h, REDACTED + t, m, p);
  }

  /** No marker starts inside `h`. */
  ghost predicate Free(h: string, m: string) { forall p :: !OccursAt(h, m, p) }

  lemma FreeHead(s: string, m: string, i: nat)
    requires i <= |s| && forall p :: p < i ==> !OccursAt(s, m, p)
    requires m != ""
    ensures Free(s[..i], m)
  {
    forall p ensures !OccursAt(s[..i], m, p) {
      if p + |m| <= i {
        assert s == s[..i] + s[i..];
        OccursInside(s[..i], s[i..], m, p);
      }
    }
  }

  /** The next marker after a replaced span is the next marker of the rest. */
  lemma IndexAfter(h: string, t: string, m: string)
    requires IsMarker(m) && Free(h, m)
    ensures Index(h + REDACTED + t, m) == if Index(t, m) < 0 then -1 else |h| + |REDACTED| + Index(t, m)
  {
    var s, n := h + REDACTED + t, |h| + |REDACTED|;
    IndexSpec(t, m);
    forall p | OccursAt(s, m, p) ensures p >= n && OccursAt(t, m, p - n) {
      if p < n {
        NoneAcross(h, t, m, p);
      }
      OccursShifted(h + REDACTED, t, m, p);
    }
    var i := Index(t, m);
    if i >= 0 {
      OccursShifted(h + REDACTED, t, m, n + i);
      IndexIs(s, m, n + i);
    } else {
      IndexNone(s, m);
    }
  }

  lemma SpanAfter(h: string, t: string, m: string)
    requires IsMarker(m) && Free(h, m)
    ensures var n := |h| + |REDACTED|;
            FirstSpan(h + REDACTED + t, m) ==
            match FirstSpan(t, m) case NoSpan => NoSpan case Span(i, e) => Span(n + i, n + e)
  {
    IndexAfter(h, t, m);
    if Index(t, m) >= 0 {
      assert (h + REDACTED + t)[|h| + |REDACTED| + Index(t, m)..] == t[Index(t, m)..];
    }
  }

  lemma Splice(a: string, t: string, i: nat, e: nat)
    requires i <= e <= |t|
    ensures (a + t)[..|a| + i] == a + t[..i] && (a + t)[|a| + e..] == t[e..]
  {
  }

  lemma Unfold(s: string, m: string, r: string, i: nat, e: nat)
    requires FirstSpan(s, m) == Span(i, e)
    ensures Replaced(s, m, r) == s[..i] + (r + Replaced(s[e..], m, r))
  {
  }

  lemma Prepend(whole: string, part: string, a: string, b: string, x: string)
    requires whole == (a + b) + x && part == b + x
    ensures whole == a + part
  {
  }

  lemma SameTail(s: string, a: string, t: string, m: string, r: string, i: nat, e: nat)
    requires FirstSpan(t, m) == Span(i, e) && FirstSpan(s, m) == Span(|a| + i, |a| + e)
    requires s[..|a| + i] == a + t[..i] && s[|a| + e..] == t[e..]
    ensures Replaced(s, m, r) == a + Replaced(t, m, r)
  {
    Unfold(s, m, r, |a| + i, |a| + e);
    Unfold(t, m, r, i, e);
    Prepend(Replaced(s, m, r), Replaced(t, m, r), a, t[..i], r + Replaced(t[e..], m, r));
  }

  /** Replacing the first span and redacting the result is redacting the rest. */
  lemma RedactedAfter(h: string, t: string, m: string)
    requires IsMarker(m) && Free(h, m)
    ensures Redacted(h + REDACTED + t, m) == h + REDACTED + Redacted(t, m)
  {
    SpanAfter(h, t, m);
    match FirstSpan(t, m)
    case NoSpan =>
    case Span(i, e) =>
      Splice(h + REDACTED, t, i, e);
      SameTail(h + REDACTED + t, h + REDACTED, t, m, REDACTED, i, e);
  }

  lemma Assoc(a: string, b: string, c: string)
    ensures (a + b) + c == a + (b + c)
  {
  }

  // --- the rewriting loop -------------------------------------------------------------

  /** The length from the first marker on. */
  function Remaining(s: string, m: string): nat {
    if Index(s, m) < 0 then 0 else |s| - Index(s, m)
  }

  lemma RewriteShrinks(s: string, m: string, i: nat, e: nat)
    requires IsMarker(m) && FirstSpan(s, m) == Span(i, e)
    ensures Remaining(s[..i] + REDACTED + s[e..], m) < Remaining(s, m)
    ensures Redacted(s[..i] + REDACTED + s[e..], m) == Redacted(s, m)
  {
    SpanSpec(s, m);
    FreeHead(s, m, i);
    IndexAfter(s[..i], s[e..], m);
    RedactedAfter(s[..i], s[e..], m);
    Assoc(s[..i], REDACTED, Redacted(s[e..], m));
  }

  /** One round of the loop; `found` is false when there is no closed marker. */
  method Rewrite(s: string, m: string) returns (out: string, found: bool)
    requires IsMarker(m)
    ensures Redacted(out, m) == Redacted(s, m)
    ensures if found then Remaining(out, m) < Remaining(s, m) else out == s == Redacted(s, m)
  {
    var i := Index(s, m);
    if i < 0 {
      return s, false;
    }
    var j := Index(s[i..], ">");
    if j < 0 {
      return s, false;
    }
    RewriteShrinks(s, m, i, i + j + 1);
    return s[..i] + REDACTED + s[i + j + 1..], true;
  }

  /** One prefix: rewrite until no closed marker is found. The string may grow; the part from the first
      marker on gets shorter. */
  method RedactPrefix(s: string, m: string) returns (out: string)
    requires IsMarker(m)
    ensures out == Redacted(s, m)
  {
    out := s;
    var found := true;
    while found
      invariant Redacted(out, m) == Redacted(s, m)
      invariant !found ==> out == Redacted(out, m)
      decreases found, Remaining(out, m)
    {
      out, found := Rewrite(out, m);
    }
  }

  method RedactDeferredSecrets(s: string) returns (out: string)
    ensures out == RedactAll(s)
  {
    Markers();
    out := RedactPrefix(s, VAULT);
    out := RedactPrefix(out, GEN_SSH_KEY);
  }

  // --- what redaction achieves ----------------------------------------------------------

  lemma {:induction false} RedactedClosesNone(s: string, m: string)
    requires IsMarker(m)
    ensures NoneClosed(Redacted(s, m), m)
    decreases |s|
  {
    match FirstSpan(s, m)
    case NoSpan => NoSpanSpec(s, m);
    case Span(i, e) =>
      SpanSpec(s, m);
      FreeHead(s, m, i);
      RedactedClosesNone(s[e..], m);
      NoneClosedAfter(s[..i], Redacted(s[e..], m), m);
      Assoc(s[..i], REDACTED, Redacted(s[e..], m));
  }

  lemma NoneClosedAfter(h: string, t: string, m: string)
    requires IsMarker(m) && Free(h, m) && NoneClosed(t, m)
    ensures NoneClosed(h + REDACTED + t, m)
  {
    var s, n := h + REDACTED + t, |h| + |REDACTED|;
    forall p, q | OccursAt(s, m, p) && p <= q < |s| ensures s[q] != '>' {
      if p < n {
        NoneAcross(h, t, m, p);
      }
      OccursShifted(h + REDACTED, t, m, p);
      assert s[q] == t[q - n];
    }
  }

  lemma SuffixNoneClosed(s: string, m: string, e: nat)
    requires e <= |s| && NoneClosed(s, m)
    ensures NoneClosed(s[e..], m)
  {
    forall p, q | OccursAt(s[e..], m, p) && p <= q < |s[e..]| ensures s[e..][q] != '>' {
      assert s == s[..e] + s[e..];
      OccursShifted(s[..e], s[e..], m, p + e);
      assert s[e..][q] == s[q + e];
    }
  }

  /** In front of a '>' there is no open marker, so the part before a span is free of them. */
  lemma FreeBeforeClose(s: string, m: string, i: nat, q: nat)
    requires i <= q < |s| && s[q] == '>' && NoneClosed(s, m) && m != ""
    ensures Free(s[..i], m)
  {
    forall p | OccursAt(s[..i], m, p) ensures false {
      assert s == s[..i] + s[i..];
      OccursInside(s[..i], s[i..], m, p);
    }
  }

  /** Redacting one kind of marker closes no marker of another kind. */
  lemma {:induction false} OtherStaysUnclosed(s: string, m: string, other: string)
    requires IsMarker(m) && IsMarker(other) && NoneClosed(s, other)
    ensures NoneClosed(Redacted(s, m), other)
    decreases |s|
  {
    match FirstSpan(s, m)
    case NoSpan =>
    case Span(i, e) =>
      SpanSpec(s, m);
      SuffixNoneClosed(s, other, e);
      OtherStaysUnclosed(s[e..], m, other);
      FreeBeforeClose(s, other, i, e - 1);
      NoneClosedAfter(s[..i], Redacted(s[e..], m), other);
      Assoc(s[..i], REDACTED, Redacted(s[e..], m));
  }

  /** After redaction no marker of either kind is closed, and redacting again changes nothing. */
  lemma RedactAllCloses(s: string)
    ensures NoneClosed(RedactAll(s), VAULT) && NoneClosed(RedactAll(s), GEN_SSH_KEY)
    ensures RedactAll(RedactAll(s)) == RedactAll(s)
  {
    Markers();
    RedactedClosesNone(s, VAULT);
    OtherStaysUnclosed(Redacted(s, VAULT), GEN_SSH_KEY, VAULT);
    RedactedClosesNone(Redacted(s, VAULT), GEN_SSH_KEY);
    NoneClosedNoSpan(RedactAll(s), VAULT);
    NoneClosedNoSpan(RedactAll(s), GEN_SSH_KEY);
  }

  /** A marker by itself, with nothing after its closing bracket, is shown as `<REDACTED>`. */
  lemma MarkerRedacted(m: string, secret: string)
    requires m == "<VAULT:" || m == "<GEN_SSH_KEY:"
    requires '>' !in secret && '<' !in secret
    ensures RedactAll(m + secret + ">") == "<REDACTED>"
  {
    Markers();
    var s := m + secret + ">";
    OneSpan(s, m, secret);
    if m == VAULT {
      assert Redacted(s, VAULT) == REDACTED;
      NoMarkerIn(REDACTED, GEN_SSH_KEY);
    } else {
      NoMarkerIn(s, VAULT);
      assert Redacted(s, GEN_SSH_KEY) == REDACTED;
    }
  }

  lemma NoMarkerIn(s: string, m: string)
    requires forall p :: !OccursAt(s, m, p)
    ensures Redacted(s, m) == s
  {
    IndexSpec(s, m);
  }

  lemma OneSpan(s: string, m: string, secret: string)
    requires IsMarker(m) && s == m + secret + ">" && '>' !in secret
    ensures Redacted(s, m) == REDACTED
  {
    IndexSpec(s, m);
    assert s[..|m|] == m && OccursAt(s, m, 0);
    IndexSpec(s[0..], ">");
    assert s[0..] == s;
    assert OccursAt(s, ">", |s| - 1);
    assert Index(s, m) == 0;
    forall p | OccursAt(s, ">", p) ensures p == |s| - 1 {
      assert s[p..p + 1][0] == '>';
    }
    assert s[|s|..] == "" && FirstSpan(s, m) == Span(0, |s|);
    assert Replaced("", m, REDACTED) == "";
    assert s[..0] + (REDACTED + "") == REDACTED;
  }

  /** A text cut into what is kept and what is a secret. */
  datatype Piece = Kept(text: string) | Secret(text: string)

  function Source(ps: seq<Piece>): string {
    if ps == [] then "" else ps[0].text + Source(ps[1..])
  }

  function Shown(ps: seq<Piece>): string {
    if ps == [] then "" else (if ps[0].Kept? then ps[0].text else REDACTED) + Shown(ps[1..])
  }

  ghost predicate GoodPiece(p: Piece, m: string) {
    if p.Kept? then NoneClosed(p.text, m)
    else m <= p.text && |p.text| > |m| && p.text[|p.text| - 1] == '>' && '>' !in p.text[..|p.text| - 1]
  }

  function Pieces(s: string, m: string): seq<Piece>
    decreases |s|
  {
    match FirstSpan(s, m)
    case NoSpan => [Kept(s)]
    case Span(i, e) => [Kept(s[..i])] + ([Secret(s[i..e])] + Pieces(s[e..], m))
  }

  /** One pass replaces exactly a list of marker spans and keeps everything else, in order. */
  lemma {:induction false} PiecesRender(s: string, m: string)
    ensures Source(Pieces(s, m)) == s && Shown(Pieces(s, m)) == Redacted(s, m)
    decreases |s|
  {
    match FirstSpan(s, m)
    case NoSpan =>
      assert Pieces(s, m)[1..] == [];
    case Span(i, e) =>
      PiecesRender(s[e..], m);
      TwoPieces(s[..i], s[i..e], Pieces(s[e..], m));
      Rejoin(s, i, e);
  }

  /** Each replaced span is a marker up to its first '>', and what is kept holds no closed marker. */
  lemma {:induction false} PiecesGood(s: string, m: string)
    requires IsMarker(m)
    ensures forall p :: p in Pieces(s, m) ==> GoodPiece(p, m)
    decreases |s|
  {
    match FirstSpan(s, m)
    case NoSpan => NoSpanSpec(s, m);
    case Span(i, e) =>
      SpanSpec(s, m);
      FreeHead(s, m, i);
      assert s[i..e][..|m|] == s[i..i + |m|];
      assert GoodPiece(Secret(s[i..e]), m) && GoodPiece(Kept(s[..i]), m);
      PiecesGood(s[e..], m);
  }

  lemma Rejoin(s: string, i: nat, e: nat)
    requires i <= e <= |s|
    ensures s[..i] + (s[i..e] + s[e..]) == s
  {
  }

  lemma TwoPieces(kept: string, secret: string, later: seq<Piece>)
    ensures Source([Kept(kept)] + ([Secret(secret)] + later)) == kept + (secret + Source(later))
    ensures Shown([Kept(kept)] + ([Secret(secret)] + later)) == kept + (REDACTED + Shown(later))
  {
    var rest := [Secret(secret)] + later;
    assert rest[1..] == later && ([Kept(kept)] + rest)[1..] == rest;
  }
}
