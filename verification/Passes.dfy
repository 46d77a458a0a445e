/** The two passes that rewrite a loaded manifest in place, expansion and redaction, as walks over its heap. */
module Passes {
  import opened Wrappers
  import opened Walk
  import Placeholders
  import Redact

  function Expander(src: Placeholders.Sources): string -> string { s => Placeholders.Expand(src, s) }

  /** Every string of the cell settles. */
  ghost predicate CellSettles(src: Placeholders.Sources, c: Cell) {
    forall s :: s in StringsCell(c) ==> Placeholders.Settles(src, s)
  }

  lemma SettledIdempotent(src: Placeholders.Sources, c: Cell)
    requires CellSettles(src, c)
    ensures IdempotentOn(Expander(src), StringsCell(c))
  {
    forall s | s in StringsCell(c) ensures Expander(src)(Expander(src)(s)) == Expander(src)(s) {
      Placeholders.ExpandTwice(src, s);
    }
  }

  /** Expansion in place is expansion of every string reached when the strings of the cells that are reached more than
      once settle. */
  lemma ExpansionIsMap(src: Placeholders.Sources, st: Store, rank: Addr -> nat, v: Val, settable: bool, n: nat)
    requires Acyclic(st, rank) && Below(st, rank, Refs(v), n)
    requires forall a :: a in st && Paths(st, rank, Refs(v), a, n) > 1 ==> CellSettles(src, st[a])
    ensures WalksAsMap(Expander(src), st, rank, v, settable, n)
  {
    forall a | a in st && Paths(st, rank, Refs(v), a, n) > 1 ensures IdempotentOn(Expander(src), StringsCell(st[a])) {
      SettledIdempotent(src, st[a]);
    }
    WalkIsMap(Expander(src), st, rank, v, settable, n);
  }

  /** The copy that the loader makes of an inline value is expanded as if it had been made afterwards, when the strings of
      what the two share settle. */
  lemma ExpansionAfterCopy(src: Placeholders.Sources, st: Store, rank: Addr -> nat, inline: Addr, value: Addr)
    requires Acyclic(st, rank) && inline in st && value !in st && rank(value) == rank(inline)
    requires forall b :: b in st && Shared(st, rank, inline, b) > 0 ==> CellSettles(src, st[b])
    ensures Acyclic(CopyInline(st, inline, value), rank)
    ensures var st1 := WalkCell(Expander(src), CopyInline(st, inline, value), rank, value);
            Acyclic(st1, rank) && inline in st1 &&
            WalkCell(Expander(src), st1, rank, inline) == CopyInline(WalkCell(Expander(src), st, rank, inline), inline, value)
  {
    forall b | b in st && Shared(st, rank, inline, b) > 0 ensures Stable(Expander(src), st[b]) {
      SettledIdempotent(src, st[b]);
      IdempotentStable(Expander(src), st[b]);
    }
    WalkAfterCopy(Expander(src), st, rank, inline, value);
  }

  /** No sources make expansion idempotent, so that some shared string is always expanded differently when met twice. */
  lemma ExpanderNeverIdempotent(src: Placeholders.Sources)
    ensures !Idempotent(Expander(src))
  {
    Placeholders.ExpansionNotIdempotent(src);
    var s := Placeholders.Nested("A", "x");
    assert Expander(src)(Expander(src)(s)) != Expander(src)(s);
  }

  /** A string that is reached along one path is expanded once, wherever it is stored. */
  lemma ExpansionReaches(src: Placeholders.Sources, st: Store, rank: Addr -> nat, v: Val, n: nat, a: Addr, i: nat, path: seq<nat>, s: string)
    requires Acyclic(st, rank) && Below(st, rank, Refs(v), n) && a in st && PlaceAt(st[a], i, path) == Some(Str(s))
    requires Paths(st, rank, Refs(v), a, n) == 1
    ensures PlaceAt(WalkVal(Expander(src), st, rank, v, true, n).0[a], i, path) == Some(Str(Placeholders.Expand(src, s)))
  {
    WalkReplaces(Expander(src), st, rank, v, true, n, a, i, path, s);
    IteratedOnce(Expander(src), s);
  }

  lemma IteratedOnce(f: string -> string, s: string)
    ensures Iterated(f, 1, s) == f(s)
  {
    assert Iterated(f, 0, s) == s;
  }

  lemma {:induction false} IteratedRedaction(k: nat, s: string)
    requires k > 0
    ensures Iterated(Redact.RedactAll, k, s) == Redact.RedactAll(s)
  {
    if k == 1 {
      IteratedOnce(Redact.RedactAll, s);
    } else {
      IteratedRedaction(k - 1, s);
      Redact.RedactAllCloses(s);
    }
  }

  /** Every string that is reached is shown without a secret: it is redacted, and no marker in it is closed. */
  lemma NoSecretShown(st: Store, rank: Addr -> nat, v: Val, n: nat, a: Addr, i: nat, path: seq<nat>, s: string)
    requires Acyclic(st, rank) && Below(st, rank, Refs(v), n) && a in st && PlaceAt(st[a], i, path) == Some(Str(s))
    requires Paths(st, rank, Refs(v), a, n) > 0
    ensures var shown := PlaceAt(WalkVal(Redact.RedactAll, st, rank, v, true, n).0[a], i, path);
            && shown == Some(Str(Redact.RedactAll(s)))
            && Redact.NoneClosed(shown.value.s, "<VAULT:") && Redact.NoneClosed(shown.value.s, "<GEN_SSH_KEY:")
  {
    WalkReplaces(Redact.RedactAll, st, rank, v, true, n, a, i, path, s);
    IteratedRedaction(Paths(st, rank, Refs(v), a, n), s);
    Redact.RedactAllCloses(s);
  }

  /** Redaction in place is redaction of every string reached, on every heap. */
  lemma RedactionIsMap(st: Store, rank: Addr -> nat, v: Val, settable: bool, n: nat)
    requires Acyclic(st, rank) && Below(st, rank, Refs(v), n)
    ensures WalksAsMap(Redact.RedactAll, st, rank, v, settable, n)
  {
    forall s ensures Redact.RedactAll(Redact.RedactAll(s)) == Redact.RedactAll(s) {
      Redact.RedactAllCloses(s);
    }
    WalkIsMap(Redact.RedactAll, st, rank, v, settable, n);
  }
}
