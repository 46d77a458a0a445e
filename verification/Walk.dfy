/** The in-place walk over a loaded manifest: every settable string is replaced through pointers, slices,
    maps and interfaces, in a heap where the same cell may be reached along several paths. */
module Walk {
  import opened Wrappers

  type Addr = nat

  /** A Go value. `Ref` is a pointer, a slice or a map, according to the cell at its address; `Struct` is a
      struct or an array, stored inline; a nil interface, pointer, slice or map is `Nil`. */
  datatype Val =
    | Str(s: string)
    | Scalar(n: int)
    | Nil
    | Ref(a: Addr)
    | Iface(v: Val)
    | Struct(fields: seq<Val>)

  /** What a pointer points to, a slice's elements, a map's entries in iteration order. */
  datatype Cell = Target(v: Val) | Backing(elems: seq<Val>) | Table(entries: seq<(string, Val)>)

  type Store = map<Addr, Cell>

  // --- the pure map ------------------------------------------------------------------

  /** `f` on the settable strings stored inline; what is inside an interface is not settable. */
  function MapVal(f: string -> string, v: Val, settable: bool): Val
    decreases v, 1
  {
    match v
    case Str(s) => if settable then Str(f(s)) else v
    case Iface(u) => Iface(MapVal(f, u, false))
    case Struct(fields) => Struct(MapSeq(f, fields, settable))
    case _ => v
  }

  function MapSeq(f: string -> string, vs: seq<Val>, settable: bool): (r: seq<Val>)
    ensures |r| == |vs|
    decreases vs, 0
  {
    if vs == [] then [] else [MapVal(f, vs[0], settable)] + MapSeq(f, vs[1..], settable)
  }

  /** A map's value: it is copied out, so that even the inside of an interface can be set. */
  function MapEntry(f: string -> string, v: Val): Val {
    Rewrapped(v, MapVal(f, Content(v), true))
  }

  function Content(v: Val): Val { if v.Iface? then v.v else v }

  function Rewrapped(v: Val, content: Val): Val { if v.Iface? then Iface(content) else content }

  function MapEntries(f: string -> string, es: seq<(string, Val)>): (r: seq<(string, Val)>)
    ensures |r| == |es|
  {
    if es == [] then [] else [(es[0].0, MapEntry(f, es[0].1))] + MapEntries(f, es[1..])
  }

  function MapCell(f: string -> string, c: Cell): Cell {
    match c
    case Target(v) => Target(MapVal(f, v, true))
    case Backing(elems) => Backing(MapSeq(f, elems, true))
    case Table(entries) => Table(MapEntries(f, entries))
  }

  /** `f` mapped over the cells at the addresses in `R`; the others are untouched. */
  function MapOver(f: string -> string, st: Store, R: set<Addr>): Store {
    map a | a in st :: if a in R then MapCell(f, st[a]) else st[a]
  }

  // --- what the map leaves alone -----------------------------------------------------------

  /** The value with its strings blanked out: everything else is kept. */
  function Skeleton(v: Val): Val
    decreases v, 1
  {
    match v
    case Str(_) => Str("")
    case Iface(u) => Iface(Skeleton(u))
    case Struct(fields) => Struct(SkeletonSeq(fields))
    case _ => v
  }

  function SkeletonSeq(vs: seq<Val>): seq<Val>
    decreases vs, 0
  {
    if vs == [] then [] else [Skeleton(vs[0])] + SkeletonSeq(vs[1..])
  }

  function SkeletonEntries(es: seq<(string, Val)>): seq<(string, Val)> {
    if es == [] then [] else [(es[0].0, Skeleton(es[0].1))] + SkeletonEntries(es[1..])
  }

  function SkeletonCell(c: Cell): Cell {
    match c
    case Target(v) => Target(Skeleton(v))
    case Backing(elems) => Backing(SkeletonSeq(elems))
    case Table(entries) => Table(SkeletonEntries(entries))
  }

  lemma {:induction false} SkeletonKept(f: string -> string, v: Val, settable: bool)
    ensures Skeleton(MapVal(f, v, settable)) == Skeleton(v)
    decreases v, 1
  {
    match v
    case Iface(u) => SkeletonKept(f, u, false);
    case Struct(fields) => SkeletonSeqKept(f, fields, settable);
    case _ =>
  }

  lemma {:induction false} SkeletonSeqKept(f: string -> string, vs: seq<Val>, settable: bool)
    ensures SkeletonSeq(MapSeq(f, vs, settable)) == SkeletonSeq(vs)
    decreases vs, 0
  {
    if vs != [] {
      SkeletonKept(f, vs[0], settable);
      SkeletonSeqKept(f, vs[1..], settable);
      assert MapSeq(f, vs, settable)[1..] == MapSeq(f, vs[1..], settable);
    }
  }

  lemma {:induction false} SkeletonEntriesKept(f: string -> string, es: seq<(string, Val)>)
    ensures SkeletonEntries(MapEntries(f, es)) == SkeletonEntries(es)
  {
    if es != [] {
      SkeletonKept(f, Content(es[0].1), true);
      SkeletonEntriesKept(f, es[1..]);
      assert MapEntries(f, es)[1..] == MapEntries(f, es[1..]);
      assert Skeleton(MapEntry(f, es[0].1)) == Skeleton(es[0].1);
    }
  }

  /** Keys, lengths, pointers, numbers and nils of a cell stay as they are: only strings change. */
  lemma OnlyStringsChange(f: string -> string, c: Cell)
    ensures SkeletonCell(MapCell(f, c)) == SkeletonCell(c)
  {
    match c
    case Target(v) => SkeletonKept(f, v, true);
    case Backing(elems) => SkeletonSeqKept(f, elems, true);
    case Table(entries) => SkeletonEntriesKept(f, entries);
  }

  /** What is not settable is not even expanded, down to the next pointer, slice or map: the strings of a slice of
      interfaces stay as they are. */
  lemma {:induction false} UnsettableKept(f: string -> string, v: Val)
    ensures MapVal(f, v, false) == v
    decreases v, 1
  {
    match v
    case Iface(u) => UnsettableKept(f, u);
    case Struct(fields) => UnsettableSeqKept(f, fields);
    case _ =>
  }

  lemma {:induction false} UnsettableSeqKept(f: string -> string, vs: seq<Val>)
    ensures MapSeq(f, vs, false) == vs
    decreases vs, 0
  {
    if vs != [] {
      UnsettableKept(f, vs[0]);
      UnsettableSeqKept(f, vs[1..]);
    }
  }

  lemma {:induction false} InterfaceSliceKept(f: string -> string, elems: seq<Val>)
    requires forall v :: v in elems ==> v.Iface?
    ensures MapCell(f, Backing(elems)) == Backing(elems)
  {
    if elems != [] {
      assert elems[0] in elems;
      UnsettableKept(f, elems[0].v);
      InterfaceSliceKept(f, elems[1..]);
      assert MapSeq(f, elems, true) == [elems[0]] + elems[1..];
    }
  }

  // --- what the map changes -----------------------------------------------------------------

  /** The value a path of fields leads to. */
  function FieldAt(v: Val, path: seq<nat>): Option<Val>
    decreases |path|
  {
    if path == [] then Some(v)
    else if v.Struct? && path[0] < |v.fields| then FieldAt(v.fields[path[0]], path[1..])
    else None
  }

  /** The value at a settable place of a cell: behind the pointer, in an element of a slice, or in the value under a map's
      key, whether that is in an interface or not, and from there along fields. */
  function PlaceAt(c: Cell, i: nat, path: seq<nat>): Option<Val> {
    match c
    case Target(v) => FieldAt(v, path)
    case Backing(elems) => if i < |elems| then FieldAt(elems[i], path) else None
    case Table(entries) =>
      if i >= |entries| then None
      else match entries[i].1
        case Iface(v) => FieldAt(v, path)
        case v => FieldAt(v, path)
  }

  lemma {:induction false} MapSeqAt(f: string -> string, vs: seq<Val>, settable: bool, i: nat)
    requires i < |vs|
    ensures MapSeq(f, vs, settable)[i] == MapVal(f, vs[i], settable)
  {
    if i > 0 { MapSeqAt(f, vs[1..], settable, i - 1); }
  }

  lemma {:induction false} MapEntriesAt(f: string -> string, es: seq<(string, Val)>, i: nat)
    requires i < |es|
    ensures MapEntries(f, es)[i] == (es[i].0, MapEntry(f, es[i].1))
  {
    if i > 0 { MapEntriesAt(f, es[1..], i - 1); }
  }

  lemma {:induction false} FieldReplaced(f: string -> string, v: Val, path: seq<nat>, s: string)
    requires FieldAt(v, path) == Some(Str(s))
    ensures FieldAt(MapVal(f, v, true), path) == Some(Str(f(s)))
    decreases |path|
  {
    if path != [] {
      MapSeqAt(f, v.fields, true, path[0]);
      FieldReplaced(f, v.fields[path[0]], path[1..], s);
    }
  }

  /** Every string at a settable place becomes what the function makes of it. */
  lemma PlaceReplaced(f: string -> string, c: Cell, i: nat, path: seq<nat>, s: string)
    requires PlaceAt(c, i, path) == Some(Str(s))
    ensures PlaceAt(MapCell(f, c), i, path) == Some(Str(f(s)))
  {
    match c
    case Target(v) => FieldReplaced(f, v, path, s);
    case Backing(elems) =>
      MapSeqAt(f, elems, true, i);
      FieldReplaced(f, elems[i], path, s);
    case Table(entries) =>
      MapEntriesAt(f, entries, i);
      FieldReplaced(f, Content(entries[i].1), path, s);
  }

  /** A map's entry that is a bare string. */
  lemma BareEntryReplaced(f: string -> string, es: seq<(string, Val)>, i: nat, s: string)
    requires i < |es| && es[i].1 == Str(s)
    ensures MapEntries(f, es)[i] == (es[i].0, Str(f(s)))
  {
    MapEntriesAt(f, es, i);
  }

  // --- references and shapes -----------------------------------------------------------

  /** The references of a value, one after the other; the same one may come again. */
  function Refs(v: Val): seq<Addr>
    decreases v, 1
  {
    match v
    case Ref(a) => [a]
    case Iface(u) => Refs(u)
    case Struct(fields) => RefsSeq(fields)
    case _ => []
  }

  function RefsSeq(vs: seq<Val>): seq<Addr>
    decreases vs, 0
  {
    if vs == [] then [] else Refs(vs[0]) + RefsSeq(vs[1..])
  }

  function RefsEntries(es: seq<(string, Val)>): seq<Addr> {
    if es == [] then [] else Refs(es[0].1) + RefsEntries(es[1..])
  }

  function RefsCell(c: Cell): seq<Addr> {
    match c
    case Target(v) => Refs(v)
    case Backing(elems) => RefsSeq(elems)
    case Table(entries) => RefsEntries(entries)
  }

  /** The references are in the store and of rank below `n`. */
  predicate Below(st: Store, rank: Addr -> nat, refs: seq<Addr>, n: nat) {
    forall a :: a in refs ==> a in st && rank(a) < n
  }

  /** The store is acyclic: references go down in rank. */
  predicate Acyclic(st: Store, rank: Addr -> nat) {
    forall a :: a in st ==> Below(st, rank, RefsCell(st[a]), rank(a))
  }

  /** Same addresses, and the same references in each cell. */
  predicate SameRefs(st: Store, st': Store) {
    st.Keys == st'.Keys && forall a :: a in st ==> RefsCell(st'[a]) == RefsCell(st[a])
  }

  lemma SameRefsAcyclic(st: Store, st': Store, rank: Addr -> nat)
    requires Acyclic(st, rank) && SameRefs(st, st')
    ensures Acyclic(st', rank)
  {
    forall a | a in st' ensures Below(st', rank, RefsCell(st'[a]), rank(a)) {
      assert Below(st, rank, RefsCell(st[a]), rank(a));
    }
  }

  lemma {:induction false} MapKeepsRefs(f: string -> string, v: Val, settable: bool)
    ensures Refs(MapVal(f, v, settable)) == Refs(v)
    decreases v, 1
  {
    match v
    case Iface(u) => MapKeepsRefs(f, u, false);
    case Struct(fields) => MapSeqKeepsRefs(f, fields, settable);
    case _ =>
  }

  lemma {:induction false} MapSeqKeepsRefs(f: string -> string, vs: seq<Val>, settable: bool)
    ensures RefsSeq(MapSeq(f, vs, settable)) == RefsSeq(vs)
    decreases vs, 0
  {
    if vs != [] {
      MapKeepsRefs(f, vs[0], settable);
      MapSeqKeepsRefs(f, vs[1..], settable);
      assert MapSeq(f, vs, settable)[1..] == MapSeq(f, vs[1..], settable);
    }
  }

  // --- the walk ---------------------------------------------------------------------

  /** The walk of a value: the store afterwards and the value itself, whose inline strings may have been
      set. Every step works on the store the step before it left. */
  function WalkVal(f: string -> string, st: Store, rank: Addr -> nat, v: Val, settable: bool, n: nat): (r: (Store, Val))
    requires Acyclic(st, rank) && Below(st, rank, Refs(v), n)
    ensures SameRefs(st, r.0) && Refs(r.1) == Refs(v)
    ensures forall a :: a in st && rank(a) >= n ==> r.0[a] == st[a]
    decreases n, 0, v, 1
  {
    match v
    case Str(s) => (st, if settable then Str(f(s)) else v)
    case Ref(a) => (WalkCell(f, st, rank, a), v)
    case Iface(u) => var r := WalkVal(f, st, rank, u, false, n); (r.0, Iface(r.1))
    case Struct(fields) => var r := WalkSeq(f, st, rank, fields, settable, n); (r.0, Struct(r.1))
    case _ => (st, v)
  }

  function WalkSeq(f: string -> string, st: Store, rank: Addr -> nat, vs: seq<Val>, settable: bool, n: nat): (r: (Store, seq<Val>))
    requires Acyclic(st, rank) && Below(st, rank, RefsSeq(vs), n)
    ensures SameRefs(st, r.0) && RefsSeq(r.1) == RefsSeq(vs) && |r.1| == |vs|
    ensures forall a :: a in st && rank(a) >= n ==> r.0[a] == st[a]
    decreases n, 0, vs, 0
  {
    if vs == [] then (st, [])
    else
      var first := WalkVal(f, st, rank, vs[0], settable, n);
      SameRefsAcyclic(st, first.0, rank);
      var rest := WalkSeq(f, first.0, rank, vs[1..], settable, n);
      (rest.0, [first.1] + rest.1)
  }

  function WalkEntries(f: string -> string, st: Store, rank: Addr -> nat, es: seq<(string, Val)>, n: nat): (r: (Store, seq<(string, Val)>))
    requires Acyclic(st, rank) && Below(st, rank, RefsEntries(es), n)
    ensures SameRefs(st, r.0) && RefsEntries(r.1) == RefsEntries(es) && |r.1| == |es|
    ensures forall a :: a in st && rank(a) >= n ==> r.0[a] == st[a]
    decreases n, 1, es
  {
    if es == [] then (st, [])
    else
      var v := es[0].1;
      var first := WalkVal(f, st, rank, Content(v), true, n);
      SameRefsAcyclic(st, first.0, rank);
      var rest := WalkEntries(f, first.0, rank, es[1..], n);
      (rest.0, [(es[0].0, Rewrapped(v, first.1))] + rest.1)
  }

  function WalkCell(f: string -> string, st: Store, rank: Addr -> nat, a: Addr): (st': Store)
    requires Acyclic(st, rank) && a in st
    ensures SameRefs(st, st')
    ensures forall b :: b in st && rank(b) > rank(a) ==> st'[b] == st[b]
    decreases rank(a), 2
  {
    assert Below(st, rank, RefsCell(st[a]), rank(a));
    match st[a]
    case Target(v) => var r := WalkVal(f, st, rank, v, true, rank(a)); r.0[a := Target(r.1)]
    case Backing(elems) => var r := WalkSeq(f, st, rank, elems, true, rank(a)); r.0[a := Backing(r.1)]
    case Table(entries) => var r := WalkEntries(f, st, rank, entries, rank(a)); r.0[a := Table(r.1)]
  }

  /** One element of a list: the walk goes on from the store it left. */
  lemma WalkSeqHead(f: string -> string, st: Store, rank: Addr -> nat, vs: seq<Val>, settable: bool, n: nat)
    requires Acyclic(st, rank) && Below(st, rank, RefsSeq(vs), n) && vs != []
    ensures Below(st, rank, Refs(vs[0]), n)
    ensures var first := WalkVal(f, st, rank, vs[0], settable, n);
            Acyclic(first.0, rank) && Below(first.0, rank, RefsSeq(vs[1..]), n) &&
            var rest := WalkSeq(f, first.0, rank, vs[1..], settable, n);
            WalkSeq(f, st, rank, vs, settable, n) == (rest.0, [first.1] + rest.1)
  {
    SameRefsAcyclic(st, WalkVal(f, st, rank, vs[0], settable, n).0, rank);
  }

  lemma WalkEntriesHead(f: string -> string, st: Store, rank: Addr -> nat, es: seq<(string, Val)>, n: nat)
    requires Acyclic(st, rank) && Below(st, rank, RefsEntries(es), n) && es != []
    ensures Below(st, rank, Refs(Content(es[0].1)), n)
    ensures var first := WalkVal(f, st, rank, Content(es[0].1), true, n);
            Acyclic(first.0, rank) && Below(first.0, rank, RefsEntries(es[1..]), n) &&
            var rest := WalkEntries(f, first.0, rank, es[1..], n);
            WalkEntries(f, st, rank, es, n) == (rest.0, [(es[0].0, Rewrapped(es[0].1, first.1))] + rest.1)
  {
    assert Refs(Content(es[0].1)) == Refs(es[0].1);
    SameRefsAcyclic(st, WalkVal(f, st, rank, Content(es[0].1), true, n).0, rank);
  }

  lemma Reassociate<T>(a: seq<T>, b: seq<T>, c: seq<T>)
    ensures a + (b + c) == a + b + c
  {
  }

  // --- how often a cell is reached -----------------------------------------------------------

  /** The number of paths from a list of references to the cell at `a`; a reference that comes twice counts twice. */
  function Paths(st: Store, rank: Addr -> nat, refs: seq<Addr>, a: Addr, n: nat): nat
    requires Acyclic(st, rank) && Below(st, rank, refs, n)
    decreases n, 0, |refs|
  {
    if refs == [] then 0 else PathsFrom(st, rank, refs[0], a) + Paths(st, rank, refs[1..], a, n)
  }

  /** The number of paths from the cell at `b`, the empty one included. */
  function PathsFrom(st: Store, rank: Addr -> nat, b: Addr, a: Addr): nat
    requires Acyclic(st, rank) && b in st
    decreases rank(b), 1, 0
  {
    assert Below(st, rank, RefsCell(st[b]), rank(b));
    (if a == b then 1 else 0) + Paths(st, rank, RefsCell(st[b]), a, rank(b))
  }

  lemma PathsCons(st: Store, rank: Addr -> nat, refs: seq<Addr>, head: Addr, rest: seq<Addr>, a: Addr, n: nat)
    requires Acyclic(st, rank) && Below(st, rank, refs, n) && Below(st, rank, rest, n) && head in st
    requires refs != [] && refs[0] == head && refs[1..] == rest
    ensures Paths(st, rank, refs, a, n) == PathsFrom(st, rank, head, a) + Paths(st, rank, rest, a, n)
  {
  }

  lemma {:induction false} PathsConcat(st: Store, rank: Addr -> nat, r1: seq<Addr>, r2: seq<Addr>, both: seq<Addr>, a: Addr, n: nat)
    requires Acyclic(st, rank) && Below(st, rank, r1, n) && Below(st, rank, r2, n) && Below(st, rank, both, n) && both == r1 + r2
    ensures Paths(st, rank, both, a, n) == Paths(st, rank, r1, a, n) + Paths(st, rank, r2, a, n)
    decreases |r1|
  {
    if r1 == [] {
      assert both == r2;
    } else {
      assert both[0] == r1[0] && both[1..] == r1[1..] + r2;
      PathsConcat(st, rank, r1[1..], r2, both[1..], a, n);
      PathsCons(st, rank, r1, r1[0], r1[1..], a, n);
      PathsCons(st, rank, both, r1[0], both[1..], a, n);
    }
  }

  lemma {:induction false} PathsSame(st: Store, st': Store, rank: Addr -> nat, refs: seq<Addr>, a: Addr, n: nat)
    requires Acyclic(st, rank) && Acyclic(st', rank) && SameRefs(st, st') && Below(st, rank, refs, n)
    ensures Below(st', rank, refs, n) && Paths(st', rank, refs, a, n) == Paths(st, rank, refs, a, n)
    decreases n, 0, |refs|
  {
    if refs != [] {
      PathsFromSame(st, st', rank, refs[0], a);
      PathsSame(st, st', rank, refs[1..], a, n);
    }
  }

  lemma {:induction false} PathsFromSame(st: Store, st': Store, rank: Addr -> nat, b: Addr, a: Addr)
    requires Acyclic(st, rank) && Acyclic(st', rank) && SameRefs(st, st') && b in st
    ensures PathsFrom(st', rank, b, a) == PathsFrom(st, rank, b, a)
    decreases rank(b), 1, 0
  {
    assert Below(st, rank, RefsCell(st[b]), rank(b));
    PathsSame(st, st', rank, RefsCell(st[b]), a, rank(b));
  }

  /** Paths go down in rank. */
  lemma {:induction false} NoPathUp(st: Store, rank: Addr -> nat, refs: seq<Addr>, a: Addr, n: nat)
    requires Acyclic(st, rank) && Below(st, rank, refs, n) && rank(a) >= n
    ensures Paths(st, rank, refs, a, n) == 0
    decreases n, |refs|
  {
    if refs != [] {
      assert Below(st, rank, RefsCell(st[refs[0]]), rank(refs[0]));
      NoPathUp(st, rank, RefsCell(st[refs[0]]), a, rank(refs[0]));
      NoPathUp(st, rank, refs[1..], a, n);
    }
  }

  // --- the walk maps a cell once a path ---------------------------------------------------------

  /** The cell mapped k times over. */
  function Times(f: string -> string, k: nat, c: Cell): Cell {
    if k == 0 then c else MapCell(f, Times(f, k - 1, c))
  }

  lemma {:induction false} TimesAdd(f: string -> string, j: nat, k: nat, c: Cell)
    ensures Times(f, j, Times(f, k, c)) == Times(f, j + k, c)
  {
    if j > 0 { TimesAdd(f, j - 1, k, c); }
  }

  lemma TimesSum(f: string -> string, j: nat, k: nat, sum: nat, c: Cell)
    requires sum == j + k
    ensures Times(f, j, Times(f, k, c)) == Times(f, sum, c)
  {
    TimesAdd(f, j, k, c);
  }

  type Counts = map<Addr, nat>

  /** Every cell mapped as often as `p` says. */
  function Repeat(f: string -> string, st: Store, p: Counts): Store
    requires p.Keys == st.Keys
  {
    map a | a in st :: Times(f, p[a], st[a])
  }

  function Plus(p: Counts, q: Counts): Counts
    requires p.Keys == q.Keys
  {
    map a | a in p :: p[a] + q[a]
  }

  /** Repeating by `p` and then by `q` is repeating by the sum. */
  lemma RepeatTwice(f: string -> string, st: Store, p: Counts, q: Counts)
    requires p.Keys == q.Keys == st.Keys
    ensures Repeat(f, Repeat(f, st, p), q) == Repeat(f, st, Plus(p, q))
  {
    forall a | a in st ensures Times(f, q[a], Times(f, p[a], st[a])) == Times(f, Plus(p, q)[a], st[a]) {
      TimesSum(f, q[a], p[a], Plus(p, q)[a], st[a]);
    }
  }

  /** For every cell the paths from the references to it. */
  function Counted(st: Store, rank: Addr -> nat, refs: seq<Addr>, n: nat): Counts
    requires Acyclic(st, rank) && Below(st, rank, refs, n)
  {
    map a | a in st :: Paths(st, rank, refs, a, n)
  }

  /** For every cell the paths from the cell at `a` to it. */
  function CountedFrom(st: Store, rank: Addr -> nat, a: Addr): Counts
    requires Acyclic(st, rank) && a in st
  {
    map b | b in st :: PathsFrom(st, rank, a, b)
  }

  lemma CountedSame(st: Store, st': Store, rank: Addr -> nat, refs: seq<Addr>, n: nat)
    requires Acyclic(st, rank) && Acyclic(st', rank) && SameRefs(st, st') && Below(st, rank, refs, n)
    ensures Below(st', rank, refs, n) && Counted(st', rank, refs, n) == Counted(st, rank, refs, n)
  {
    forall a | a in st ensures Below(st', rank, refs, n) && Paths(st', rank, refs, a, n) == Paths(st, rank, refs, a, n) {
      PathsSame(st, st', rank, refs, a, n);
    }
  }

  lemma CountedFromSame(st: Store, st': Store, rank: Addr -> nat, a: Addr)
    requires Acyclic(st, rank) && Acyclic(st', rank) && SameRefs(st, st') && a in st
    ensures CountedFrom(st', rank, a) == CountedFrom(st, rank, a)
  {
    forall b | b in st ensures PathsFrom(st', rank, a, b) == PathsFrom(st, rank, a, b) {
      PathsFromSame(st, st', rank, a, b);
    }
  }

  lemma CountedConcat(st: Store, rank: Addr -> nat, r1: seq<Addr>, r2: seq<Addr>, both: seq<Addr>, n: nat)
    requires Acyclic(st, rank) && Below(st, rank, r1, n) && Below(st, rank, r2, n) && Below(st, rank, both, n) && both == r1 + r2
    ensures Counted(st, rank, both, n) == Plus(Counted(st, rank, r1, n), Counted(st, rank, r2, n))
  {
    forall a | a in st ensures Paths(st, rank, both, a, n) == Paths(st, rank, r1, a, n) + Paths(st, rank, r2, a, n) {
      PathsConcat(st, rank, r1, r2, both, a, n);
    }
  }

  lemma CountedOne(st: Store, rank: Addr -> nat, a: Addr, n: nat)
    requires Acyclic(st, rank) && a in st && Below(st, rank, [a], n)
    ensures Counted(st, rank, [a], n) == CountedFrom(st, rank, a)
  {
    forall b | b in st ensures Paths(st, rank, [a], b, n) == PathsFrom(st, rank, a, b) {
      assert [a][1..] == [];
    }
  }

  /** Every cell mapped once for each path from the references to it. */
  function Repeated(f: string -> string, st: Store, rank: Addr -> nat, refs: seq<Addr>, n: nat): Store
    requires Acyclic(st, rank) && Below(st, rank, refs, n)
  {
    Repeat(f, st, Counted(st, rank, refs, n))
  }

  /** Repeating for one list and then for another is repeating for both. */
  lemma RepeatedTwice(f: string -> string, st: Store, st1: Store, rank: Addr -> nat, r1: seq<Addr>, r2: seq<Addr>, n: nat)
    requires Acyclic(st, rank) && Below(st, rank, r1, n) && Below(st, rank, r2, n) && Below(st, rank, r1 + r2, n)
    requires st1 == Repeated(f, st, rank, r1, n) && Acyclic(st1, rank) && SameRefs(st, st1) && Below(st1, rank, r2, n)
    ensures Repeated(f, st1, rank, r2, n) == Repeated(f, st, rank, r1 + r2, n)
  {
    CountedSame(st, st1, rank, r2, n);
    CountedConcat(st, rank, r1, r2, r1 + r2, n);
    RepeatTwice(f, st, Counted(st, rank, r1, n), Counted(st, rank, r2, n));
  }

  lemma NothingRepeated(f: string -> string, st: Store, rank: Addr -> nat, n: nat)
    requires Acyclic(st, rank)
    ensures Repeated(f, st, rank, [], n) == st
  {
  }

  /** The law of the walk, for any function and any acyclic heap: the value is mapped, and every cell is mapped as many
      times as there are paths to it. */
  lemma {:induction false} WalkValCounts(f: string -> string, st: Store, rank: Addr -> nat, v: Val, settable: bool, n: nat)
    requires Acyclic(st, rank) && Below(st, rank, Refs(v), n)
    ensures WalkVal(f, st, rank, v, settable, n) == (Repeated(f, st, rank, Refs(v), n), MapVal(f, v, settable))
    decreases n, 0, v, 1
  {
    match v
    case Ref(a) =>
      WalkCellCounts(f, st, rank, a);
      CountedOne(st, rank, a, n);
    case Iface(u) => WalkValCounts(f, st, rank, u, false, n);
    case Struct(fields) => WalkSeqCounts(f, st, rank, fields, settable, n);
    case Str(_) => NothingRepeated(f, st, rank, n);
    case Scalar(_) => NothingRepeated(f, st, rank, n);
    case Nil => NothingRepeated(f, st, rank, n);
  }

  lemma {:induction false} WalkSeqCounts(f: string -> string, st: Store, rank: Addr -> nat, vs: seq<Val>, settable: bool, n: nat)
    requires Acyclic(st, rank) && Below(st, rank, RefsSeq(vs), n)
    ensures WalkSeq(f, st, rank, vs, settable, n) == (Repeated(f, st, rank, RefsSeq(vs), n), MapSeq(f, vs, settable))
    decreases n, 0, vs, 0
  {
    if vs == [] {
      NothingRepeated(f, st, rank, n);
    } else {
      WalkSeqHead(f, st, rank, vs, settable, n);
      WalkValCounts(f, st, rank, vs[0], settable, n);
      var st1 := Repeated(f, st, rank, Refs(vs[0]), n);
      WalkSeqCounts(f, st1, rank, vs[1..], settable, n);
      RepeatedTwice(f, st, st1, rank, Refs(vs[0]), RefsSeq(vs[1..]), n);
    }
  }

  lemma {:induction false} WalkEntriesCounts(f: string -> string, st: Store, rank: Addr -> nat, es: seq<(string, Val)>, n: nat)
    requires Acyclic(st, rank) && Below(st, rank, RefsEntries(es), n)
    ensures WalkEntries(f, st, rank, es, n) == (Repeated(f, st, rank, RefsEntries(es), n), MapEntries(f, es))
    decreases n, 1, es
  {
    if es == [] {
      NothingRepeated(f, st, rank, n);
    } else {
      WalkEntriesHead(f, st, rank, es, n);
      var v := Content(es[0].1);
      assert Refs(v) == Refs(es[0].1);
      WalkValCounts(f, st, rank, v, true, n);
      var st1 := Repeated(f, st, rank, Refs(v), n);
      WalkEntriesCounts(f, st1, rank, es[1..], n);
      RepeatedTwice(f, st, st1, rank, Refs(v), RefsEntries(es[1..]), n);
    }
  }

  /** The cell's own content is mapped once and what is below it once a path. */
  lemma {:induction false} WalkCellCounts(f: string -> string, st: Store, rank: Addr -> nat, a: Addr)
    requires Acyclic(st, rank) && a in st
    ensures WalkCell(f, st, rank, a) == Repeat(f, st, CountedFrom(st, rank, a))
    decreases rank(a), 2
  {
    assert Below(st, rank, RefsCell(st[a]), rank(a));
    match st[a] {
      case Target(v) => WalkValCounts(f, st, rank, v, true, rank(a));
      case Backing(elems) => WalkSeqCounts(f, st, rank, elems, true, rank(a));
      case Table(entries) => WalkEntriesCounts(f, st, rank, entries, rank(a));
    }
    WriteBack(f, st, rank, a);
  }

  lemma WriteBack(f: string -> string, st: Store, rank: Addr -> nat, a: Addr)
    requires Acyclic(st, rank) && a in st && Below(st, rank, RefsCell(st[a]), rank(a))
    ensures Repeated(f, st, rank, RefsCell(st[a]), rank(a))[a := MapCell(f, st[a])] == Repeat(f, st, CountedFrom(st, rank, a))
  {
    var below := Repeated(f, st, rank, RefsCell(st[a]), rank(a));
    forall b | b in st ensures below[a := MapCell(f, st[a])][b] == Repeat(f, st, CountedFrom(st, rank, a))[b] {
      WriteBackAt(f, st, rank, a, b);
    }
  }

  lemma WriteBackAt(f: string -> string, st: Store, rank: Addr -> nat, a: Addr, b: Addr)
    requires Acyclic(st, rank) && a in st && b in st && Below(st, rank, RefsCell(st[a]), rank(a))
    ensures (if b == a then MapCell(f, st[a]) else Times(f, Paths(st, rank, RefsCell(st[a]), b, rank(a)), st[b]))
         == Times(f, PathsFrom(st, rank, a, b), st[b])
  {
    if b == a {
      NoPathUp(st, rank, RefsCell(st[a]), a, rank(a));
      OnceMapped(f, st[a]);
    }
  }

  lemma OnceMapped(f: string -> string, c: Cell)
    ensures Times(f, 1, c) == MapCell(f, c)
  {
    assert Times(f, 0, c) == c;
  }

  // --- when mapping twice is mapping once -------------------------------------------------

  function Strings(v: Val): set<string>
    decreases v, 1
  {
    match v
    case Str(s) => {s}
    case Iface(u) => Strings(u)
    case Struct(fields) => StringsSeq(fields)
    case _ => {}
  }

  function StringsSeq(vs: seq<Val>): set<string>
    decreases vs, 0
  {
    if vs == [] then {} else Strings(vs[0]) + StringsSeq(vs[1..])
  }

  function StringsEntries(es: seq<(string, Val)>): set<string> {
    if es == [] then {} else Strings(es[0].1) + StringsEntries(es[1..])
  }

  /** The strings a cell holds inline. */
  function StringsCell(c: Cell): set<string> {
    match c
    case Target(v) => Strings(v)
    case Backing(elems) => StringsSeq(elems)
    case Table(entries) => StringsEntries(entries)
  }

  predicate IdempotentOn(f: string -> string, strings: set<string>) {
    forall s :: s in strings ==> f(f(s)) == f(s)
  }

  ghost predicate Idempotent(f: string -> string) { forall s :: f(f(s)) == f(s) }

  lemma {:induction false} IdempotentMapVal(f: string -> string, v: Val, settable: bool)
    requires IdempotentOn(f, Strings(v))
    ensures MapVal(f, MapVal(f, v, settable), settable) == MapVal(f, v, settable)
    decreases v, 1
  {
    match v
    case Iface(u) => IdempotentMapVal(f, u, false);
    case Struct(fields) => IdempotentMapSeq(f, fields, settable);
    case _ =>
  }

  lemma {:induction false} IdempotentMapSeq(f: string -> string, vs: seq<Val>, settable: bool)
    requires IdempotentOn(f, StringsSeq(vs))
    ensures MapSeq(f, MapSeq(f, vs, settable), settable) == MapSeq(f, vs, settable)
    decreases vs, 0
  {
    if vs != [] {
      IdempotentMapVal(f, vs[0], settable);
      IdempotentMapSeq(f, vs[1..], settable);
      assert MapSeq(f, vs, settable)[1..] == MapSeq(f, vs[1..], settable);
    }
  }

  lemma IdempotentMapEntry(f: string -> string, v: Val)
    requires IdempotentOn(f, Strings(v))
    ensures MapEntry(f, MapEntry(f, v)) == MapEntry(f, v)
  {
    assert Strings(Content(v)) == Strings(v);
    IdempotentMapVal(f, Content(v), true);
    assert MapVal(f, v, true).Iface? ==> v.Iface?;
  }

  lemma {:induction false} IdempotentMapEntries(f: string -> string, es: seq<(string, Val)>)
    requires IdempotentOn(f, StringsEntries(es))
    ensures MapEntries(f, MapEntries(f, es)) == MapEntries(f, es)
  {
    if es != [] {
      IdempotentMapEntry(f, es[0].1);
      IdempotentMapEntries(f, es[1..]);
      assert MapEntries(f, es)[1..] == MapEntries(f, es[1..]);
    }
  }

  lemma IdempotentStable(f: string -> string, c: Cell)
    requires IdempotentOn(f, StringsCell(c))
    ensures Stable(f, c)
  {
    match c
    case Target(v) => IdempotentMapVal(f, v, true);
    case Backing(elems) => IdempotentMapSeq(f, elems, true);
    case Table(entries) => IdempotentMapEntries(f, entries);
  }

  // --- when the walk is the map -----------------------------------------------------------------

  /** The cells that are reached. */
  function Reached(st: Store, rank: Addr -> nat, refs: seq<Addr>, n: nat): set<Addr>
    requires Acyclic(st, rank) && Below(st, rank, refs, n)
  {
    set a | a in st && Paths(st, rank, refs, a, n) > 0
  }

  ghost predicate WalksAsMap(f: string -> string, st: Store, rank: Addr -> nat, v: Val, settable: bool, n: nat)
    requires Acyclic(st, rank) && Below(st, rank, Refs(v), n)
  {
    WalkVal(f, st, rank, v, settable, n) == (MapOver(f, st, Reached(st, rank, Refs(v), n)), MapVal(f, v, settable))
  }

  /** On the heap at hand the walk is the pure map exactly when mapping each reached cell as often as there are paths to
      it is mapping it once. */
  lemma WalksAsMapIff(f: string -> string, st: Store, rank: Addr -> nat, v: Val, settable: bool, n: nat)
    requires Acyclic(st, rank) && Below(st, rank, Refs(v), n)
    ensures WalksAsMap(f, st, rank, v, settable, n) <==>
              forall a :: a in st && a in Reached(st, rank, Refs(v), n) ==>
                Times(f, Paths(st, rank, Refs(v), a, n), st[a]) == MapCell(f, st[a])
  {
    WalkValCounts(f, st, rank, v, settable, n);
    RepeatIsMapIff(f, st, Counted(st, rank, Refs(v), n), Reached(st, rank, Refs(v), n));
  }

  lemma RepeatIsMapIff(f: string -> string, st: Store, p: Counts, R: set<Addr>)
    requires p.Keys == st.Keys && forall a :: a in st ==> (a in R <==> p[a] > 0)
    ensures Repeat(f, st, p) == MapOver(f, st, R) <==> forall a :: a in st && a in R ==> Times(f, p[a], st[a]) == MapCell(f, st[a])
  {
    var repeated, mapped := Repeat(f, st, p), MapOver(f, st, R);
    if repeated == mapped {
      forall a | a in st && a in R ensures Times(f, p[a], st[a]) == MapCell(f, st[a]) { assert repeated[a] == mapped[a]; }
    } else if forall a :: a in st && a in R ==> Times(f, p[a], st[a]) == MapCell(f, st[a]) {
      forall a | a in st ensures repeated[a] == mapped[a] {
        if a !in R { assert Times(f, 0, st[a]) == st[a]; }
      }
    }
  }

  /** Mapping the cell's settable strings twice is mapping them once. */
  predicate Stable(f: string -> string, c: Cell) {
    MapCell(f, MapCell(f, c)) == MapCell(f, c)
  }

  lemma {:induction false} StableTimes(f: string -> string, k: nat, c: Cell)
    requires k == 1 || (k > 1 && Stable(f, c))
    ensures Times(f, k, c) == MapCell(f, c)
  {
    if k > 1 { StableTimes(f, k - 1, c); } else { assert Times(f, 0, c) == c; }
  }

  /** The function applied k times over. */
  function Iterated(f: string -> string, k: nat, s: string): string {
    if k == 0 then s else f(Iterated(f, k - 1, s))
  }

  lemma {:induction false} PlaceRepeated(f: string -> string, k: nat, c: Cell, i: nat, path: seq<nat>, s: string)
    requires PlaceAt(c, i, path) == Some(Str(s))
    ensures PlaceAt(Times(f, k, c), i, path) == Some(Str(Iterated(f, k, s)))
  {
    if k > 0 {
      PlaceRepeated(f, k - 1, c, i, path, s);
      PlaceReplaced(f, Times(f, k - 1, c), i, path, Iterated(f, k - 1, s));
    }
  }

  /** After the walk, every string at a settable place of every cell is what the function makes of it, applied once for each
      path to the cell. */
  lemma WalkReplaces(f: string -> string, st: Store, rank: Addr -> nat, v: Val, settable: bool, n: nat, a: Addr, i: nat, path: seq<nat>, s: string)
    requires Acyclic(st, rank) && Below(st, rank, Refs(v), n) && a in st && PlaceAt(st[a], i, path) == Some(Str(s))
    ensures PlaceAt(WalkVal(f, st, rank, v, settable, n).0[a], i, path)
         == Some(Str(Iterated(f, Paths(st, rank, Refs(v), a, n), s)))
  {
    WalkValCounts(f, st, rank, v, settable, n);
    PlaceRepeated(f, Paths(st, rank, Refs(v), a, n), st[a], i, path, s);
  }

  /** And so it is for the strings stored in the value itself. */
  lemma WalkReplacesInline(f: string -> string, st: Store, rank: Addr -> nat, v: Val, n: nat, path: seq<nat>, s: string)
    requires Acyclic(st, rank) && Below(st, rank, Refs(v), n) && FieldAt(v, path) == Some(Str(s))
    ensures FieldAt(WalkVal(f, st, rank, v, true, n).1, path) == Some(Str(f(s)))
  {
    WalkValCounts(f, st, rank, v, true, n);
    FieldReplaced(f, v, path, s);
  }

  /** Expanding in place is the pure map over everything reached when the function is idempotent on the strings
      of the cells that are reached more than once. */
  lemma WalkIsMap(f: string -> string, st: Store, rank: Addr -> nat, v: Val, settable: bool, n: nat)
    requires Acyclic(st, rank) && Below(st, rank, Refs(v), n)
    requires forall a :: a in st && Paths(st, rank, Refs(v), a, n) > 1 ==> IdempotentOn(f, StringsCell(st[a]))
    ensures WalksAsMap(f, st, rank, v, settable, n)
  {
    WalksAsMapIff(f, st, rank, v, settable, n);
    forall a | a in st && a in Reached(st, rank, Refs(v), n)
      ensures Times(f, Paths(st, rank, Refs(v), a, n), st[a]) == MapCell(f, st[a])
    {
      if Paths(st, rank, Refs(v), a, n) > 1 { IdempotentStable(f, st[a]); }
      StableTimes(f, Paths(st, rank, Refs(v), a, n), st[a]);
    }
  }

  /** The walk is the pure map on every heap exactly when the function is idempotent. */
  lemma WalkIsMapIffIdempotent(f: string -> string)
    ensures Idempotent(f) <==>
            forall st: Store, rank: Addr -> nat, v: Val, settable: bool, n: nat ::
              Acyclic(st, rank) && Below(st, rank, Refs(v), n) ==> WalksAsMap(f, st, rank, v, settable, n)
  {
    if Idempotent(f) {
      forall st: Store, rank: Addr -> nat, v: Val, settable: bool, n: nat | Acyclic(st, rank) && Below(st, rank, Refs(v), n)
        ensures WalksAsMap(f, st, rank, v, settable, n)
      {
        WalkIsMap(f, st, rank, v, settable, n);
      }
    } else {
      var s :| f(f(s)) != f(s);
      SharedTwice(f, s);
    }
  }

  function OneCell(s: string): Store { map[0 := Target(Str(s))] }

  function BothPointers(): Val { Struct([Ref(0)] + [Ref(0)]) }

  lemma TwoPaths(s: string, rank: Addr -> nat)
    requires rank(0) == 0
    ensures Acyclic(OneCell(s), rank) && Refs(BothPointers()) == [0, 0] && Below(OneCell(s), rank, Refs(BothPointers()), 1)
    ensures Paths(OneCell(s), rank, Refs(BothPointers()), 0, 1) == 2
  {
    var fields := [Ref(0)] + [Ref(0)];
    assert fields[1..] == [Ref(0)] && [Ref(0)][1..] == [];
    assert RefsSeq([Ref(0)]) == [0] + RefsSeq([]);
    assert RefsSeq(fields) == [0] + RefsSeq(fields[1..]);
    var st := OneCell(s);
    assert RefsCell(st[0]) == [];
    assert PathsFrom(st, rank, 0, 0) == 1;
    assert [0, 0][1..] == [0] && [0][1..] == [];
    assert Paths(st, rank, [0], 0, 1) == 1;
  }

  /** A cell reached along two paths gets the function twice. */
  lemma SharedTwice(f: string -> string, s: string)
    requires f(f(s)) != f(s)
    ensures exists st: Store, rank: Addr -> nat, v: Val, settable: bool, n: nat ::
              Acyclic(st, rank) && Below(st, rank, Refs(v), n) && !WalksAsMap(f, st, rank, v, settable, n)
  {
    var rank: Addr -> nat := a => 0;
    var c := Target(Str(s));
    TwoPaths(s, rank);
    WalksAsMapIff(f, OneCell(s), rank, BothPointers(), true, 1);
    assert Times(f, 1, c) == MapCell(f, Times(f, 0, c)) == Target(Str(f(s)));
    assert Times(f, 2, c) == Target(Str(f(f(s))));
    assert 0 in OneCell(s) && 0 in Reached(OneCell(s), rank, Refs(BothPointers()), 1);
    assert !WalksAsMap(f, OneCell(s), rank, BothPointers(), true, 1);
  }

  // --- a shallow copy in the heap ---------------------------------------------------------

  /** What `resolveRef` does for an inline reference: the value pointer gets a cell of its own, a copy of the
      inline one, sharing everything below it. */
  function CopyInline(st: Store, inline: Addr, value: Addr): Store
    requires inline in st && value !in st
  {
    st[value := st[inline]]
  }

  lemma CopyAcyclic(st: Store, rank: Addr -> nat, inline: Addr, value: Addr)
    requires Acyclic(st, rank) && inline in st && value !in st && rank(value) == rank(inline)
    ensures Acyclic(CopyInline(st, inline, value), rank)
  {
    var st' := CopyInline(st, inline, value);
    forall a | a in st' ensures Below(st', rank, RefsCell(st'[a]), rank(a)) {
      assert Below(st, rank, RefsCell(st[if a == value then inline else a]), rank(a));
    }
  }

  lemma {:induction false} PathsBeforeCopy(st: Store, rank: Addr -> nat, inline: Addr, value: Addr, refs: seq<Addr>, a: Addr, n: nat)
    requires Acyclic(st, rank) && inline in st && value !in st && rank(value) == rank(inline) && Below(st, rank, refs, n)
    requires Acyclic(CopyInline(st, inline, value), rank)
    ensures Below(CopyInline(st, inline, value), rank, refs, n)
    ensures Paths(CopyInline(st, inline, value), rank, refs, a, n) == Paths(st, rank, refs, a, n)
    decreases n, |refs|
  {
    if refs != [] {
      assert Below(st, rank, RefsCell(st[refs[0]]), rank(refs[0]));
      PathsBeforeCopy(st, rank, inline, value, RefsCell(st[refs[0]]), a, rank(refs[0]));
      PathsBeforeCopy(st, rank, inline, value, refs[1..], a, n);
    }
  }

  /** Paths from below the inline cell to `b`. */
  function Shared(st: Store, rank: Addr -> nat, inline: Addr, b: Addr): nat
    requires Acyclic(st, rank) && inline in st
  {
    assert Below(st, rank, RefsCell(st[inline]), rank(inline));
    Paths(st, rank, RefsCell(st[inline]), b, rank(inline))
  }

  /** Seen from either of the two cells, the copy adds no paths to what they share. */
  lemma PathsFromCopy(st: Store, rank: Addr -> nat, inline: Addr, value: Addr, from: Addr, b: Addr)
    requires Acyclic(st, rank) && inline in st && value !in st && rank(value) == rank(inline) && from in {inline, value}
    requires Acyclic(CopyInline(st, inline, value), rank) && b in CopyInline(st, inline, value)
    ensures PathsFrom(CopyInline(st, inline, value), rank, from, b) ==
              if b in {inline, value} then (if b == from then 1 else 0) else Shared(st, rank, inline, b)
  {
    var refs, n := RefsCell(st[inline]), rank(inline);
    assert Below(st, rank, refs, n);
    PathsBeforeCopy(st, rank, inline, value, refs, b, n);
    if b in {inline, value} { NoPathUp(st, rank, refs, b, n); }
  }

  /** Both walks together: each of the two cells is reached once, and what they share twice as often as from one of them. */
  lemma CopyCounts(st: Store, st': Store, rank: Addr -> nat, inline: Addr, value: Addr)
    requires Acyclic(st, rank) && inline in st && value !in st && rank(value) == rank(inline)
    requires st' == CopyInline(st, inline, value) && Acyclic(st', rank)
    ensures var both := Plus(CountedFrom(st', rank, value), CountedFrom(st', rank, inline));
            both[inline] == both[value] == 1 &&
            forall b :: b in st && b != inline ==> both[b] == 2 * Shared(st, rank, inline, b)
  {
    forall b | b in st'
      ensures PathsFrom(st', rank, value, b) + PathsFrom(st', rank, inline, b) ==
                if b in {inline, value} then 1 else 2 * Shared(st, rank, inline, b)
    {
      PathsFromCopy(st, rank, inline, value, value, b);
      PathsFromCopy(st, rank, inline, value, inline, b);
    }
  }

  /** What the walk over the value's pointer and then the inline one leaves: the two cells mapped once each, and what they
      share mapped twice as often as one of them reaches it. */
  lemma WalkBothCopies(f: string -> string, st: Store, rank: Addr -> nat, inline: Addr, value: Addr)
    requires Acyclic(st, rank) && inline in st && value !in st && rank(value) == rank(inline)
    ensures Acyclic(CopyInline(st, inline, value), rank)
    ensures var st1 := WalkCell(f, CopyInline(st, inline, value), rank, value);
            Acyclic(st1, rank) && inline in st1 &&
            BothWalked(f, st, rank, inline, value, WalkCell(f, st1, rank, inline))
  {
    CopyAcyclic(st, rank, inline, value);
    var st' := CopyInline(st, inline, value);
    BothCounts(f, st', rank, value, inline);
    CopyCounts(st, st', rank, inline, value);
    CountsGiveBoth(f, st, rank, inline, value, Plus(CountedFrom(st', rank, value), CountedFrom(st', rank, inline)));
  }

  lemma CountsGiveBoth(f: string -> string, st: Store, rank: Addr -> nat, inline: Addr, value: Addr, both: Counts)
    requires Acyclic(st, rank) && inline in st && value !in st && both.Keys == st.Keys + {value}
    requires both[inline] == both[value] == 1 && forall b :: b in st && b != inline ==> both[b] == 2 * Shared(st, rank, inline, b)
    ensures BothWalked(f, st, rank, inline, value, Repeat(f, CopyInline(st, inline, value), both))
  {
    OnceMapped(f, st[inline]);
  }

  /** Two walks, one after the other, map every cell as often as both reach it. */
  lemma BothCounts(f: string -> string, st: Store, rank: Addr -> nat, first: Addr, second: Addr)
    requires Acyclic(st, rank) && first in st && second in st
    ensures var st1 := WalkCell(f, st, rank, first);
            Acyclic(st1, rank) &&
            WalkCell(f, st1, rank, second) == Repeat(f, st, Plus(CountedFrom(st, rank, first), CountedFrom(st, rank, second)))
  {
    var st1 := WalkCell(f, st, rank, first);
    SameRefsAcyclic(st, st1, rank);
    WalkCellCounts(f, st, rank, first);
    WalkCellCounts(f, st1, rank, second);
    CountedFromSame(st, st1, rank, second);
    RepeatTwice(f, st, CountedFrom(st, rank, first), CountedFrom(st, rank, second));
  }

  predicate BothWalked(f: string -> string, st: Store, rank: Addr -> nat, inline: Addr, value: Addr, st2: Store)
    requires Acyclic(st, rank) && inline in st
  {
    st2.Keys == st.Keys + {value} &&
    forall b :: b in st2 ==>
      st2[b] == if b in {inline, value} then MapCell(f, st[inline]) else Times(f, 2 * Shared(st, rank, inline, b), st[b])
  }

  /** One walk from the inline cell: it is mapped once, the rest once a path. */
  lemma WalkInline(f: string -> string, st: Store, rank: Addr -> nat, inline: Addr)
    requires Acyclic(st, rank) && inline in st
    ensures var once := WalkCell(f, st, rank, inline);
            once.Keys == st.Keys && once[inline] == MapCell(f, st[inline]) &&
            forall b :: b in st && b != inline ==> once[b] == Times(f, Shared(st, rank, inline, b), st[b])
  {
    WalkCellCounts(f, st, rank, inline);
    InlineCounts(st, rank, inline);
    OnceMapped(f, st[inline]);
  }

  lemma InlineCounts(st: Store, rank: Addr -> nat, inline: Addr)
    requires Acyclic(st, rank) && inline in st
    ensures var p := CountedFrom(st, rank, inline);
            p[inline] == 1 && forall b :: b in st && b != inline ==> p[b] == Shared(st, rank, inline, b)
  {
    assert Below(st, rank, RefsCell(st[inline]), rank(inline));
    NoPathUp(st, rank, RefsCell(st[inline]), inline, rank(inline));
  }

  /** The walk sees the value and the inline copy, one after the other. The result is what copying the already walked
      inline cell would have given exactly when, for every cell they share, mapping it twice as often changes nothing. */
  lemma WalkAfterCopyIff(f: string -> string, st: Store, rank: Addr -> nat, inline: Addr, value: Addr)
    requires Acyclic(st, rank) && inline in st && value !in st && rank(value) == rank(inline)
    ensures Acyclic(CopyInline(st, inline, value), rank)
    ensures var st1 := WalkCell(f, CopyInline(st, inline, value), rank, value);
            Acyclic(st1, rank) && inline in st1 &&
            (WalkCell(f, st1, rank, inline) == CopyInline(WalkCell(f, st, rank, inline), inline, value) <==>
               forall b :: b in st && b != inline ==>
                 Times(f, 2 * Shared(st, rank, inline, b), st[b]) == Times(f, Shared(st, rank, inline, b), st[b]))
  {
    WalkBothCopies(f, st, rank, inline, value);
    WalkInline(f, st, rank, inline);
    var st2 := WalkCell(f, WalkCell(f, CopyInline(st, inline, value), rank, value), rank, inline);
    SameCopies(st2, WalkCell(f, st, rank, inline), inline, value);
  }

  lemma SameCopies(both: Store, once: Store, inline: Addr, value: Addr)
    requires inline in once && value !in once && both.Keys == once.Keys + {value} && both[inline] == both[value] == once[inline]
    ensures both == CopyInline(once, inline, value) <==> forall b :: b in once && b != inline ==> both[b] == once[b]
  {
    var copied := CopyInline(once, inline, value);
    assert forall b :: b in once ==> copied[b] == once[b];
    if both == copied {
      forall b | b in once && b != inline ensures both[b] == once[b] { assert copied[b] == once[b]; }
    } else if forall b :: b in once && b != inline ==> both[b] == once[b] {
      assert forall b :: b in both ==> both[b] == copied[b];
    }
  }

  /** So it is when the shared cells are stable. */
  lemma WalkAfterCopy(f: string -> string, st: Store, rank: Addr -> nat, inline: Addr, value: Addr)
    requires Acyclic(st, rank) && inline in st && value !in st && rank(value) == rank(inline)
    requires forall b :: b in st && Shared(st, rank, inline, b) > 0 ==> Stable(f, st[b])
    ensures Acyclic(CopyInline(st, inline, value), rank)
    ensures var st1 := WalkCell(f, CopyInline(st, inline, value), rank, value);
            Acyclic(st1, rank) && inline in st1 &&
            WalkCell(f, st1, rank, inline) == CopyInline(WalkCell(f, st, rank, inline), inline, value)
  {
    WalkAfterCopyIff(f, st, rank, inline, value);
    forall b | b in st && b != inline
      ensures Times(f, 2 * Shared(st, rank, inline, b), st[b]) == Times(f, Shared(st, rank, inline, b), st[b])
    {
      var k := Shared(st, rank, inline, b);
      if k > 0 {
        StableTimes(f, k, st[b]);
        StableTimes(f, 2 * k, st[b]);
      }
    }
  }

  // --- the walk in place -----------------------------------------------------------------

  /** With `done` walked, `rest` still to walk and the store at `st`, the walk will end in `end`. */
  ghost predicate SeqLeft(f: string -> string, rank: Addr -> nat, settable: bool, n: nat,
                          end: (Store, seq<Val>), done: seq<Val>, st: Store, rest: seq<Val>) {
    Acyclic(st, rank) && Below(st, rank, RefsSeq(rest), n) &&
    var r := WalkSeq(f, st, rank, rest, settable, n);
    end.0 == r.0 && end.1 == done + r.1
  }

  lemma SeqStep(f: string -> string, rank: Addr -> nat, settable: bool, n: nat,
                end: (Store, seq<Val>), done: seq<Val>, st: Store, rest: seq<Val>)
    requires SeqLeft(f, rank, settable, n, end, done, st, rest) && rest != []
    ensures Below(st, rank, Refs(rest[0]), n)
    ensures var first := WalkVal(f, st, rank, rest[0], settable, n);
            SeqLeft(f, rank, settable, n, end, done + [first.1], first.0, rest[1..])
  {
    WalkSeqHead(f, st, rank, rest, settable, n);
    var first := WalkVal(f, st, rank, rest[0], settable, n);
    Reassociate(done, [first.1], WalkSeq(f, first.0, rank, rest[1..], settable, n).1);
  }

  ghost predicate EntriesLeft(f: string -> string, rank: Addr -> nat, n: nat,
                              end: (Store, seq<(string, Val)>), done: seq<(string, Val)>, st: Store, rest: seq<(string, Val)>) {
    Acyclic(st, rank) && Below(st, rank, RefsEntries(rest), n) &&
    var r := WalkEntries(f, st, rank, rest, n);
    end.0 == r.0 && end.1 == done + r.1
  }

  lemma EntriesStep(f: string -> string, rank: Addr -> nat, n: nat,
                    end: (Store, seq<(string, Val)>), done: seq<(string, Val)>, st: Store, rest: seq<(string, Val)>)
    requires EntriesLeft(f, rank, n, end, done, st, rest) && rest != []
    ensures Below(st, rank, Refs(Content(rest[0].1)), n)
    ensures var first := WalkVal(f, st, rank, Content(rest[0].1), true, n);
            EntriesLeft(f, rank, n, end, done + [(rest[0].0, Rewrapped(rest[0].1, first.1))], first.0, rest[1..])
  {
    WalkEntriesHead(f, st, rank, rest, n);
    var first := WalkVal(f, st, rank, Content(rest[0].1), true, n);
    Reassociate(done, [(rest[0].0, Rewrapped(rest[0].1, first.1))], WalkEntries(f, first.0, rank, rest[1..], n).1);
  }

  /** The heap of a loaded manifest. The walk changes it cell by cell, each step seeing what the steps before
      it wrote. */
  class Heap {
    var cells: Store

    constructor (cells: Store)
      ensures this.cells == cells
    {
      this.cells := cells;
    }

    /** `walkStrings`: strings and what is inline come back as the value to store; the rest changes in place. */
    method WalkStrings(f: string -> string, ghost rank: Addr -> nat, v: Val, settable: bool, ghost n: nat) returns (w: Val)
      requires Acyclic(cells, rank) && Below(cells, rank, Refs(v), n)
      modifies this
      ensures (cells, w) == old(WalkVal(f, cells, rank, v, settable, n))
      decreases n, 0, v, 1
    {
      w := v;
      match v
      case Str(s) => if settable { w := Str(f(s)); }
      case Ref(a) => WalkTarget(f, rank, a);
      case Iface(u) => { var x := WalkStrings(f, rank, u, false, n); w := Iface(x); }
      case Struct(fields) => { var xs := WalkElements(f, rank, fields, settable, n); w := Struct(xs); }
      case _ =>
    }

    method WalkElements(f: string -> string, ghost rank: Addr -> nat, vs: seq<Val>, settable: bool, ghost n: nat) returns (ws: seq<Val>)
      requires Acyclic(cells, rank) && Below(cells, rank, RefsSeq(vs), n)
      modifies this
      ensures (cells, ws) == old(WalkSeq(f, cells, rank, vs, settable, n))
      decreases n, 0, vs, 0
    {
      ws := [];
      ghost var end := WalkSeq(f, cells, rank, vs, settable, n);
      var rest := vs;
      while rest != []
        invariant |rest| <= |vs| && rest == vs[|vs| - |rest|..]
        invariant SeqLeft(f, rank, settable, n, end, ws, cells, rest)
        decreases |rest|
      {
        SeqStep(f, rank, settable, n, end, ws, cells, rest);
        var w := WalkStrings(f, rank, rest[0], settable, n);
        ws, rest := ws + [w], rest[1..];
      }
      assert ws + [] == ws;
    }

    /** The cell a pointer, a slice or a map refers to. */
    method WalkTarget(f: string -> string, ghost rank: Addr -> nat, a: Addr)
      requires Acyclic(cells, rank) && a in cells
      modifies this
      ensures cells == old(WalkCell(f, cells, rank, a))
      decreases rank(a), 2
    {
      assert Below(cells, rank, RefsCell(cells[a]), rank(a));
      match cells[a]
      case Target(v) => { var w := WalkStrings(f, rank, v, true, rank(a)); cells := cells[a := Target(w)]; }
      case Backing(elems) => { var ws := WalkElements(f, rank, elems, true, rank(a)); cells := cells[a := Backing(ws)]; }
      case Table(entries) => { var es := TransformMap(f, rank, entries, rank(a)); cells := cells[a := Table(es)]; }
    }

    /** The map case with `transformMapValue`: each value is copied out, walked and put back. */
    method TransformMap(f: string -> string, ghost rank: Addr -> nat, es: seq<(string, Val)>, ghost n: nat) returns (updated: seq<(string, Val)>)
      requires Acyclic(cells, rank) && Below(cells, rank, RefsEntries(es), n)
      modifies this
      ensures (cells, updated) == old(WalkEntries(f, cells, rank, es, n))
      decreases n, 1, es
    {
      updated := [];
      ghost var end := WalkEntries(f, cells, rank, es, n);
      var rest := es;
      while rest != []
        invariant EntriesLeft(f, rank, n, end, updated, cells, rest)
        decreases |rest|
      {
        EntriesStep(f, rank, n, end, updated, cells, rest);
        var v := rest[0].1;
        var w := WalkStrings(f, rank, Content(v), true, n);
        updated, rest := updated + [(rest[0].0, Rewrapped(v, w))], rest[1..];
      }
      assert updated + [] == updated;
    }
  }
}
