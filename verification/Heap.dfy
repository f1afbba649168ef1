/** The evaluator's memory as a typed heap: every value carries its own shape,
    a bitwise copy of a value copies the pointers in it, and a block is named
    by its allocation number (0 is the null pointer).

    The module defines who owns what: the handles a value holds, the handles
    stored inside live blocks, and the number of owners each block must have. */
module Heaps {

  datatype Slot = Slot(block: nat, path: seq<nat>)

  datatype Value =
    | VUnit
    | VInt(n: int)
    | VStr(data: nat)
    | VSlice(data: nat)
    | VCell(cell: nat)
    | VRef(slot: Slot)
    | VRecord(fields: seq<Value>)
    | VEnum(tag: nat, payload: seq<Value>)

  datatype Block =
    | Data(bytes: seq<nat>, fixed: bool)
    | Elems(vals: seq<Value>)
    | CellBox(count: nat, val: Value)
    | Storage(val: Value, owned: bool)
    | Freed

  type Heap = seq<Block>

  datatype Res<+T> = Ok(value: T) | Err(message: string)

  /** One owning pointer, with the kind of block it must point at. */
  datatype Handle = StrH(at: nat) | SliceH(at: nat) | CellH(at: nat)

  // ---------------------------------------------------------------
  // ownership
  // ---------------------------------------------------------------

  /** The owning pointers in the words of `v` itself. */
  function Owners(v: Value): multiset<Handle> {
    match v
    case VStr(a) => if a == 0 then multiset{} else multiset{StrH(a)}
    case VSlice(a) => if a == 0 then multiset{} else multiset{SliceH(a)}
    case VCell(a) => if a == 0 then multiset{} else multiset{CellH(a)}
    case VRecord(fs) => OwnersAll(fs)
    case VEnum(_, fs) => OwnersAll(fs)
    case _ => multiset{}
  }

  function OwnersAll(vs: seq<Value>): multiset<Handle> {
    if vs == [] then multiset{} else Owners(vs[0]) + OwnersAll(vs[1..])
  }

  /** The owning pointers stored inside a block. A local's drop flag is kept
      with its storage: while it is clear, what is stored there is dead bits. */
  function Content(b: Block): multiset<Handle> {
    match b
    case Elems(vs) => OwnersAll(vs)
    case CellBox(_, v) => Owners(v)
    case Storage(v, owned) => if owned then Owners(v) else multiset{}
    case _ => multiset{}
  }

  /** How often `x` is stored in the blocks outside `busy`, the blocks that are
      being taken apart or put together and so own nothing at the moment. */
  function Held(h: Heap, busy: set<nat>, x: Handle): nat {
    if h == [] then 0
    else Held(h[..|h| - 1], busy, x) + (if |h| in busy then 0 else Content(h[|h| - 1])[x])
  }

  /** How many owners the block behind `x` must have: one for a string or
      slice, none while it is busy; for a cell, what its count says. */
  function Refs(h: Heap, busy: set<nat>, x: Handle): nat {
    if x.at == 0 || x.at > |h| || (x.at in busy && !x.CellH?) then 0 else Wanted(h[x.at - 1], x)
  }

  function Wanted(b: Block, x: Handle): nat {
    match x
    case StrH(_) => if b.Data? && !b.fixed then 1 else 0
    case SliceH(_) => if b.Elems? then 1 else 0
    case CellH(_) => Count(b)
  }

  function Count(b: Block): nat {
    if b.CellBox? then b.count else 0
  }

  /** Blocks that are there in their own right: a local's storage belongs to
      its frame, and a cell may be kept alive by a cycle. */
  predicate Pinned(b: Block) {
    b.CellBox? || b.Storage?
  }

  ghost predicate Balanced(h: Heap, busy: set<nat>, roots: multiset<Handle>) {
    forall x: Handle :: Held(h, busy, x) + roots[x] == Refs(h, busy, x)
  }

  ghost predicate Counted(h: Heap, busy: set<nat>) {
    forall i :: 0 <= i < |h| && i + 1 !in busy && h[i].CellBox? ==> h[i].count > 0
  }

  /** A live block that somebody has to own. */
  predicate Owned(b: Block) {
    b.Elems? || b.CellBox? || (b.Data? && !b.fixed)
  }

  /** `s` holds every root, every pinned block, and what its own blocks hold. */
  ghost predicate Closed(h: Heap, busy: set<nat>, roots: multiset<Handle>, s: set<nat>) {
    && (forall x :: x in roots ==> x.at in s)
    && (forall i :: 0 <= i < |h| && i + 1 !in busy && Pinned(h[i]) ==> i + 1 in s)
    && (forall i, x :: 0 <= i < |h| && i + 1 !in busy && i + 1 in s && x in Content(h[i]) ==> x.at in s)
  }

  /** Every live block outside `busy` is in `s`. */
  ghost predicate Covered(h: Heap, busy: set<nat>, s: set<nat>) {
    forall i :: 0 <= i < |h| && i + 1 !in busy && Owned(h[i]) ==> i + 1 in s
  }

  /** Every live block is reached from the roots, a local or a cell: the only
      storage that can leak is storage kept alive by a cell. */
  ghost predicate NoGarbage(h: Heap, busy: set<nat>, roots: multiset<Handle>) {
    forall s :: Closed(h, busy, roots, s) ==> Covered(h, busy, s)
  }

  /** The ownership invariant: each live string or slice block has exactly one
      owner, each cell's count is the number of its owners, nothing owns a
      freed block, a constant or a local's storage, and nothing is lost. */
  ghost predicate Sound(h: Heap, busy: set<nat>, roots: multiset<Handle>) {
    && Balanced(h, busy, roots)
    && Counted(h, busy)
    && NoGarbage(h, busy, roots)
  }

  /** What the invariant says of one block: a live string or slice has exactly one
      owner, anywhere, and of the right kind; a cell has as many as its count; a
      freed block, a constant or a local's storage has none. */
  lemma OwnersOf(h: Heap, roots: multiset<Handle>, a: nat)
    requires Sound(h, {}, roots) && 0 < a <= |h|
    ensures Held(h, {}, StrH(a)) + roots[StrH(a)] == if h[a - 1].Data? && !h[a - 1].fixed then 1 else 0
    ensures Held(h, {}, SliceH(a)) + roots[SliceH(a)] == if h[a - 1].Elems? then 1 else 0
    ensures Held(h, {}, CellH(a)) + roots[CellH(a)] == if h[a - 1].CellBox? then h[a - 1].count else 0
    ensures h[a - 1].CellBox? ==> h[a - 1].count > 0
  {
    hide Held;
    assert Held(h, {}, StrH(a)) + roots[StrH(a)] == Refs(h, {}, StrH(a));
    assert Held(h, {}, SliceH(a)) + roots[SliceH(a)] == Refs(h, {}, SliceH(a));
    assert Held(h, {}, CellH(a)) + roots[CellH(a)] == Refs(h, {}, CellH(a));
    assert a - 1 + 1 !in {};
  }

  /** A heap leaves no choice of who the owners outside it are. */
  lemma RootsUnique(h: Heap, busy: set<nat>, roots: multiset<Handle>, roots': multiset<Handle>)
    requires Balanced(h, busy, roots) && Balanced(h, busy, roots')
    ensures roots == roots'
  {
    forall x: Handle ensures roots[x] == roots'[x] {
      assert Held(h, busy, x) + roots[x] == Refs(h, busy, x);
      assert Held(h, busy, x) + roots'[x] == Refs(h, busy, x);
    }
  }

  // ---------------------------------------------------------------
  // sums of owners
  // ---------------------------------------------------------------

  lemma {:induction false} OwnersAllConcat(a: seq<Value>, b: seq<Value>)
    ensures OwnersAll(a + b) == OwnersAll(a) + OwnersAll(b)
  {
    if a == [] {
      assert a + b == b;
    } else {
      assert (a + b)[1..] == a[1..] + b;
      OwnersAllConcat(a[1..], b);
    }
  }

  lemma OwnersAllSingle(v: Value)
    ensures OwnersAll([v]) == Owners(v)
  {
    assert [v][1..] == [];
  }

  lemma OwnersAllUpdate(vs: seq<Value>, i: nat, w: Value)
    requires i < |vs|
    ensures OwnersAll(vs[i := w]) + Owners(vs[i]) == OwnersAll(vs) + Owners(w)
    ensures Owners(vs[i]) <= OwnersAll(vs)
  {
    var a, b := vs[..i], vs[i + 1..];
    assert vs == a + ([vs[i]] + b);
    assert vs[i := w] == a + ([w] + b);
    OwnersAllConcat(a, [vs[i]] + b);
    OwnersAllConcat([vs[i]], b);
    OwnersAllConcat(a, [w] + b);
    OwnersAllConcat([w], b);
    OwnersAllSingle(vs[i]);
    OwnersAllSingle(w);
  }

  lemma {:induction false} HeldUpdate(h: Heap, busy: set<nat>, i: nat, b: Block, x: Handle)
    requires i < |h|
    ensures Held(h[i := b], busy, x) + (if i + 1 in busy then 0 else Content(h[i])[x])
         == Held(h, busy, x) + (if i + 1 in busy then 0 else Content(b)[x])
  {
    hide Content;
    var n := |h| - 1;
    if i == n {
      assert h[i := b][..n] == h[..n];
    } else {
      assert h[i := b][..n] == h[..n][i := b];
      HeldUpdate(h[..n], busy, i, b, x);
    }
  }

  lemma {:induction false} HeldBusy(h: Heap, busy: set<nat>, a: nat, x: Handle)
    requires a !in busy
    ensures Held(h, busy + {a}, x) + (if 0 < a <= |h| then Content(h[a - 1])[x] else 0) == Held(h, busy, x)
  {
    if h != [] {
      HeldBusy(h[..|h| - 1], busy, a, x);
    }
  }

  lemma HeldAppend(h: Heap, busy: set<nat>, b: Block, x: Handle)
    ensures Held(h + [b], busy, x) == Held(h, busy, x) + (if |h| + 1 in busy then 0 else Content(b)[x])
  {
    assert (h + [b])[..|h|] == h;
  }

  lemma {:induction false} HeldAt(h: Heap, busy: set<nat>, i: nat, x: Handle)
    requires i < |h| && i + 1 !in busy
    ensures Content(h[i])[x] <= Held(h, busy, x)
  {
    if i < |h| - 1 {
      HeldAt(h[..|h| - 1], busy, i, x);
    }
  }

  // ---------------------------------------------------------------
  // the elementary moves: every heap operation is made of these
  // ---------------------------------------------------------------

  predicate Fitting(x: Handle, b: Block) {
    match x
    case StrH(_) => b.Data? && !b.fixed
    case SliceH(_) => b.Elems?
    case CellH(_) => b.CellBox?
  }

  /** What a root points at is live and of the right kind; a string or slice
      with an owner is not busy. */
  lemma RootLive(h: Heap, busy: set<nat>, roots: multiset<Handle>, x: Handle)
    requires Balanced(h, busy, roots) && (x in roots || Held(h, busy, x) > 0)
    ensures 0 < x.at <= |h| && Fitting(x, h[x.at - 1])
    ensures !x.CellH? ==> x.at !in busy
    ensures x.CellH? ==> h[x.at - 1].count > 0
  {
    assert Refs(h, busy, x) > 0;
  }

  lemma SoundLive(h: Heap, busy: set<nat>, roots: multiset<Handle>, x: Handle)
    requires Sound(h, busy, roots) && x in roots
    ensures 0 < x.at <= |h| && Fitting(x, h[x.at - 1])
    ensures !x.CellH? ==> x.at !in busy
    ensures x.CellH? ==> h[x.at - 1].count > 0
  {
    RootLive(h, busy, roots, x);
  }

  /** Opening a string or slice: its owner gives way to its contents. */
  lemma Tear(h: Heap, busy: set<nat>, roots: multiset<Handle>, x: Handle)
    requires Sound(h, busy, roots) && x in roots && !x.CellH?
    ensures 0 < x.at <= |h| && x.at !in busy && Fitting(x, h[x.at - 1])
    ensures Sound(h, busy + {x.at}, roots - multiset{x} + Content(h[x.at - 1]))
  {
    hide Held;
    RootLive(h, busy, roots, x);
    var a := x.at;
    var roots' := roots - multiset{x} + Content(h[a - 1]);
    forall y: Handle ensures Held(h, busy + {a}, y) + roots'[y] == Refs(h, busy + {a}, y) {
      HeldBusy(h, busy, a, y);
      assert Held(h, busy, y) + roots[y] == Refs(h, busy, y);
    }
    assert forall y :: y in roots ==> y == x || y in roots';
    OpenGarbage(h, busy, roots, a, roots');
  }

  /** Opening a local's storage or a cell: its contents become roots. */
  lemma Open(h: Heap, busy: set<nat>, roots: multiset<Handle>, a: nat)
    requires Sound(h, busy, roots) && 0 < a <= |h| && a !in busy && Pinned(h[a - 1])
    ensures Sound(h, busy + {a}, roots + Content(h[a - 1]))
  {
    hide Held;
    var roots' := roots + Content(h[a - 1]);
    forall y: Handle ensures Held(h, busy + {a}, y) + roots'[y] == Refs(h, busy + {a}, y) {
      HeldBusy(h, busy, a, y);
      assert Held(h, busy, y) + roots[y] == Refs(h, busy, y);
    }
    assert forall y :: y in roots ==> y in roots';
    OpenGarbage(h, busy, roots, a, roots');
  }

  lemma OpenGarbage(h: Heap, busy: set<nat>, roots: multiset<Handle>, a: nat, roots': multiset<Handle>)
    requires NoGarbage(h, busy, roots) && 0 < a <= |h|
    requires forall y :: y in roots ==> y.at == a || y in roots'
    requires Content(h[a - 1]) <= roots'
    ensures NoGarbage(h, busy + {a}, roots')
  {
    forall s | Closed(h, busy + {a}, roots', s) ensures Covered(h, busy + {a}, s) {
      var t := s + {a};
      assert forall y :: y in Content(h[a - 1]) ==> y in roots';
      assert Closed(h, busy, roots, t);
    }
  }

  /** Closing a finished string or slice: its contents give way to one owner. */
  lemma Mend(h: Heap, busy: set<nat>, roots: multiset<Handle>, x: Handle)
    requires Sound(h, busy, roots) && x.at in busy && !x.CellH?
    requires 0 < x.at <= |h| && Fitting(x, h[x.at - 1])
    requires Content(h[x.at - 1]) <= roots
    ensures Sound(h, busy - {x.at}, roots - Content(h[x.at - 1]) + multiset{x})
  {
    hide Held;
    var a := x.at;
    var busy' := busy - {a};
    var roots' := roots - Content(h[a - 1]) + multiset{x};
    assert busy' + {a} == busy;
    forall y: Handle ensures Held(h, busy', y) + roots'[y] == Refs(h, busy', y) {
      HeldBusy(h, busy', a, y);
      assert Held(h, busy, y) + roots[y] == Refs(h, busy, y);
    }
    assert x in roots';
    ShutGarbage(h, busy, roots, x, roots');
  }

  lemma MendTo(h: Heap, busy: set<nat>, rest: multiset<Handle>, x: Handle)
    requires x.at !in busy && !x.CellH? && 0 < x.at <= |h| && Fitting(x, h[x.at - 1])
    requires Sound(h, busy + {x.at}, rest + Content(h[x.at - 1]))
    ensures Sound(h, busy, rest + multiset{x})
  {
    hide Sound, Content;
    var c := Content(h[x.at - 1]);
    Mend(h, busy + {x.at}, rest + c, x);
    assert busy + {x.at} - {x.at} == busy;
    assert rest + c - c == rest;
  }

  /** Closing a local's storage or a cell: its contents leave the roots. */
  lemma Shut(h: Heap, busy: set<nat>, roots: multiset<Handle>, a: nat)
    requires Sound(h, busy, roots) && a in busy && 0 < a <= |h|
    requires if h[a - 1].CellBox? then h[a - 1].count > 0 else !Owned(h[a - 1])
    requires Content(h[a - 1]) <= roots
    ensures Sound(h, busy - {a}, roots - Content(h[a - 1]))
  {
    hide Held, NoGarbage, Closed, Covered;
    var busy' := busy - {a};
    var roots' := roots - Content(h[a - 1]);
    assert busy' + {a} == busy;
    forall y: Handle ensures Held(h, busy', y) + roots'[y] == Refs(h, busy', y) {
      HeldBusy(h, busy', a, y);
      assert Held(h, busy, y) + roots[y] == Refs(h, busy, y);
    }
    ShutGarbage(h, busy, roots, CellH(a), roots');
  }

  lemma ShutGarbage(h: Heap, busy: set<nat>, roots: multiset<Handle>, x: Handle, roots': multiset<Handle>)
    requires NoGarbage(h, busy, roots) && x.at in busy && 0 < x.at <= |h|
    requires forall y :: y in roots ==> y in Content(h[x.at - 1]) || y in roots'
    requires x in roots' || Pinned(h[x.at - 1]) || (Content(h[x.at - 1]) == multiset{} && !Owned(h[x.at - 1]))
    ensures NoGarbage(h, busy - {x.at}, roots')
  {
    var a := x.at;
    var busy' := busy - {a};
    forall s | Closed(h, busy', roots', s) ensures Covered(h, busy', s) {
      assert a - 1 + 1 !in busy';
      if x in roots' || Pinned(h[a - 1]) {
        assert a in s;
      }
      assert forall y :: y in Content(h[a - 1]) ==> y.at in s;
      assert Closed(h, busy, roots, s);
    }
  }

  /** Whatever happens inside a busy block stays there. */
  lemma Rewrite(h: Heap, busy: set<nat>, roots: multiset<Handle>, a: nat, b: Block)
    requires Sound(h, busy, roots) && a in busy && 0 < a <= |h| && Count(h[a - 1]) == Count(b)
    ensures Sound(h[a - 1 := b], busy, roots)
  {
    hide Held;
    var g := h[a - 1 := b];
    forall y: Handle ensures Held(g, busy, y) + roots[y] == Refs(g, busy, y) {
      HeldUpdate(h, busy, a - 1, b, y);
      assert Held(h, busy, y) + roots[y] == Refs(h, busy, y);
    }
    AgreeGarbage(h, busy, g, busy, roots);
  }

  /** Garbage freedom looks only at the blocks that are not busy. */
  lemma AgreeGarbage(h: Heap, busy: set<nat>, g: Heap, busy': set<nat>, roots: multiset<Handle>)
    requires NoGarbage(h, busy, roots)
    requires forall i :: 0 <= i < |h| && i + 1 !in busy ==> i < |g| && i + 1 !in busy' && g[i] == h[i]
    requires forall a :: 0 < a <= |g| && a !in busy' ==> a <= |h| && a !in busy
    ensures NoGarbage(g, busy', roots)
  {
    forall s | Closed(g, busy', roots, s) ensures Covered(g, busy', s) {
      assert Closed(h, busy, roots, s);
      forall i | 0 <= i < |g| && i + 1 !in busy' && Owned(g[i]) ensures i + 1 in s {
        var a := i + 1;
        assert a <= |h| && a !in busy;
      }
    }
  }

  /** A fresh block starts out busy. */
  lemma Allocate(h: Heap, busy: set<nat>, roots: multiset<Handle>, b: Block)
    requires Sound(h, busy, roots) && |h| + 1 !in busy && Count(b) == 0
    ensures Sound(h + [b], busy + {|h| + 1}, roots)
  {
    hide Held;
    var g, busy' := h + [b], busy + {|h| + 1};
    forall y: Handle ensures Held(g, busy', y) + roots[y] == Refs(g, busy', y) {
      HeldAppend(h, busy', b, y);
      HeldBusy(h, busy, |h| + 1, y);
      assert Held(h, busy, y) + roots[y] == Refs(h, busy, y);
    }
    AgreeGarbage(h, busy, g, busy', roots);
  }

  /** Raising a cell's count makes one more owner. */
  lemma Share(h: Heap, busy: set<nat>, roots: multiset<Handle>, a: nat)
    requires Sound(h, busy, roots) && 0 < a <= |h| && h[a - 1].CellBox?
    ensures Sound(h[a - 1 := CellBox(h[a - 1].count + 1, h[a - 1].val)], busy, roots + multiset{CellH(a)})
  {
    Recount(h, busy, roots, a, h[a - 1].count + 1, roots + multiset{CellH(a)});
  }

  /** Lowering a count takes one owner away; the last one may go only while
      the cell is being taken apart. */
  lemma Unshare(h: Heap, busy: set<nat>, roots: multiset<Handle>, a: nat)
    requires Sound(h, busy, roots) && CellH(a) in roots
    requires 0 < a <= |h| && h[a - 1].CellBox? && (h[a - 1].count > 1 || (h[a - 1].count == 1 && a in busy))
    ensures Sound(h[a - 1 := CellBox(h[a - 1].count - 1, h[a - 1].val)], busy, roots - multiset{CellH(a)})
  {
    Recount(h, busy, roots, a, h[a - 1].count - 1, roots - multiset{CellH(a)});
  }

  lemma Recount(h: Heap, busy: set<nat>, roots: multiset<Handle>, a: nat, count: nat, roots': multiset<Handle>)
    requires Sound(h, busy, roots) && 0 < a <= |h| && h[a - 1].CellBox? && (count > 0 || a in busy)
    requires forall y :: y != CellH(a) ==> roots'[y] == roots[y]
    requires roots'[CellH(a)] + h[a - 1].count == roots[CellH(a)] + count
    ensures Sound(h[a - 1 := CellBox(count, h[a - 1].val)], busy, roots')
  {
    RecountBalance(h, busy, roots, a, count, roots');
    RecountGarbage(h, busy, roots, a, count, roots');
  }

  lemma RecountBalance(h: Heap, busy: set<nat>, roots: multiset<Handle>, a: nat, count: nat, roots': multiset<Handle>)
    requires Balanced(h, busy, roots) && 0 < a <= |h| && h[a - 1].CellBox?
    requires forall y :: y != CellH(a) ==> roots'[y] == roots[y]
    requires roots'[CellH(a)] + h[a - 1].count == roots[CellH(a)] + count
    ensures Balanced(h[a - 1 := CellBox(count, h[a - 1].val)], busy, roots')
  {
    hide Held, Refs;
    var b := CellBox(count, h[a - 1].val);
    var g := h[a - 1 := b];
    forall y: Handle ensures Held(g, busy, y) + roots'[y] == Refs(g, busy, y) {
      HeldUpdate(h, busy, a - 1, b, y);
      assert Held(g, busy, y) == Held(h, busy, y);
      assert Held(h, busy, y) + roots[y] == Refs(h, busy, y);
      RecountRefs(h, busy, a, b, y);
    }
  }

  lemma RecountRefs(h: Heap, busy: set<nat>, a: nat, b: Block, y: Handle)
    requires 0 < a <= |h| && h[a - 1].CellBox? && b.CellBox?
    ensures y != CellH(a) ==> Refs(h[a - 1 := b], busy, y) == Refs(h, busy, y)
    ensures y == CellH(a) ==> Refs(h, busy, y) == h[a - 1].count && Refs(h[a - 1 := b], busy, y) == b.count
  {
  }

  lemma RecountGarbage(h: Heap, busy: set<nat>, roots: multiset<Handle>, a: nat, count: nat, roots': multiset<Handle>)
    requires NoGarbage(h, busy, roots) && 0 < a <= |h| && h[a - 1].CellBox?
    requires forall y :: y != CellH(a) ==> roots'[y] == roots[y]
    ensures NoGarbage(h[a - 1 := CellBox(count, h[a - 1].val)], busy, roots')
  {
    var g := h[a - 1 := CellBox(count, h[a - 1].val)];
    forall s | Closed(g, busy, roots', s) ensures Covered(g, busy, s) {
      var t := s + {a};
      RecountClosed(h, g, busy, roots, a, roots', s);
      assert Covered(h, busy, t);
      assert a !in busy ==> a in s;
    }
  }

  lemma RecountClosed(h: Heap, g: Heap, busy: set<nat>, roots: multiset<Handle>, a: nat, roots': multiset<Handle>, s: set<nat>)
    requires 0 < a <= |h| == |g| && h[a - 1].CellBox? && g[a - 1].CellBox? && g[a - 1].val == h[a - 1].val
    requires forall i :: 0 <= i < |h| && i != a - 1 ==> g[i] == h[i]
    requires forall y :: y != CellH(a) ==> roots'[y] == roots[y]
    requires Closed(g, busy, roots', s)
    ensures Closed(h, busy, roots, s + {a})
    ensures a !in busy ==> a in s
  {
    if a !in busy {
      assert Pinned(g[a - 1]) && a - 1 + 1 in s;
    }
    assert forall y :: y in roots ==> y == CellH(a) || y in roots';
    forall i, x | 0 <= i < |h| && i + 1 !in busy && i + 1 in s + {a} && x in Content(h[i]) ensures x.at in s + {a} {
      assert x in Content(g[i]);
    }
  }
}
