/** Cloning a value and dropping the copy leaves the heap as it was. */
module RoundTrips {
  import opened Heaps
  import opened DropGlue
  import opened CloneGlue

  /** The blocks among the first `n` own each other: every one of them has an
      owner among them or in `kept`. */
  ghost predicate Supported(h: Heap, n: nat, kept: multiset<Handle>)
    requires n <= |h|
  {
    forall x: Handle :: 0 < x.at <= n && Fitting(x, h[x.at - 1]) ==> Held(h[..n], {}, x) + kept[x] > 0
  }

  /** The first `n` blocks hold what they held; only counts may differ. */
  ghost predicate Kept(g: Heap, h: Heap, n: nat) {
    n <= |g| && n <= |h| &&
    forall i :: 0 <= i < n ==> g[i] == h[i] || (g[i].CellBox? && h[i].CellBox? && g[i].val == h[i].val)
  }

  lemma {:induction false} HeldKept(g: Heap, h: Heap, n: nat, x: Handle)
    requires Kept(g, h, n)
    ensures Held(g[..n], {}, x) == Held(h[..n], {}, x)
  {
    if n > 0 {
      assert g[..n][..n - 1] == g[..n - 1] && h[..n][..n - 1] == h[..n - 1];
      HeldKept(g, h, n - 1, x);
    }
  }

  lemma {:induction false} HeldFirst(h: Heap, busy: set<nat>, n: nat, x: Handle)
    requires n <= |h| && forall a :: a in busy ==> a > n
    ensures Held(h[..n], {}, x) <= Held(h, busy, x)
  {
    if n < |h| {
      assert h[..|h| - 1][..n] == h[..n];
      HeldFirst(h[..|h| - 1], busy, n, x);
    } else if n > 0 {
      assert h[..n] == h && h[..n - 1][..n - 1] == h[..n - 1];
      HeldFirst(h[..n - 1], busy, n - 1, x);
    }
  }

  lemma SupportedKept(g: Heap, h: Heap, n: nat, kept: multiset<Handle>)
    requires n <= |h| && Supported(h, n, kept) && Kept(g, h, n)
    ensures Supported(g, n, kept)
  {
    forall x: Handle | 0 < x.at <= n && Fitting(x, g[x.at - 1]) ensures Held(g[..n], {}, x) + kept[x] > 0 {
      HeldKept(g, h, n, x);
      assert Fitting(x, h[x.at - 1]);
    }
  }

  /** A handle being dropped is never the last owner of a supported block. */
  lemma NotLast(h: Heap, busy: set<nat>, roots: multiset<Handle>, kept: multiset<Handle>, n: nat, x: Handle)
    requires Sound(h, busy, roots) && Settled(h, busy) && n <= |h| && Supported(h, n, kept)
    requires (forall a :: a in busy ==> a > n) && kept + multiset{x} <= roots
    requires 0 < x.at <= n && Fitting(x, h[x.at - 1])
    ensures Refs(h, busy, x) > 1
  {
    HeldFirst(h, busy, n, x);
    assert kept[x] + 1 <= roots[x] by { assert (kept + multiset{x})[x] <= roots[x]; }
  }

  lemma {:induction false} DropKeeps(h: Heap, busy: set<nat>, roots: multiset<Handle>, v: Value, kept: multiset<Handle>, n: nat)
    requires Sound(h, busy, roots) && Settled(h, busy) && n <= |h| && Supported(h, n, kept)
    requires (forall a :: a in busy ==> a > n) && kept + Owners(v) <= roots
    ensures Drop(h, busy, v).Ok? && Kept(Drop(h, busy, v).value, h, n)
    decreases Weight(h, busy), v, 1
  {
    hide Sound, Supported;
    assert Owners(v) <= kept + Owners(v);
    DropSound(h, busy, busy, roots, v);
    match v
    case VStr(a) =>
      if a != 0 {
        SoundLive(h, busy, roots, StrH(a));
        if a <= n {
          NotLast(h, busy, roots, kept, n, StrH(a));
        }
      }
    case VSlice(a) =>
      if a != 0 {
        DropSliceKeeps(h, busy, roots, a, kept, n);
      }
    case VCell(a) =>
      if a != 0 {
        DropCellKeeps(h, busy, roots, a, kept, n);
      }
    case VRecord(fs) => DropAllKeeps(h, busy, roots, fs, kept, n);
    case VEnum(_, fs) => DropAllKeeps(h, busy, roots, fs, kept, n);
    case _ =>
  }

  lemma {:induction false} DropSliceKeeps(h: Heap, busy: set<nat>, roots: multiset<Handle>, a: nat, kept: multiset<Handle>, n: nat)
    requires Sound(h, busy, roots) && Settled(h, busy) && n <= |h| && Supported(h, n, kept) && a != 0
    requires (forall b :: b in busy ==> b > n) && kept + multiset{SliceH(a)} <= roots
    ensures Drop(h, busy, VSlice(a)).Ok? && Kept(Drop(h, busy, VSlice(a)).value, h, n)
    decreases Weight(h, busy), VSlice(a), 0
  {
    hide Sound, Supported, Weight, OwnersAll;
    assert SliceH(a) in kept + multiset{SliceH(a)};
    DropSliceSound(h, busy, busy, roots, a);
    Tear(h, busy, roots, SliceH(a));
    if a <= n {
      NotLast(h, busy, roots, kept, n, SliceH(a));
    }
    WeightBusy(h, busy, a);
    var vs := h[a - 1].vals;
    var roots' := roots - multiset{SliceH(a)} + OwnersAll(vs);
    assert kept + OwnersAll(vs) <= roots';
    DropAllKeeps(h, busy + {a}, roots', vs, kept, n);
  }

  lemma {:induction false} DropCellKeeps(h: Heap, busy: set<nat>, roots: multiset<Handle>, a: nat, kept: multiset<Handle>, n: nat)
    requires Sound(h, busy, roots) && Settled(h, busy) && n <= |h| && Supported(h, n, kept) && a != 0
    requires (forall b :: b in busy ==> b > n) && kept + multiset{CellH(a)} <= roots
    ensures Drop(h, busy, VCell(a)).Ok? && Kept(Drop(h, busy, VCell(a)).value, h, n)
    decreases Weight(h, busy), VCell(a), 0
  {
    hide Sound, Supported, Weight, Owners;
    assert CellH(a) in kept + multiset{CellH(a)};
    DropCellSound(h, busy, busy, roots, a);
    SoundLive(h, busy, roots, CellH(a));
    if a <= n {
      NotLast(h, busy, roots, kept, n, CellH(a));
    }
    if h[a - 1].count == 1 {
      var w := h[a - 1].val;
      WeightLower(h, busy, a, w);
      LowerLast(h, busy, roots, a);
      var g := h[a - 1 := CellBox(0, w)];
      WeightBusy(g, busy, a);
      var roots' := roots - multiset{CellH(a)} + Owners(w);
      assert kept + Owners(w) <= roots';
      SupportedKept(g, h, n, kept);
      DropKeeps(g, busy + {a}, roots', w, kept, n);
    }
  }

  lemma {:induction false} DropAllKeeps(h: Heap, busy: set<nat>, roots: multiset<Handle>, vs: seq<Value>, kept: multiset<Handle>, n: nat)
    requires Sound(h, busy, roots) && Settled(h, busy) && n <= |h| && Supported(h, n, kept)
    requires (forall a :: a in busy ==> a > n) && kept + OwnersAll(vs) <= roots
    ensures DropAll(h, busy, vs).Ok? && Kept(DropAll(h, busy, vs).value, h, n)
    decreases Weight(h, busy), vs, 1
  {
    hide Sound, Supported;
    if vs != [] {
      var first := Owners(vs[0]);
      assert kept + OwnersAll(vs) == kept + first + OwnersAll(vs[1..]);
      assert first <= kept + OwnersAll(vs);
      DropSound(h, busy, busy, roots, vs[0]);
      DropKeeps(h, busy, roots, vs[0], kept, n);
      var g := Drop(h, busy, vs[0]).value;
      WeightBelow(g, h, busy);
      SupportedKept(g, h, n, kept);
      assert kept + OwnersAll(vs[1..]) <= roots - first;
      DropAllKeeps(g, busy, roots - first, vs[1..], kept, n);
    }
  }

  // ---------------------------------------------------------------

  lemma SoundSupported(h: Heap, roots: multiset<Handle>)
    requires Sound(h, {}, roots)
    ensures Supported(h, |h|, roots)
  {
    assert h[..|h|] == h;
    forall x: Handle | 0 < x.at <= |h| && Fitting(x, h[x.at - 1]) ensures Held(h[..|h|], {}, x) + roots[x] > 0 {
      assert Held(h, {}, x) + roots[x] == Refs(h, {}, x);
      assert x.at - 1 + 1 !in {};
    }
  }

  lemma {:induction false} HeldTail(f: Heap, n: nat, x: Handle)
    requires n <= |f| && forall i :: n <= i < |f| ==> !Owned(f[i]) && !Pinned(f[i])
    ensures Held(f, {}, x) == Held(f[..n], {}, x)
  {
    if n == |f| {
      assert f[..n] == f;
    } else {
      assert f[..|f| - 1][..n] == f[..n];
      HeldTail(f[..|f| - 1], n, x);
    }
  }

  function First(n: nat): (s: set<nat>)
    ensures forall a :: a in s <==> 0 < a <= n
  {
    if n == 0 then {} else First(n - 1) + {n}
  }

  /** The first blocks of `f` reach only each other, so nothing beyond them is
      still owned. */
  lemma RestoredTail(h: Heap, f: Heap, roots: multiset<Handle>)
    requires Balanced(h, {}, roots) && NoGarbage(f, {}, roots) && Kept(f, h, |h|)
    requires forall i :: |h| <= i < |f| ==> !Pinned(f[i])
    ensures forall i :: |h| <= i < |f| ==> !Owned(f[i])
  {
    var s := First(|h|);
    BalancedWithin(h, roots);
    forall x | x in roots ensures x.at in s {
      RootLive(h, {}, roots, x);
    }
    forall i, x | 0 <= i < |f| && i + 1 in s && x in Content(f[i]) ensures x.at in s {
      assert x in Content(h[i]);
      HeldAt(h, {}, i, x);
      RootLive(h, {}, roots, x);
    }
    assert Closed(f, {}, roots, s);
    assert Covered(f, {}, s);
    forall i | |h| <= i < |f| ensures !Owned(f[i]) {
      assert i + 1 !in s;
    }
  }

  lemma RestoredCount(h: Heap, f: Heap, roots: multiset<Handle>, i: nat)
    requires Balanced(h, {}, roots) && Balanced(f, {}, roots) && Kept(f, h, |h|) && i < |h|
    requires forall j :: |h| <= j < |f| ==> !Owned(f[j]) && !Pinned(f[j])
    ensures f[i] == h[i]
  {
    if h[i].CellBox? {
      var x := CellH(i + 1);
      HeldTail(f, |h|, x);
      HeldKept(f, h, |h|, x);
      assert h[..|h|] == h;
      assert Held(f, {}, x) + roots[x] == Refs(f, {}, x);
      assert Held(h, {}, x) + roots[x] == Refs(h, {}, x);
    }
  }

  /** If `f` holds what `h` held in its first `|h|` blocks, has the same roots
      and no later cells, then it is `h` followed by dead blocks. */
  lemma Restored(h: Heap, f: Heap, roots: multiset<Handle>)
    requires Sound(h, {}, roots) && Sound(f, {}, roots) && Kept(f, h, |h|)
    requires forall i :: |h| <= i < |f| ==> !Pinned(f[i])
    ensures f[..|h|] == h
    ensures forall i :: |h| <= i < |f| ==> !Owned(f[i])
  {
    hide Balanced, NoGarbage, Counted;
    RestoredTail(h, f, roots);
    forall i | 0 <= i < |h| ensures f[i] == h[i] {
      RestoredCount(h, f, roots, i);
    }
  }

  lemma GrownKept(g: Heap, h: Heap)
    requires Grown(g, h)
    ensures Kept(g, h, |h|)
  {
    forall i | 0 <= i < |h| ensures g[i] == h[i] || (g[i].CellBox? && h[i].CellBox? && g[i].val == h[i].val) {
      assert Bumped(g[i], h[i]);
    }
  }

  /** Cloning an owned value and dropping the copy gives back the same live
      blocks with the same contents and counts. */
  lemma CloneDropRestores(h: Heap, roots: multiset<Handle>, v: Value)
    requires Sound(h, {}, roots) && Owners(v) <= roots
    ensures Clone(h, |h|, {}, v).Ok?
    ensures var (g, w) := Clone(h, |h|, {}, v).value;
      && Drop(g, {}, w).Ok?
      && |Drop(g, {}, w).value| == |g| >= |h|
      && Drop(g, {}, w).value[..|h|] == h
      && forall i :: |h| <= i < |g| ==> !Owned(Drop(g, {}, w).value[i])
  {
    hide Balanced, NoGarbage, Counted, Supported;
    BalancedWithin(h, roots);
    CloneSound(h, |h|, {}, {}, roots, v);
    var (g, w) := Clone(h, |h|, {}, v).value;
    SoundSupported(h, roots);
    GrownKept(g, h);
    SupportedKept(g, h, |h|, roots);
    DropSound(g, {}, {}, roots + Owners(w), w);
    DropKeeps(g, {}, roots + Owners(w), w, roots, |h|);
    var f := Drop(g, {}, w).value;
    assert roots + Owners(w) - Owners(w) == roots;
    assert Kept(f, h, |h|);
    forall i | |h| <= i < |f| ensures !Pinned(f[i]) {
      assert Leq(f[i], g[i]);
    }
    Restored(h, f, roots);
  }
}
