/** Drop glue: releasing everything a value owns. */
module DropGlue {
  import opened Heaps

  /** Gives a block back; the null pointer is ignored, a second free fails. */
  function Free(h: Heap, a: nat): (r: Res<Heap>) {
    if a == 0 then Ok(h)
    else if a > |h| || h[a - 1].Freed? then Err("invalid memory access")
    else if h[a - 1].Data? && h[a - 1].fixed then Err("freeing memory that was not allocated")
    else Ok(h[a - 1 := Freed])
  }

  /** What dropping can do to a block: nothing, free it, or lower its count. */
  predicate Leq(g: Block, h: Block) {
    g == h || (g.Freed? && Owned(h)) || (g.CellBox? && h.CellBox? && g.val == h.val && g.count <= h.count)
  }

  predicate Below(g: Heap, h: Heap) {
    |g| == |h| && forall i :: 0 <= i < |h| ==> Leq(g[i], h[i])
  }

  // ---------------------------------------------------------------
  // termination: live blocks plus cell counts
  // ---------------------------------------------------------------

  function Burden(b: Block): nat {
    match b
    case Elems(_) => 1
    case CellBox(count, _) => count
    case _ => 0
  }

  function Weight(h: Heap, busy: set<nat>): nat {
    if h == [] then 0
    else Weight(h[..|h| - 1], busy) + (if |h| in busy && !h[|h| - 1].CellBox? then 0 else Burden(h[|h| - 1]))
  }

  lemma {:induction false} WeightBelow(g: Heap, h: Heap, busy: set<nat>)
    requires Below(g, h)
    ensures Weight(g, busy) <= Weight(h, busy)
  {
    if h != [] {
      WeightBelow(g[..|g| - 1], h[..|h| - 1], busy);
    }
  }

  lemma {:induction false} WeightBusy(h: Heap, busy: set<nat>, a: nat)
    requires 0 < a <= |h| && a !in busy
    ensures Weight(h, busy + {a}) + (if h[a - 1].CellBox? then 0 else Burden(h[a - 1])) == Weight(h, busy)
  {
    var n := |h| - 1;
    if a < |h| {
      WeightBusy(h[..n], busy, a);
    } else {
      WeightOutside(h[..n], busy, a);
    }
  }

  lemma {:induction false} WeightOutside(h: Heap, busy: set<nat>, a: nat)
    requires a > |h|
    ensures Weight(h, busy + {a}) == Weight(h, busy)
  {
    if h != [] {
      WeightOutside(h[..|h| - 1], busy, a);
    }
  }

  lemma {:induction false} WeightLower(h: Heap, busy: set<nat>, a: nat, v: Value)
    requires 0 < a <= |h| && h[a - 1].CellBox? && h[a - 1].count > 0
    ensures Weight(h[a - 1 := CellBox(h[a - 1].count - 1, v)], busy) < Weight(h, busy)
  {
    var n := |h| - 1;
    var g := h[a - 1 := CellBox(h[a - 1].count - 1, v)];
    if a < |h| {
      assert g[..n] == h[..n][a - 1 := CellBox(h[a - 1].count - 1, v)];
      WeightLower(h[..n], busy, a, v);
    } else {
      assert g[..n] == h[..n];
    }
  }

  lemma BelowTrans(f: Heap, g: Heap, h: Heap)
    requires Below(f, g) && Below(g, h)
    ensures Below(f, h)
  {
    forall i | 0 <= i < |h| ensures Leq(f[i], h[i]) {
      assert Leq(f[i], g[i]) && Leq(g[i], h[i]);
    }
  }

  // ---------------------------------------------------------------
  // the glue
  // ---------------------------------------------------------------

  /** Releases what `v` owns. `busy` is the recursion stack: the blocks whose
      contents are being dropped. Meeting one of them again would be a
      recursion without end; `DropSound` shows that it never happens. */
  function Drop(h: Heap, busy: set<nat>, v: Value): (r: Res<Heap>)
    ensures r.Ok? ==> Below(r.value, h)
    decreases Weight(h, busy), v
  {
    match v
    case VStr(a) =>
      if a == 0 then Ok(h)
      else if a > |h| || !h[a - 1].Data? then Err("invalid memory access")
      else Free(h, a)
    case VSlice(a) =>
      if a == 0 then Ok(h)
      else if a > |h| || a in busy || !h[a - 1].Elems? then Err("invalid memory access")
      else
        WeightBusy(h, busy, a);
        var r := DropAll(h, busy + {a}, h[a - 1].vals);
        if r.Err? then r else
          assert Leq(r.value[a - 1], h[a - 1]);
          Free(r.value, a)
    case VCell(a) =>
      if a == 0 then Ok(h)
      else if a > |h| || a in busy || !h[a - 1].CellBox? || h[a - 1].count == 0 then Err("invalid memory access")
      else
        WeightLower(h, busy, a, h[a - 1].val);
        var g := h[a - 1 := CellBox(h[a - 1].count - 1, h[a - 1].val)];
        if h[a - 1].count > 1 then Ok(g)
        else
          WeightBusy(g, busy, a);
          var r := Drop(g, busy + {a}, h[a - 1].val);
          if r.Err? then r else
            BelowTrans(r.value, g, h);
            Free(r.value, a)
    case VRecord(fs) => DropAll(h, busy, fs)
    case VEnum(_, fs) => DropAll(h, busy, fs)
    case _ => Ok(h)
  }

  function DropAll(h: Heap, busy: set<nat>, vs: seq<Value>): (r: Res<Heap>)
    ensures r.Ok? ==> Below(r.value, h)
    decreases Weight(h, busy), vs
  {
    if vs == [] then Ok(h)
    else
      var r := Drop(h, busy, vs[0]);
      if r.Err? then r else
        WeightBelow(r.value, h, busy);
        var q := DropAll(r.value, busy, vs[1..]);
        if q.Err? then q else
          BelowTrans(q.value, r.value, h);
          q
  }

  // ---------------------------------------------------------------
  // dropping keeps the ownership invariant
  // ---------------------------------------------------------------

  /** Freeing a block that has been taken apart. */
  lemma FreeSound(h: Heap, busy: set<nat>, roots: multiset<Handle>, a: nat)
    requires Sound(h, busy, roots) && a in busy && 0 < a <= |h| && Count(h[a - 1]) == 0
    ensures Sound(h[a - 1 := Freed], busy - {a}, roots)
  {
    hide Sound;
    Rewrite(h, busy, roots, a, Freed);
    Heaps.Shut(h[a - 1 := Freed], busy, roots, a);
    assert roots - multiset{} == roots;
  }

  lemma LowerLast(h: Heap, busy: set<nat>, roots: multiset<Handle>, a: nat)
    requires Sound(h, busy, roots) && CellH(a) in roots
    requires 0 < a <= |h| && a !in busy && h[a - 1].CellBox? && h[a - 1].count == 1
    ensures Sound(h[a - 1 := CellBox(0, h[a - 1].val)], busy + {a}, roots - multiset{CellH(a)} + Owners(h[a - 1].val))
  {
    hide Sound;
    var w := h[a - 1].val;
    Heaps.Open(h, busy, roots, a);
    Unshare(h, busy + {a}, roots + Owners(w), a);
    assert roots + Owners(w) - multiset{CellH(a)} == roots - multiset{CellH(a)} + Owners(w);
  }

  /** No cell is open: a busy cell is one that has lost its last owner. */
  ghost predicate Settled(h: Heap, busy: set<nat>) {
    forall i :: 0 <= i < |h| && i + 1 in busy ==> Count(h[i]) == 0
  }

  /** The blocks under way are left alone. */
  ghost predicate Untouched(g: Heap, h: Heap, busy: set<nat>) {
    |g| == |h| && forall i :: 0 <= i < |h| && i + 1 in busy ==> g[i] == h[i]
  }

  /** The main law of drop: under the ownership invariant it never fails, and
      it gives up exactly the ownership that `v` stood for. */
  lemma {:induction false} DropSound(h: Heap, stack: set<nat>, busy: set<nat>, roots: multiset<Handle>, v: Value)
    requires Sound(h, busy, roots) && Settled(h, busy) && stack <= busy && Owners(v) <= roots
    ensures Drop(h, stack, v).Ok?
    ensures Sound(Drop(h, stack, v).value, busy, roots - Owners(v))
    ensures Untouched(Drop(h, stack, v).value, h, busy)
    decreases Weight(h, stack), v
  {
    hide Sound;
    assert roots - multiset{} == roots;
    match v
    case VStr(a) =>
      if a != 0 {
        DropStrSound(h, stack, busy, roots, a);
      }
    case VSlice(a) =>
      if a != 0 {
        DropSliceSound(h, stack, busy, roots, a);
      }
    case VCell(a) =>
      if a != 0 {
        DropCellSound(h, stack, busy, roots, a);
      }
    case VRecord(fs) => DropAllSound(h, stack, busy, roots, fs);
    case VEnum(_, fs) => DropAllSound(h, stack, busy, roots, fs);
    case _ =>
  }

  lemma DropStrSound(h: Heap, stack: set<nat>, busy: set<nat>, roots: multiset<Handle>, a: nat)
    requires Sound(h, busy, roots) && a != 0 && StrH(a) in roots
    ensures Drop(h, stack, VStr(a)).Ok?
    ensures Sound(Drop(h, stack, VStr(a)).value, busy, roots - multiset{StrH(a)})
    ensures Untouched(Drop(h, stack, VStr(a)).value, h, busy)
  {
    hide Sound;
    Tear(h, busy, roots, StrH(a));
    var rest := roots - multiset{StrH(a)};
    assert rest + Content(h[a - 1]) == rest;
    FreeSound(h, busy + {a}, rest, a);
    assert busy + {a} - {a} == busy;
  }

  lemma {:induction false} DropSliceSound(h: Heap, stack: set<nat>, busy: set<nat>, roots: multiset<Handle>, a: nat)
    requires Sound(h, busy, roots) && Settled(h, busy) && stack <= busy && a != 0 && SliceH(a) in roots
    ensures Drop(h, stack, VSlice(a)).Ok?
    ensures Sound(Drop(h, stack, VSlice(a)).value, busy, roots - multiset{SliceH(a)})
    ensures Untouched(Drop(h, stack, VSlice(a)).value, h, busy)
    decreases Weight(h, stack), VSlice(a), 0
  {
    hide Sound;
    Tear(h, busy, roots, SliceH(a));
    WeightBusy(h, stack, a);
    var vs := h[a - 1].vals;
    var rest := roots - multiset{SliceH(a)};
    DropAllSound(h, stack + {a}, busy + {a}, rest + OwnersAll(vs), vs);
    assert rest + OwnersAll(vs) - OwnersAll(vs) == rest;
    var g := DropAll(h, stack + {a}, vs).value;
    assert g[a - 1] == h[a - 1];
    FreeSound(g, busy + {a}, rest, a);
    assert busy + {a} - {a} == busy;
  }

  lemma {:induction false} DropCellSound(h: Heap, stack: set<nat>, busy: set<nat>, roots: multiset<Handle>, a: nat)
    requires Sound(h, busy, roots) && Settled(h, busy) && stack <= busy && a != 0 && CellH(a) in roots
    ensures Drop(h, stack, VCell(a)).Ok?
    ensures Sound(Drop(h, stack, VCell(a)).value, busy, roots - multiset{CellH(a)})
    ensures Untouched(Drop(h, stack, VCell(a)).value, h, busy)
    decreases Weight(h, stack), VCell(a), 0
  {
    hide Sound, Weight, Owners;
    SoundLive(h, busy, roots, CellH(a));
    assert a - 1 + 1 !in busy;
    if h[a - 1].count > 1 {
      Unshare(h, busy, roots, a);
    } else {
      var w := h[a - 1].val;
      var rest := roots - multiset{CellH(a)};
      WeightLower(h, stack, a, w);
      LowerLast(h, busy, roots, a);
      var g := h[a - 1 := CellBox(0, w)];
      WeightBusy(g, stack, a);
      DropSound(g, stack + {a}, busy + {a}, rest + Owners(w), w);
      assert rest + Owners(w) - Owners(w) == rest;
      var f := Drop(g, stack + {a}, w).value;
      assert f[a - 1] == g[a - 1];
      FreeSound(f, busy + {a}, rest, a);
      assert busy + {a} - {a} == busy;
    }
  }

  lemma {:induction false} DropAllSound(h: Heap, stack: set<nat>, busy: set<nat>, roots: multiset<Handle>, vs: seq<Value>)
    requires Sound(h, busy, roots) && Settled(h, busy) && stack <= busy && OwnersAll(vs) <= roots
    ensures DropAll(h, stack, vs).Ok?
    ensures Sound(DropAll(h, stack, vs).value, busy, roots - OwnersAll(vs))
    ensures Untouched(DropAll(h, stack, vs).value, h, busy)
    decreases Weight(h, stack), vs
  {
    hide Sound;
    if vs == [] {
      assert roots - OwnersAll(vs) == roots;
    } else {
      DropSound(h, stack, busy, roots, vs[0]);
      var g := Drop(h, stack, vs[0]).value;
      WeightBelow(g, h, stack);
      DropAllSound(g, stack, busy, roots - Owners(vs[0]), vs[1..]);
      assert roots - Owners(vs[0]) - OwnersAll(vs[1..]) == roots - OwnersAll(vs);
    }
  }
}
