/** Clone glue: making the bitwise copy of a value own its own storage. */
module CloneGlue {
  import opened Heaps

  /** What cloning can do to a block that was there before: raise its count. */
  predicate Bumped(g: Block, h: Block) {
    g == h || (g.CellBox? && h.CellBox? && g.val == h.val && g.count >= h.count)
  }

  /** `g` is `h` with some counts raised and some blocks added, no storage and no
      cell among them; block `but` may have changed in any way. */
  predicate GrownBut(g: Heap, h: Heap, but: nat) {
    && |h| <= |g|
    && (forall i :: 0 <= i < |h| && i + 1 != but ==> Bumped(g[i], h[i]))
    && (forall i :: |h| <= i < |g| ==> !Pinned(g[i]))
  }

  predicate Grown(g: Heap, h: Heap) {
    GrownBut(g, h, 0)
  }

  /** The slice blocks a clone may still descend into: those that were there
      when it began (`lim` blocks) and are not on its recursion stack. */
  function Reach(h: Heap, lim: nat, stack: set<nat>): set<nat> {
    set a | 0 < a <= lim && a <= |h| && a !in stack && h[a - 1].Elems?
  }

  /** Clones what `v` owns: strings and slices are copied, cells gain an owner.
      The copied elements of a slice are cloned in place, one after another. */
  function Clone(h: Heap, lim: nat, stack: set<nat>, v: Value): (r: Res<(Heap, Value)>)
    requires lim <= |h|
    ensures r.Ok? ==> Grown(r.value.0, h)
    decreases Reach(h, lim, stack), 0, v
  {
    match v
    case VStr(a) =>
      if a == 0 then Ok((h + [Data([], false)], VStr(|h| + 1)))
      else if a > lim || !h[a - 1].Data? then Err("invalid memory access")
      else Ok((h + [Data(h[a - 1].bytes, false)], VStr(|h| + 1)))
    case VSlice(a) =>
      if a == 0 then Ok((h + [Elems([])], VSlice(|h| + 1)))
      else if a > lim || a in stack || !h[a - 1].Elems? then Err("invalid memory access")
      else
        var g := h + [Elems(h[a - 1].vals)];
        assert a in Reach(h, lim, stack) && a !in Reach(g, lim, stack + {a});
        var r := CloneInto(g, lim, stack + {a}, |g|, 0);
        if r.Err? then Err(r.message) else Ok((r.value, VSlice(|g|)))
    case VCell(a) =>
      if a == 0 then Ok((h, v))
      else if a > |h| || !h[a - 1].CellBox? then Err("invalid memory access")
      else Ok((h[a - 1 := CellBox(h[a - 1].count + 1, h[a - 1].val)], v))
    case VRecord(fs) =>
      var r := CloneAll(h, lim, stack, fs);
      if r.Err? then Err(r.message) else Ok((r.value.0, VRecord(r.value.1)))
    case VEnum(tag, fs) =>
      var r := CloneAll(h, lim, stack, fs);
      if r.Err? then Err(r.message) else Ok((r.value.0, VEnum(tag, r.value.1)))
    case _ => Ok((h, v))
  }

  function CloneAll(h: Heap, lim: nat, stack: set<nat>, vs: seq<Value>): (r: Res<(Heap, seq<Value>)>)
    requires lim <= |h|
    ensures r.Ok? ==> Grown(r.value.0, h) && |r.value.1| == |vs|
    decreases Reach(h, lim, stack), 0, vs
  {
    if vs == [] then Ok((h, []))
    else
      var r := Clone(h, lim, stack, vs[0]);
      if r.Err? then Err(r.message) else
        assert Reach(r.value.0, lim, stack) == Reach(h, lim, stack);
        var q := CloneAll(r.value.0, lim, stack, vs[1..]);
        if q.Err? then Err(q.message) else
          GrownTrans(q.value.0, r.value.0, h, 0);
          Ok((q.value.0, [r.value.1] + q.value.1))
  }

  /** Clones elements `i..` of the fresh block `copy` in place. */
  function CloneInto(h: Heap, lim: nat, stack: set<nat>, copy: nat, i: nat): (r: Res<Heap>)
    requires lim < copy <= |h| && h[copy - 1].Elems? && i <= |h[copy - 1].vals|
    ensures r.Ok? ==> GrownBut(r.value, h, copy)
    ensures r.Ok? ==> r.value[copy - 1].Elems? && |r.value[copy - 1].vals| == |h[copy - 1].vals|
    ensures r.Ok? ==> r.value[copy - 1].vals[..i] == h[copy - 1].vals[..i]
    decreases Reach(h, lim, stack), 1 + |h[copy - 1].vals| - i
  {
    var vs := h[copy - 1].vals;
    if i == |vs| then Ok(h)
    else
      var r := Clone(h, lim, stack, vs[i]);
      if r.Err? then Err(r.message) else
        var g := r.value.0[copy - 1 := Elems(vs[i := r.value.1])];
        assert Reach(g, lim, stack) == Reach(h, lim, stack);
        assert g[copy - 1].vals[..i + 1][..i] == vs[..i];
        var q := CloneInto(g, lim, stack, copy, i + 1);
        if q.Err? then q else
          GrownTrans(q.value, g, h, copy);
          assert q.value[copy - 1].vals[..i + 1][..i] == q.value[copy - 1].vals[..i];
          q
  }

  lemma GrownTrans(f: Heap, g: Heap, h: Heap, but: nat)
    requires GrownBut(f, g, but) && GrownBut(g, h, but) && but <= |h|
    ensures GrownBut(f, h, but)
  {
    forall i | |h| <= i < |f| ensures !Pinned(f[i]) {
      assert i < |g| ==> Bumped(f[i], g[i]);
    }
    forall i | 0 <= i < |h| && i + 1 != but ensures Bumped(f[i], h[i]) {
      assert Bumped(f[i], g[i]) && Bumped(g[i], h[i]);
    }
  }

  lemma GrownSame(g: Heap, h: Heap, but: nat, a: nat)
    requires GrownBut(g, h, but) && 0 < a <= |h| && a != but && !h[a - 1].CellBox?
    ensures a <= |g| && g[a - 1] == h[a - 1]
  {
    assert Bumped(g[a - 1], h[a - 1]);
  }

  lemma GrownWrite(g: Heap, h: Heap, a: nat, b: Block)
    requires Grown(g, h) && 0 < a <= |h|
    ensures |h| <= |g| && GrownBut(g[a - 1 := b], h, a)
  {
  }

  // ---------------------------------------------------------------
  // cloning keeps the ownership invariant
  // ---------------------------------------------------------------

  /** The first `lim` blocks point only at each other. */
  ghost predicate Within(h: Heap, lim: nat) {
    forall i, x :: 0 <= i < lim && i < |h| && x in Content(h[i]) ==> x.at <= lim
  }

  ghost predicate UpTo(roots: multiset<Handle>, lim: nat) {
    forall x :: x in roots ==> x.at <= lim
  }

  lemma WithinGrown(g: Heap, h: Heap, lim: nat, but: nat)
    requires Within(h, lim) && GrownBut(g, h, but) && lim <= |h| && (but == 0 || but > lim)
    ensures Within(g, lim)
  {
    forall i, x | 0 <= i < lim && i < |g| && x in Content(g[i]) ensures x.at <= lim {
      assert Bumped(g[i], h[i]);
      assert x in Content(h[i]);
    }
  }

  /** Every handle of a balanced heap stays inside the heap. */
  lemma BalancedWithin(h: Heap, roots: multiset<Handle>)
    requires Balanced(h, {}, roots)
    ensures Within(h, |h|) && UpTo(roots, |h|)
  {
    forall i, x | 0 <= i < |h| && x in Content(h[i]) ensures x.at <= |h| {
      HeldAt(h, {}, i, x);
      RootLive(h, {}, roots, x);
    }
    forall x | x in roots ensures x.at <= |h| {
      RootLive(h, {}, roots, x);
    }
  }

  /** A fresh block that owns nothing yet becomes the property of `x`. */
  lemma Adopt(h: Heap, busy: set<nat>, roots: multiset<Handle>, x: Handle, b: Block)
    requires Sound(h, busy, roots) && |h| + 1 !in busy
    requires x.at == |h| + 1 && Fitting(x, b) && Content(b) == multiset{} && !x.CellH?
    ensures Sound(h + [b], busy, roots + multiset{x})
  {
    hide Sound;
    Allocate(h, busy, roots, b);
    Mend(h + [b], busy + {|h| + 1}, roots, x);
    assert busy + {|h| + 1} - {|h| + 1} == busy;
    assert roots - multiset{} + multiset{x} == roots + multiset{x};
  }

  /** The stack is busy, and the blocks a clone may meet are the first `lim`. */
  ghost predicate Ready(h: Heap, lim: nat, stack: set<nat>, busy: set<nat>) {
    lim <= |h| && Within(h, lim) && stack <= busy && forall a :: a in busy ==> a <= |h|
  }

  lemma ReadyNext(h: Heap, lim: nat, stack: set<nat>, busy: set<nat>)
    requires Ready(h, lim, stack, busy)
    ensures |h| + 1 !in busy && stack <= busy
  {
  }

  lemma ReadyGrown(g: Heap, h: Heap, lim: nat, stack: set<nat>, busy: set<nat>, but: nat)
    requires Ready(h, lim, stack, busy) && GrownBut(g, h, but) && (but == 0 || but > lim)
    ensures Ready(g, lim, stack, busy) && Reach(g, lim, stack) == Reach(h, lim, stack)
  {
    WithinGrown(g, h, lim, but);
    assert forall i :: 0 <= i < lim ==> Bumped(g[i], h[i]);
  }

  /** Descending into slice `a`, whose copy is being appended. */
  lemma ReadyDown(h: Heap, lim: nat, stack: set<nat>, busy: set<nat>, a: nat)
    requires Ready(h, lim, stack, busy) && 0 < a <= lim && a !in stack && h[a - 1].Elems?
    ensures var g := h + [Elems(h[a - 1].vals)];
      && Ready(g, lim, stack + {a}, busy + {a} + {|h| + 1})
      && Reach(g, lim, stack + {a}) < Reach(h, lim, stack)
    ensures UpTo(OwnersAll(h[a - 1].vals), lim)
    ensures |h| + 1 !in busy + {a}
  {
    var g := h + [Elems(h[a - 1].vals)];
    WithinGrown(g, h, lim, 0);
    assert a in Reach(h, lim, stack) && a !in Reach(g, lim, stack + {a});
    assert Content(h[a - 1]) == OwnersAll(h[a - 1].vals);
  }

  /** The main law of clone: it never fails on an owned value, it leaves every
      owner in place, and the copy is owned separately. */
  lemma {:induction false} CloneSound(h: Heap, lim: nat, stack: set<nat>, busy: set<nat>, roots: multiset<Handle>, v: Value)
    requires Sound(h, busy, roots) && Owners(v) <= roots && UpTo(Owners(v), lim)
    requires lim <= |h| && Ready(h, lim, stack, busy)
    ensures Clone(h, lim, stack, v).Ok?
    ensures var (g, w) := Clone(h, lim, stack, v).value; Sound(g, busy, roots + Owners(w))
    decreases Reach(h, lim, stack), 0, v
  {
    hide Sound, Ready, Reach, Grown;
    match v
    case VSlice(a) =>
      if a == 0 {
        CloneLeafSound(h, lim, stack, busy, roots, v);
      } else {
        assert SliceH(a) in Owners(v);
        CloneSliceSound(h, lim, stack, busy, roots, a);
      }
    case VRecord(fs) => CloneAllSound(h, lim, stack, busy, roots, fs);
    case VEnum(_, fs) => CloneAllSound(h, lim, stack, busy, roots, fs);
    case _ => CloneLeafSound(h, lim, stack, busy, roots, v);
  }

  lemma CloneLeafSound(h: Heap, lim: nat, stack: set<nat>, busy: set<nat>, roots: multiset<Handle>, v: Value)
    requires Sound(h, busy, roots) && Owners(v) <= roots && UpTo(Owners(v), lim)
    requires lim <= |h| && Ready(h, lim, stack, busy)
    requires !v.VRecord? && !v.VEnum? && (v.VSlice? ==> v.data == 0)
    ensures Clone(h, lim, stack, v).Ok?
    ensures var (g, w) := Clone(h, lim, stack, v).value; Sound(g, busy, roots + Owners(w))
  {
    hide Sound, Ready, Reach, Grown;
    if v.VStr? {
      var a := v.data;
      if a != 0 {
        SoundLive(h, busy, roots, StrH(a));
        assert StrH(a) in Owners(v);
      }
      ReadyNext(h, lim, stack, busy);
      Adopt(h, busy, roots, StrH(|h| + 1), Data(if a == 0 then [] else h[a - 1].bytes, false));
    } else if v.VSlice? {
      ReadyNext(h, lim, stack, busy);
      Adopt(h, busy, roots, SliceH(|h| + 1), Elems([]));
    } else if v.VCell? && v.cell != 0 {
      SoundLive(h, busy, roots, CellH(v.cell));
      Share(h, busy, roots, v.cell);
    } else {
      assert roots + Owners(v) == roots;
    }
  }

  lemma {:induction false} CloneAllSound(h: Heap, lim: nat, stack: set<nat>, busy: set<nat>, roots: multiset<Handle>, vs: seq<Value>)
    requires Sound(h, busy, roots) && OwnersAll(vs) <= roots && UpTo(OwnersAll(vs), lim)
    requires lim <= |h| && Ready(h, lim, stack, busy)
    ensures CloneAll(h, lim, stack, vs).Ok?
    ensures var (g, ws) := CloneAll(h, lim, stack, vs).value; Sound(g, busy, roots + OwnersAll(ws))
    decreases Reach(h, lim, stack), 0, vs
  {
    hide Sound, Ready, Reach;
    if vs == [] {
      assert roots + OwnersAll([]) == roots;
    } else {
      CloneSound(h, lim, stack, busy, roots, vs[0]);
      var (g, w) := Clone(h, lim, stack, vs[0]).value;
      ReadyGrown(g, h, lim, stack, busy, 0);
      CloneAllSound(g, lim, stack, busy, roots + Owners(w), vs[1..]);
      var (f, ws) := CloneAll(g, lim, stack, vs[1..]).value;
      assert ([w] + ws)[1..] == ws;
      assert roots + Owners(w) + OwnersAll(ws) == roots + OwnersAll([w] + ws);
    }
  }

  lemma {:induction false} CloneSliceSound(h: Heap, lim: nat, stack: set<nat>, busy: set<nat>, roots: multiset<Handle>, a: nat)
    requires Sound(h, busy, roots) && a != 0 && SliceH(a) in roots && a <= lim
    requires lim <= |h| && Ready(h, lim, stack, busy)
    ensures Clone(h, lim, stack, VSlice(a)).Ok?
    ensures var (g, w) := Clone(h, lim, stack, VSlice(a)).value; Sound(g, busy, roots + Owners(w))
    decreases Reach(h, lim, stack), 0, VSlice(a), 1
  {
    hide Sound, Ready, Reach, CloneInto, Content;
    CopyElements(h, lim, stack, busy, roots, a);
    var copy := |h| + 1;
    var f := CloneInto(h + [Elems(h[a - 1].vals)], lim, stack + {a}, copy, 0).value;
    MendBoth(f, busy, roots, roots - multiset{SliceH(a)} + Content(h[a - 1]), a, copy);
  }

  /** Copying the elements of a slice, with the original and the copy open. */
  lemma {:induction false} CopyElements(h: Heap, lim: nat, stack: set<nat>, busy: set<nat>, roots: multiset<Handle>, a: nat)
    requires Sound(h, busy, roots) && a != 0 && SliceH(a) in roots && a <= lim
    requires lim <= |h| && Ready(h, lim, stack, busy)
    ensures a !in stack && h[a - 1].Elems? && a !in busy && |h| + 1 !in busy
    ensures var copy := |h| + 1; var r := CloneInto(h + [Elems(h[a - 1].vals)], lim, stack + {a}, copy, 0);
      && r.Ok? && copy <= |r.value| && r.value[a - 1] == h[a - 1] && r.value[copy - 1].Elems?
      && Sound(r.value, busy + {a} + {copy}, roots - multiset{SliceH(a)} + Content(h[a - 1]) + Content(r.value[copy - 1]))
    decreases Reach(h, lim, stack), 0, VSlice(a), 0
  {
    hide Sound, Within, Reach, CloneInto;
    Tear(h, busy, roots, SliceH(a));
    ReadyDown(h, lim, stack, busy, a);
    var vs := h[a - 1].vals;
    var copy := |h| + 1;
    var base := roots - multiset{SliceH(a)} + OwnersAll(vs);
    Allocate(h, busy + {a}, base, Elems(vs));
    var g := h + [Elems(vs)];
    assert vs[..0] == [] && vs[0..] == vs;
    assert base + OwnersAll(vs[..0]) == base;
    CloneIntoSound(g, lim, stack + {a}, busy + {a} + {copy}, base, copy, 0);
    var f := CloneInto(g, lim, stack + {a}, copy, 0).value;
    assert f[a - 1] == h[a - 1] by { assert Bumped(f[a - 1], g[a - 1]); }
  }

  /** The copy is finished, then the original is closed again. */
  lemma MendBoth(f: Heap, busy: set<nat>, roots: multiset<Handle>, base: multiset<Handle>, a: nat, copy: nat)
    requires 0 < a < copy <= |f| && a !in busy && copy !in busy && f[a - 1].Elems? && f[copy - 1].Elems?
    requires SliceH(a) in roots && base == roots - multiset{SliceH(a)} + Content(f[a - 1])
    requires Sound(f, busy + {a} + {copy}, base + Content(f[copy - 1]))
    ensures Sound(f, busy, roots + multiset{SliceH(copy)})
  {
    hide Sound;
    hide Content;
    MendTo(f, busy + {a}, base, SliceH(copy));
    var rest := roots - multiset{SliceH(a)} + multiset{SliceH(copy)};
    assert base + multiset{SliceH(copy)} == rest + Content(f[a - 1]);
    MendTo(f, busy, rest, SliceH(a));
    assert rest + multiset{SliceH(a)} == roots + multiset{SliceH(copy)};
  }

  lemma {:induction false} CloneIntoSound(h: Heap, lim: nat, stack: set<nat>, busy: set<nat>, base: multiset<Handle>, copy: nat, i: nat)
    requires lim < copy <= |h| && h[copy - 1].Elems? && i <= |h[copy - 1].vals|
    requires Sound(h, busy, base + OwnersAll(h[copy - 1].vals[..i]))
    requires OwnersAll(h[copy - 1].vals[i..]) <= base && UpTo(OwnersAll(h[copy - 1].vals[i..]), lim)
    requires Ready(h, lim, stack, busy) && copy in busy
    ensures CloneInto(h, lim, stack, copy, i).Ok?
    ensures var g := CloneInto(h, lim, stack, copy, i).value; Sound(g, busy, base + OwnersAll(g[copy - 1].vals))
    decreases Reach(h, lim, stack), 1 + |h[copy - 1].vals| - i
  {
    hide Sound, Ready, Reach, GrownBut;
    var vs := h[copy - 1].vals;
    if i == |vs| {
      assert vs[..i] == vs;
    } else {
      var roots := base + OwnersAll(vs[..i]);
      NextElement(vs, i);
      CloneSound(h, lim, stack, busy, roots, vs[i]);
      var (f, w) := Clone(h, lim, stack, vs[i]).value;
      GrownSame(f, h, 0, copy);
      GrownWrite(f, h, copy, Elems(vs[i := w]));
      var g := f[copy - 1 := Elems(vs[i := w])];
      Rewrite(f, busy, roots + Owners(w), copy, Elems(vs[i := w]));
      ReadyGrown(g, h, lim, stack, busy, copy);
      DoneElement(vs, i, w);
      assert roots + Owners(w) == base + OwnersAll(vs[i := w][..i + 1]);
      CloneIntoSound(g, lim, stack, busy, base, copy, i + 1);
    }
  }

  lemma NextElement(vs: seq<Value>, i: nat)
    requires i < |vs|
    ensures OwnersAll(vs[i..]) == Owners(vs[i]) + OwnersAll(vs[i + 1..])
  {
    assert vs[i..][1..] == vs[i + 1..];
  }

  lemma DoneElement(vs: seq<Value>, i: nat, w: Value)
    requires i < |vs|
    ensures vs[i := w][i + 1..] == vs[i + 1..]
    ensures OwnersAll(vs[i := w][..i + 1]) == OwnersAll(vs[..i]) + Owners(w)
  {
    assert vs[i := w][..i + 1] == vs[..i] + [w];
    OwnersAllConcat(vs[..i], [w]);
    OwnersAllSingle(w);
  }

  // ---------------------------------------------------------------
  // a clone is the same value on fresh storage
  // ---------------------------------------------------------------

  function Bytes(h: Heap, a: nat): seq<nat> {
    if 0 < a <= |h| && h[a - 1].Data? then h[a - 1].bytes else []
  }

  function Items(h: Heap, a: nat): seq<Value> {
    if 0 < a <= |h| && h[a - 1].Elems? then h[a - 1].vals else []
  }

  /** `v` in `s` and `w` in `g` are the same value down to `n` levels of
      slices. Cells are the same when they are the same cell. */
  predicate SameTo(n: nat, s: Heap, v: Value, g: Heap, w: Value)
    decreases n, v
  {
    match v
    case VStr(a) => w.VStr? && Bytes(s, a) == Bytes(g, w.data)
    case VSlice(a) =>
      && w.VSlice?
      && |Items(s, a)| == |Items(g, w.data)|
      && (n > 0 ==> SameAll(n - 1, s, Items(s, a), g, Items(g, w.data)))
    case VRecord(fs) => w.VRecord? && SameAll(n, s, fs, g, w.fields)
    case VEnum(tag, fs) => w.VEnum? && w.tag == tag && SameAll(n, s, fs, g, w.payload)
    case _ => w == v
  }

  predicate SameAll(n: nat, s: Heap, vs: seq<Value>, g: Heap, ws: seq<Value>)
    decreases n, vs
  {
    && |vs| == |ws|
    && (vs != [] ==> SameTo(n, s, vs[0], g, ws[0]) && SameAll(n, s, vs[1..], g, ws[1..]))
  }

  /** Down to `n` levels, the strings and slices of `w` are blocks of `g`
      beyond the first `base`. */
  predicate Above(n: nat, g: Heap, w: Value, base: nat)
    decreases n, w
  {
    match w
    case VStr(a) => base < a <= |g|
    case VSlice(a) => base < a <= |g| && (n > 0 ==> AboveAll(n - 1, g, Items(g, a), base))
    case VRecord(fs) => AboveAll(n, g, fs, base)
    case VEnum(_, fs) => AboveAll(n, g, fs, base)
    case _ => true
  }

  predicate AboveAll(n: nat, g: Heap, ws: seq<Value>, base: nat)
    decreases n, ws
  {
    ws != [] ==> Above(n, g, ws[0], base) && AboveAll(n, g, ws[1..], base)
  }

  /** The strings and slices among blocks `lo + 1 ..= hi` are equal. */
  ghost predicate Agree(s: Heap, h: Heap, lo: nat, hi: nat) {
    hi <= |s| && hi <= |h| &&
    forall i :: lo <= i < hi ==> Bumped(h[i], s[i]) || Bumped(s[i], h[i])
  }

  lemma AgreeAt(s: Heap, h: Heap, lo: nat, hi: nat, a: nat)
    requires Agree(s, h, lo, hi) && lo < a <= hi
    ensures Bytes(s, a) == Bytes(h, a) && Items(s, a) == Items(h, a)
  {
    assert Bumped(h[a - 1], s[a - 1]) || Bumped(s[a - 1], h[a - 1]);
  }

  /** A value on fresh storage does not see changes to the older blocks. */
  lemma {:induction false} Stable(n: nat, s: Heap, v: Value, g: Heap, w: Value, f: Heap, base: nat)
    requires SameTo(n, s, v, g, w) && Above(n, g, w, base) && Agree(g, f, base, |g|)
    ensures SameTo(n, s, v, f, w) && Above(n, f, w, base)
    decreases n, v
  {
    match v
    case VStr(a) => AgreeAt(g, f, base, |g|, w.data);
    case VSlice(a) =>
      AgreeAt(g, f, base, |g|, w.data);
      if n > 0 {
        StableAll(n - 1, s, Items(s, a), g, Items(g, w.data), f, base);
      }
    case VRecord(fs) => StableAll(n, s, fs, g, w.fields, f, base);
    case VEnum(_, fs) => StableAll(n, s, fs, g, w.payload, f, base);
    case _ =>
  }

  lemma {:induction false} StableAll(n: nat, s: Heap, vs: seq<Value>, g: Heap, ws: seq<Value>, f: Heap, base: nat)
    requires SameAll(n, s, vs, g, ws) && AboveAll(n, g, ws, base) && Agree(g, f, base, |g|)
    ensures SameAll(n, s, vs, f, ws) && AboveAll(n, f, ws, base)
    decreases n, vs
  {
    if vs != [] {
      Stable(n, s, vs[0], g, ws[0], f, base);
      StableAll(n, s, vs[1..], g, ws[1..], f, base);
    }
  }

  lemma {:induction false} AboveLess(n: nat, g: Heap, w: Value, base: nat, base': nat)
    requires Above(n, g, w, base) && base' <= base
    ensures Above(n, g, w, base')
    decreases n, w
  {
    match w
    case VSlice(a) => if n > 0 { AboveAllLess(n - 1, g, Items(g, a), base, base'); }
    case VRecord(fs) => AboveAllLess(n, g, fs, base, base');
    case VEnum(_, fs) => AboveAllLess(n, g, fs, base, base');
    case _ =>
  }

  lemma {:induction false} AboveAllLess(n: nat, g: Heap, ws: seq<Value>, base: nat, base': nat)
    requires AboveAll(n, g, ws, base) && base' <= base
    ensures AboveAll(n, g, ws, base')
    decreases n, ws
  {
    if ws != [] {
      AboveLess(n, g, ws[0], base, base');
      AboveAllLess(n, g, ws[1..], base, base');
    }
  }

  /** Cloning is deep and fresh, for as many levels as one cares to look: the
      copy is the same value as the original was in `s`, any heap with the
      same first `lim` blocks, and all its storage is new. */
  lemma {:induction false} CloneDeep(n: nat, s: Heap, h: Heap, lim: nat, stack: set<nat>, v: Value)
    requires lim <= |h| && Agree(s, h, 0, lim) && Clone(h, lim, stack, v).Ok?
    ensures var (g, w) := Clone(h, lim, stack, v).value; SameTo(n, s, v, g, w) && Above(n, g, w, |h|)
    decreases Reach(h, lim, stack), 0, v
  {
    hide Grown, GrownBut, Agree;
    match v
    case VStr(a) => if a != 0 { AgreeAt(s, h, 0, lim, a); }
    case VSlice(a) => if a != 0 { CloneSliceDeep(n, s, h, lim, stack, a); }
    case VRecord(fs) => CloneAllDeep(n, s, h, lim, stack, fs);
    case VEnum(_, fs) => CloneAllDeep(n, s, h, lim, stack, fs);
    case _ =>
  }

  /** A slice is cloned by cloning its elements inside a bitwise copy. */
  lemma CloneSlice(h: Heap, lim: nat, stack: set<nat>, a: nat)
    requires lim <= |h| && a != 0 && Clone(h, lim, stack, VSlice(a)).Ok?
    ensures a <= lim && h[a - 1].Elems?
    ensures var g := h + [Elems(h[a - 1].vals)];
      && Reach(g, lim, stack + {a}) < Reach(h, lim, stack) && CloneInto(g, lim, stack + {a}, |g|, 0).Ok?
      && Clone(h, lim, stack, VSlice(a)) == Ok((CloneInto(g, lim, stack + {a}, |g|, 0).value, VSlice(|g|)))
  {
    var g := h + [Elems(h[a - 1].vals)];
    assert a in Reach(h, lim, stack) && a !in Reach(g, lim, stack + {a});
    hide CloneInto;
  }

  lemma AgreeMore(s: Heap, h: Heap, lim: nat, b: Block)
    requires Agree(s, h, 0, lim)
    ensures Agree(s, h + [b], 0, lim)
  {
  }

  lemma {:induction false} CloneSliceDeep(n: nat, s: Heap, h: Heap, lim: nat, stack: set<nat>, a: nat)
    requires lim <= |h| && Agree(s, h, 0, lim) && a != 0 && Clone(h, lim, stack, VSlice(a)).Ok?
    ensures var (g, w) := Clone(h, lim, stack, VSlice(a)).value; SameTo(n, s, VSlice(a), g, w) && Above(n, g, w, |h|)
    decreases Reach(h, lim, stack), 0, VSlice(a), 0
  {
    CloneSlice(h, lim, stack, a);
    AgreeAt(s, h, 0, lim, a);
    hide Clone, CloneInto, Reach, Agree;
    var vs := h[a - 1].vals;
    var g := h + [Elems(vs)];
    if n > 0 {
      AgreeMore(s, h, lim, Elems(vs));
      CloneIntoDeep(n - 1, s, g, lim, stack + {a}, |g|, 0);
      var f := CloneInto(g, lim, stack + {a}, |g|, 0).value;
      assert vs[0..] == vs && f[|h|].vals[0..] == f[|h|].vals;
      AboveAllLess(n - 1, f, f[|h|].vals, |g|, |h|);
    }
  }

  lemma AgreeGrown(s: Heap, h: Heap, g: Heap, lim: nat, but: nat)
    requires lim <= |h| && Agree(s, h, 0, lim) && GrownBut(g, h, but) && (but == 0 || but > lim)
    ensures Agree(s, g, 0, lim)
  {
    forall i | 0 <= i < lim ensures Bumped(g[i], s[i]) || Bumped(s[i], g[i]) {
      assert Bumped(h[i], s[i]) || Bumped(s[i], h[i]);
      assert Bumped(g[i], h[i]);
    }
  }

  lemma {:induction false} CloneAllDeep(n: nat, s: Heap, h: Heap, lim: nat, stack: set<nat>, vs: seq<Value>)
    requires lim <= |h| && Agree(s, h, 0, lim) && CloneAll(h, lim, stack, vs).Ok?
    ensures var (g, ws) := CloneAll(h, lim, stack, vs).value; SameAll(n, s, vs, g, ws) && AboveAll(n, g, ws, |h|)
    decreases Reach(h, lim, stack), 0, vs
  {
    if vs != [] {
      CloneDeep(n, s, h, lim, stack, vs[0]);
      var (g, w) := Clone(h, lim, stack, vs[0]).value;
      assert Reach(g, lim, stack) == Reach(h, lim, stack);
      AgreeGrown(s, h, g, lim, 0);
      CloneAllDeep(n, s, g, lim, stack, vs[1..]);
      var (f, ws) := CloneAll(g, lim, stack, vs[1..]).value;
      Stable(n, s, vs[0], g, w, f, |h|);
      AboveAllLess(n, f, ws, |g|, |h|);
      assert ([w] + ws)[1..] == ws;
    }
  }

  lemma {:induction false} CloneIntoDeep(n: nat, s: Heap, h: Heap, lim: nat, stack: set<nat>, copy: nat, i: nat)
    requires lim < copy <= |h| && h[copy - 1].Elems? && i <= |h[copy - 1].vals|
    requires Agree(s, h, 0, lim) && CloneInto(h, lim, stack, copy, i).Ok?
    ensures var g := CloneInto(h, lim, stack, copy, i).value;
      SameAll(n, s, h[copy - 1].vals[i..], g, g[copy - 1].vals[i..]) && AboveAll(n, g, g[copy - 1].vals[i..], |h|)
    decreases Reach(h, lim, stack), 1 + |h[copy - 1].vals| - i
  {
    var vs := h[copy - 1].vals;
    if i < |vs| {
      CloneDeep(n, s, h, lim, stack, vs[i]);
      var (f, w) := Clone(h, lim, stack, vs[i]).value;
      assert f[copy - 1] == h[copy - 1] by { assert Bumped(f[copy - 1], h[copy - 1]); }
      var g := f[copy - 1 := Elems(vs[i := w])];
      assert Reach(g, lim, stack) == Reach(h, lim, stack);
      AgreeGrown(s, h, g, lim, copy);
      CloneIntoDeep(n, s, g, lim, stack, copy, i + 1);
      var e := CloneInto(g, lim, stack, copy, i + 1).value;
      var ws := e[copy - 1].vals;
      Stable(n, s, vs[i], f, w, e, |h|);
      AboveAllLess(n, e, ws[i + 1..], |g|, |h|);
      assert ws[i] == ws[..i + 1][i] == vs[i := w][..i + 1][i] == w;
      assert ws[i..][1..] == ws[i + 1..];
      assert vs[i..][1..] == vs[i := w][i + 1..];
    }
  }
}
