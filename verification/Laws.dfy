/** What the semantics of operands and assignments comes to: copies are deep and
    stay what they are, moves clear the drop flag, stores are read back. */
module Laws {
  import opened Heaps
  import opened Mir
  import opened DropGlue
  import opened CloneGlue
  import opened Places
  import opened Semantics

  // ---------------------------------------------------------------
  // parts of values
  // ---------------------------------------------------------------

  lemma {:induction false} GetPut(v: Value, path: seq<nat>, w: Value)
    requires Get(v, path).Some?
    ensures Get(Put(v, path, w), path) == Some(w)
    decreases path
  {
    if path != [] {
      GetPut(if v.VRecord? then v.fields[path[0]] else v.payload[path[0]], path[1..], w);
    }
  }

  /** Two paths that part ways somewhere. */
  predicate Apart(p: seq<nat>, q: seq<nat>) {
    exists k :: 0 <= k < |p| && k < |q| && p[k] != q[k]
  }

  /** Writing one part leaves every part beside it. */
  lemma {:induction false} GetBeside(v: Value, path: seq<nat>, w: Value, q: seq<nat>)
    requires Get(v, path).Some? && Apart(path, q)
    ensures Get(Put(v, path, w), q) == Get(v, q)
    decreases path
  {
    if path[0] == q[0] {
      var k :| 0 <= k < |path| && k < |q| && path[k] != q[k];
      assert path[1..][k - 1] != q[1..][k - 1];
      GetBeside(if v.VRecord? then v.fields[path[0]] else v.payload[path[0]], path[1..], w, q[1..]);
    }
  }

  /** What is stored at a slot is read back from it, parts beside it stay, and so
      does every other local's storage. */
  lemma StoreThenLoad(h: Heap, slot: Slot, v: Value, q: seq<nat>)
    requires StoredAt(h, slot, v).Done?
    ensures var g := StoredAt(h, slot, v).value;
      && Load(g, slot) == Some(v)
      && (Apart(slot.path, q) ==> Load(g, Slot(slot.block, q)) == Load(h, Slot(slot.block, q)))
      && |g| == |h| && (forall i :: 0 <= i < |h| && h[i].Storage? && i + 1 != slot.block ==> g[i] == h[i])
  {
    var b := h[slot.block - 1];
    GetPut(Root(b), slot.path, v);
    if Apart(slot.path, q) {
      GetBeside(Root(b), slot.path, v, q);
    }
    var d := Drop(h, {}, Load(h, slot).value).value;
    forall i | 0 <= i < |h| && h[i].Storage? ensures d[i] == h[i] {
      assert Leq(d[i], h[i]);
    }
  }

  /** Storing into a local sets its flag if its type needs it, and what is read
      back is what was stored. */
  lemma StoreLocalThenRead(h: Heap, f: Frame, l: nat, v: Value)
    requires StoredLocal(h, f, l, v).Done?
    ensures var g := StoredLocal(h, f, l, v).value;
      && |g| == |h| && 0 < f.locals[l] <= |g| && g[f.locals[l] - 1] == Storage(v, NeedsDrop(f.body.locals[l]))
      && Where(g, f, Local(l)) == Done(Loc(Slot(f.locals[l], []), [f.locals[l]])) && Load(g, Slot(f.locals[l], [])) == Some(v)
  {
  }

  /** An unflagged local stays as it is while another is dropped. */
  lemma EmptiedBeside(h: Heap, a: nat, b: nat)
    requires 0 < a <= |h| && h[a - 1].Storage? && !h[a - 1].owned && Emptied(h, b).Done?
    ensures var g := Emptied(h, b).value; |g| == |h| && g[a - 1] == h[a - 1]
  {
    if h[b - 1].owned {
      var d := Drop(h, {}, h[b - 1].val).value;
      assert Leq(d[a - 1], h[a - 1]);
    }
  }

  /** Dropping locals in turn passes over one that is not flagged. */
  lemma {:induction false} DropsPassOver(h: Heap, locals: seq<nat>, l: nat)
    requires l < |locals| && 0 < locals[l] <= |h| && h[locals[l] - 1].Storage? && !h[locals[l] - 1].owned
    ensures EmptiedAll(h, locals) == EmptiedAll(h, locals[..l] + locals[l + 1..])
    decreases |locals|
  {
    var n := |locals| - 1;
    if l == n {
      assert locals[..l] + locals[l + 1..] == locals[..n];
    } else {
      var others := locals[..l] + locals[l + 1..];
      var r := Emptied(h, locals[n]);
      if r.Done? {
        EmptiedBeside(h, locals[l], locals[n]);
        DropsPassOver(r.value, locals[..n], l);
        assert others[..n - 1] == locals[..n][..l] + locals[..n][l + 1..];
      }
    }
  }

  /** Moving out of a local copies its bits and clears its flag. The bits stay
      where they were, nothing else changes, and when the frame's locals are
      dropped this one is passed over. */
  lemma MovedOut(h: Heap, f: Frame, l: nat)
    requires Moved(h, f, l, false).Done? && l < |f.body.locals| && NeedsDrop(f.body.locals[l])
    ensures var (g, v) := Moved(h, f, l, false).value;
      && l < |f.locals| && 0 < f.locals[l] <= |h| && g == h[f.locals[l] - 1 := Storage(v, false)]
      && Load(h, Slot(f.locals[l], [])) == Some(v) && Load(g, Slot(f.locals[l], [])) == Some(v)
      && EmptiedAll(g, f.locals) == EmptiedAll(g, f.locals[..l] + f.locals[l + 1..])
  {
    DropsPassOver(Moved(h, f, l, false).value.0, f.locals, l);
  }

  // ---------------------------------------------------------------
  // copies
  // ---------------------------------------------------------------

  /** A copy is the same value, down to any depth, on storage of its own. */
  lemma CopyIsDeep(n: nat, h: Heap, v: Value)
    requires Owning(v) && Copied(h, v).Done?
    ensures var (g, w) := Copied(h, v).value; SameTo(n, h, v, g, w) && Above(n, g, w, |h|) && Grown(g, h)
  {
    CloneDeep(n, h, h, |h|, {}, v);
  }

  lemma {:induction false} DropOld(h: Heap, busy: set<nat>, v: Value, lim: nat)
    requires lim <= |h| && Within(h, lim) && UpTo(Owners(v), lim) && Drop(h, busy, v).Ok?
    ensures var g := Drop(h, busy, v).value; Within(g, lim) && forall i :: lim <= i < |h| ==> g[i] == h[i]
    decreases Weight(h, busy), v, 1
  {
    hide Within, UpTo, Weight;
    match v
    case VStr(a) =>
      if a != 0 {
        DropOldStr(h, busy, a, lim);
      }
    case VSlice(a) =>
      if a != 0 {
        DropOldSlice(h, busy, a, lim);
      }
    case VCell(a) =>
      if a != 0 {
        DropOldCell(h, busy, a, lim);
      }
    case VRecord(fs) => DropOldAll(h, busy, fs, lim);
    case VEnum(_, fs) => DropOldAll(h, busy, fs, lim);
    case _ =>
  }

  lemma DropOldStr(h: Heap, busy: set<nat>, a: nat, lim: nat)
    requires lim <= |h| && Within(h, lim) && a != 0 && UpTo(Owners(VStr(a)), lim) && Drop(h, busy, VStr(a)).Ok?
    ensures var g := Drop(h, busy, VStr(a)).value; Within(g, lim) && forall i :: lim <= i < |h| ==> g[i] == h[i]
  {
    assert StrH(a) in Owners(VStr(a));
    WithinBelow(Drop(h, busy, VStr(a)).value, h, lim);
  }

  lemma WithinBelow(g: Heap, h: Heap, lim: nat)
    requires Within(h, lim) && Below(g, h)
    ensures Within(g, lim)
  {
    forall i, x | 0 <= i < lim && i < |g| && x in Content(g[i]) ensures x.at <= lim {
      assert Leq(g[i], h[i]);
      assert x in Content(h[i]);
    }
  }

  lemma {:induction false} DropOldSlice(h: Heap, busy: set<nat>, a: nat, lim: nat)
    requires lim <= |h| && Within(h, lim) && a != 0 && UpTo(Owners(VSlice(a)), lim) && Drop(h, busy, VSlice(a)).Ok?
    ensures var g := Drop(h, busy, VSlice(a)).value; Within(g, lim) && forall i :: lim <= i < |h| ==> g[i] == h[i]
    decreases Weight(h, busy), VSlice(a), 0
  {
    assert SliceH(a) in Owners(VSlice(a));
    WeightBusy(h, busy, a);
    var vs := h[a - 1].vals;
    assert UpTo(OwnersAll(vs), lim) by {
      assert Content(h[a - 1]) == OwnersAll(vs);
    }
    DropOldAll(h, busy + {a}, vs, lim);
    WithinBelow(Drop(h, busy, VSlice(a)).value, h, lim);
  }

  /** One handle less, or the value and the cell itself go too. */
  lemma DropCellIs(h: Heap, busy: set<nat>, a: nat)
    requires a != 0 && Drop(h, busy, VCell(a)).Ok?
    ensures a <= |h| && a !in busy && h[a - 1].CellBox? && h[a - 1].count > 0
    ensures h[a - 1].count > 1 ==> Drop(h, busy, VCell(a)).value == h[a - 1 := CellBox(h[a - 1].count - 1, h[a - 1].val)]
    ensures h[a - 1].count == 1 ==> var r := Drop(h[a - 1 := CellBox(0, h[a - 1].val)], busy + {a}, h[a - 1].val);
      r.Ok? && |r.value| == |h| && Drop(h, busy, VCell(a)).value == r.value[a - 1 := Freed]
  {
  }

  lemma LastHandle(h: Heap, a: nat, lim: nat)
    requires 0 < a <= lim <= |h| && Within(h, lim) && h[a - 1].CellBox?
    ensures var v := h[a - 1].val; Within(h[a - 1 := CellBox(0, v)], lim) && UpTo(Owners(v), lim)
  {
    var v := h[a - 1].val;
    assert Content(h[a - 1]) == Owners(v);
    WithinBelow(h[a - 1 := CellBox(0, v)], h, lim);
  }

  lemma {:induction false} DropOldCell(h: Heap, busy: set<nat>, a: nat, lim: nat)
    requires lim <= |h| && Within(h, lim) && a != 0 && UpTo(Owners(VCell(a)), lim) && Drop(h, busy, VCell(a)).Ok?
    ensures var g := Drop(h, busy, VCell(a)).value; Within(g, lim) && forall i :: lim <= i < |h| ==> g[i] == h[i]
    decreases Weight(h, busy), VCell(a), 0
  {
    assert CellH(a) in Owners(VCell(a));
    assert a <= lim;
    DropCellIs(h, busy, a);
    hide Within, UpTo, Weight, Owners, Drop;
    WithinBelow(Drop(h, busy, VCell(a)).value, h, lim);
    if h[a - 1].count == 1 {
      var v := h[a - 1].val;
      var g := h[a - 1 := CellBox(0, v)];
      LastHandle(h, a, lim);
      WeightLower(h, busy, a, v);
      WeightBusy(g, busy, a);
      DropOld(g, busy + {a}, v, lim);
    }
  }

  lemma {:induction false} DropOldAll(h: Heap, busy: set<nat>, vs: seq<Value>, lim: nat)
    requires lim <= |h| && Within(h, lim) && UpTo(OwnersAll(vs), lim) && DropAll(h, busy, vs).Ok?
    ensures var g := DropAll(h, busy, vs).value; Within(g, lim) && forall i :: lim <= i < |h| ==> g[i] == h[i]
    decreases Weight(h, busy), vs, 1
  {
    if vs != [] {
      assert forall x :: x in Owners(vs[0]) ==> x in OwnersAll(vs);
      assert forall x :: x in OwnersAll(vs[1..]) ==> x in OwnersAll(vs);
      DropOld(h, busy, vs[0], lim);
      WeightBelow(Drop(h, busy, vs[0]).value, h, busy);
      DropOldAll(Drop(h, busy, vs[0]).value, busy, vs[1..], lim);
    }
  }

  /** Dropping something old does not touch a copy just made. */
  lemma CopySurvivesDrop(n: nat, h: Heap, v: Value, old_: Value)
    requires Within(h, |h|) && UpTo(Owners(old_), |h|) && Owning(v) && Copied(h, v).Done?
    requires Drop(Copied(h, v).value.0, {}, old_).Ok?
    ensures var (g, w) := Copied(h, v).value; SameTo(n, h, v, Drop(g, {}, old_).value, w)
  {
    var (g, w) := Copied(h, v).value;
    CopyIsDeep(n, h, v);
    WithinGrown(g, h, |h|, 0);
    DropOld(g, {}, old_, |h|);
    var f := Drop(g, {}, old_).value;
    forall i | |h| <= i < |g| ensures Bumped(f[i], g[i]) {
      assert f[i] == g[i];
    }
    Stable(n, h, v, g, w, f, |h|);
  }

  /** The copy stored over what a local held. */
  lemma CopyStored(n: nat, h: Heap, v: Value, a: nat)
    requires Within(h, |h|) && Owning(v) && Copied(h, v).Done? && Emptied(Copied(h, v).value.0, a).Done?
    ensures var (g, w) := Copied(h, v).value; SameTo(n, h, v, Emptied(g, a).value[a - 1 := Storage(w, true)], w)
  {
    var (g, w) := Copied(h, v).value;
    CopyIsDeep(n, h, v);
    assert a <= |h|;
    var f := Emptied(g, a).value[a - 1 := Storage(w, true)];
    if g[a - 1].owned {
      assert Bumped(g[a - 1], h[a - 1]);
      assert UpTo(Owners(g[a - 1].val), |h|) by {
        assert Content(h[a - 1]) == Owners(g[a - 1].val);
      }
      WithinGrown(g, h, |h|, 0);
      DropOld(g, {}, g[a - 1].val, |h|);
    }
    forall i | |h| <= i < |g| ensures Bumped(f[i], g[i]) {
      assert f[i] == g[i];
    }
    Stable(n, h, v, g, w, f, |h|);
  }

  /** `x = copy p` makes `x` the value `p` had, down to any depth, on storage of
      its own, whatever `x` held before is dropped. */
  lemma AssignCopies(n: nat, w: World, f: Frame, roots: multiset<Handle>, l: nat, p: Place)
    requires Sound(w.heap, {}, roots) && l < |f.body.locals| && NeedsDrop(f.body.locals[l])
    requires Stepped(w, f, Assign(Local(l), Use(Copy(p)))).Done?
    ensures var at := Through(w.heap, f, p);
      && at.Done? && Load(w.heap, at.value.slot).Some?
      && var v, h := Load(w.heap, at.value.slot).value, Stepped(w, f, Assign(Local(l), Use(Copy(p)))).value.heap;
        && 0 < f.locals[l] <= |h| && h[f.locals[l] - 1].Storage? && h[f.locals[l] - 1].owned
        && if Owning(v) then SameTo(n, w.heap, v, h, h[f.locals[l] - 1].val) else h[f.locals[l] - 1].val == v
  {
    BalancedWithin(w.heap, roots);
    var at := Through(w.heap, f, p);
    assert Plain(w.heap, f, Local(l));
    hide Through, Sound, Clone, Drop, SameTo;
    assert at.Done? && Load(w.heap, at.value.slot).Some?;
    var v := Load(w.heap, at.value.slot).value;
    assert Copied(w.heap, v).Done?;
    var (g, x) := Copied(w.heap, v).value;
    StoreLocalThenRead(g, f, l, x);
    if Owning(v) {
      CopyStored(n, w.heap, v, f.locals[l]);
    }
  }

  /** A call result without a destination is thrown away: the world stays as it is,
      and nothing is lost if and only if the result owned nothing. */
  lemma DiscardIsClean(w: World, f: Frame, v: Value, roots: multiset<Handle>)
    requires Sound(w.heap, {}, roots + Owners(v))
    ensures Delivered(w, f, None, v) == Done(w)
    ensures Sound(w.heap, {}, roots) <==> Owners(v) == multiset{}
  {
    assert roots + multiset{} == roots && roots + Owners(v) - roots == Owners(v);
    if Sound(w.heap, {}, roots) {
      RootsUnique(w.heap, {}, roots, roots + Owners(v));
    }
  }
}
