/** What a call cannot touch: blocks that neither an owner nor a usable reference
    leads to from what the call is given. */
module Confinement {
  import opened Heaps
  import opened Mir
  import opened DropGlue
  import opened CloneGlue
  import opened Places
  import opened Semantics

  // ---------------------------------------------------------------
  // walls
  // ---------------------------------------------------------------

  /** Blocks that are walled off, and those among them a reference could enter. */
  datatype Wall = Wall(blocks: set<nat>, doors: set<nat>)

  /** Storage a reference may be followed into. */
  predicate Enterable(b: Block) {
    b.Storage? && (b.owned || !Owning(b.val))
  }

  /** No pointer in the value leads behind the wall. */
  predicate Clear(v: Value, k: Wall) {
    match v
    case VStr(a) => a !in k.blocks
    case VSlice(a) => a !in k.blocks
    case VCell(a) => a !in k.blocks
    case VRef(slot) => slot.block !in k.doors
    case VRecord(fs) => forall i :: 0 <= i < |fs| ==> Clear(fs[i], k)
    case VEnum(_, fs) => forall i :: 0 <= i < |fs| ==> Clear(fs[i], k)
    case _ => true
  }

  predicate ClearAll(vs: seq<Value>, k: Wall) {
    forall i :: 0 <= i < |vs| ==> Clear(vs[i], k)
  }

  predicate ClearBlock(b: Block, k: Wall) {
    match b
    case Elems(vs) => ClearAll(vs, k)
    case CellBox(_, v) => Clear(v, k)
    case Storage(v, _) => Clear(v, k)
    case _ => true
  }

  /** Nothing outside the wall leads behind it. */
  predicate Walled(h: Heap, k: Wall) {
    && 0 !in k.blocks && k.doors <= k.blocks
    && (forall p :: p in k.blocks ==> p <= |h|)
    && (forall p :: p in k.blocks && 0 < p <= |h| && p !in k.doors ==> !Enterable(h[p - 1]))
    && (forall i :: 0 <= i < |h| && i + 1 !in k.blocks ==> ClearBlock(h[i], k))
  }

  predicate Constant(b: Block) {
    b.Data? && b.fixed
  }

  /** What is behind the wall is as it was, and no old block became a constant. */
  predicate Spared(g: Heap, h: Heap, k: Wall) {
    && |h| <= |g|
    && (forall p :: p in k.blocks && 0 < p <= |h| ==> g[p - 1] == h[p - 1])
    && (forall i :: 0 <= i < |h| && Constant(g[i]) ==> g[i] == h[i])
  }

  /** A step that respects the wall. */
  predicate Respects(g: Heap, h: Heap, k: Wall) {
    Walled(g, k) && Spared(g, h, k)
  }

  lemma RespectsThen(f: Heap, g: Heap, h: Heap, k: Wall)
    requires Walled(h, k) && Respects(g, h, k) && Respects(f, g, k)
    ensures Respects(f, h, k)
  {
  }

  lemma RespectsSelf(h: Heap, k: Wall)
    requires Walled(h, k)
    ensures Respects(h, h, k)
  {
  }

  lemma AppendRespects(h: Heap, k: Wall, b: Block)
    requires Walled(h, k) && ClearBlock(b, k)
    ensures Respects(h + [b], h, k) && |h| + 1 !in k.blocks
  {
    hide ClearBlock, Enterable;
    var g := h + [b];
    forall i | 0 <= i < |g| && i + 1 !in k.blocks ensures ClearBlock(g[i], k) {
      if i < |h| {
        assert g[i] == h[i];
      }
    }
  }

  lemma UpdateRespects(h: Heap, k: Wall, a: nat, b: Block)
    requires Walled(h, k) && 0 < a <= |h| && a !in k.blocks && ClearBlock(b, k) && !Constant(b)
    ensures Respects(h[a - 1 := b], h, k)
  {
    hide ClearBlock, Enterable;
  }

  lemma WalledAt(h: Heap, k: Wall, a: nat)
    requires Walled(h, k) && 0 < a <= |h| && a !in k.blocks
    ensures ClearBlock(h[a - 1], k)
  {
    hide ClearBlock;
    var i := a - 1;
    assert i + 1 !in k.blocks;
  }

  // ---------------------------------------------------------------
  // parts of values
  // ---------------------------------------------------------------

  lemma {:induction false} GetClear(v: Value, path: seq<nat>, k: Wall)
    requires Clear(v, k) && Get(v, path).Some?
    ensures Clear(Get(v, path).value, k)
    decreases path
  {
    if path != [] {
      GetClear(if v.VRecord? then v.fields[path[0]] else v.payload[path[0]], path[1..], k);
    }
  }

  lemma {:induction false} PutClear(v: Value, path: seq<nat>, w: Value, k: Wall)
    requires Clear(v, k) && Clear(w, k) && Get(v, path).Some?
    ensures Clear(Put(v, path, w), k)
    decreases path
  {
    if path != [] {
      PutClear(if v.VRecord? then v.fields[path[0]] else v.payload[path[0]], path[1..], w, k);
    }
  }

  lemma RootClear(b: Block, k: Wall)
    requires ClearBlock(b, k)
    ensures Clear(Root(b), k)
  {
  }

  lemma WrittenClear(b: Block, path: seq<nat>, w: Value, k: Wall)
    requires ClearBlock(b, k) && Clear(w, k) && Get(Root(b), path).Some?
    ensures ClearBlock(Written(b, path, w), k)
  {
    RootClear(b, k);
    PutClear(Root(b), path, w, k);
  }

  lemma LoadClear(h: Heap, slot: Slot, k: Wall)
    requires Walled(h, k) && slot.block !in k.blocks && Load(h, slot).Some?
    ensures Clear(Load(h, slot).value, k)
  {
    WalledAt(h, k, slot.block);
    RootClear(h[slot.block - 1], k);
    GetClear(Root(h[slot.block - 1]), slot.path, k);
  }

  lemma {:induction false} ZeroClear(ty: Ty, k: Wall)
    requires 0 !in k.blocks && 0 !in k.doors
    ensures Clear(Zero(ty), k)
  {
    match ty
    case TRecord(ts) => ZerosClear(ts, k);
    case TEnum(vs) =>
      if |vs| > 0 {
        ZeroClear(vs[0], k);
      }
    case _ =>
  }

  lemma {:induction false} ZerosClear(ts: seq<Ty>, k: Wall)
    requires 0 !in k.blocks && 0 !in k.doors
    ensures ClearAll(Zeros(ts), k)
  {
    if ts != [] {
      ZeroClear(ts[0], k);
      ZerosClear(ts[1..], k);
    }
  }

  // ---------------------------------------------------------------
  // drop and clone glue
  // ---------------------------------------------------------------

  lemma {:induction false} DropRespects(h: Heap, busy: set<nat>, v: Value, k: Wall)
    requires Walled(h, k) && Clear(v, k) && Drop(h, busy, v).Ok?
    ensures Respects(Drop(h, busy, v).value, h, k)
    decreases Weight(h, busy), v, 1
  {
    hide Walled, Spared, Weight;
    match v
    case VStr(a) =>
      if a == 0 {
        RespectsSelf(h, k);
      } else {
        UpdateRespects(h, k, a, Freed);
      }
    case VSlice(a) => DropSliceRespects(h, busy, a, k);
    case VCell(a) => DropCellRespects(h, busy, a, k);
    case VRecord(fs) => DropAllRespects(h, busy, fs, k);
    case VEnum(_, fs) => DropAllRespects(h, busy, fs, k);
    case _ => RespectsSelf(h, k);
  }

  lemma {:induction false} DropSliceRespects(h: Heap, busy: set<nat>, a: nat, k: Wall)
    requires Walled(h, k) && a !in k.blocks && Drop(h, busy, VSlice(a)).Ok?
    ensures Respects(Drop(h, busy, VSlice(a)).value, h, k)
    decreases Weight(h, busy), VSlice(a), 0
  {
    hide Walled, Spared, Weight;
    if a == 0 {
      RespectsSelf(h, k);
    } else {
      WalledAt(h, k, a);
      WeightBusy(h, busy, a);
      var vs := h[a - 1].vals;
      DropAllRespects(h, busy + {a}, vs, k);
      var g := DropAll(h, busy + {a}, vs).value;
      UpdateRespects(g, k, a, Freed);
      RespectsThen(g[a - 1 := Freed], g, h, k);
    }
  }

  lemma {:induction false} DropCellRespects(h: Heap, busy: set<nat>, a: nat, k: Wall)
    requires Walled(h, k) && a !in k.blocks && Drop(h, busy, VCell(a)).Ok?
    ensures Respects(Drop(h, busy, VCell(a)).value, h, k)
    decreases Weight(h, busy), VCell(a), 0
  {
    hide Walled, Spared, Weight;
    if a == 0 {
      RespectsSelf(h, k);
    } else {
      WalledAt(h, k, a);
      var v := h[a - 1].val;
      var g := h[a - 1 := CellBox(h[a - 1].count - 1, v)];
      UpdateRespects(h, k, a, CellBox(h[a - 1].count - 1, v));
      if h[a - 1].count == 1 {
        WeightLower(h, busy, a, v);
        WeightBusy(g, busy, a);
        DropRespects(g, busy + {a}, v, k);
        var f := Drop(g, busy + {a}, v).value;
        UpdateRespects(f, k, a, Freed);
        RespectsThen(f, g, h, k);
        RespectsThen(f[a - 1 := Freed], f, h, k);
      }
    }
  }

  lemma {:induction false} DropAllRespects(h: Heap, busy: set<nat>, vs: seq<Value>, k: Wall)
    requires Walled(h, k) && ClearAll(vs, k) && DropAll(h, busy, vs).Ok?
    ensures Respects(DropAll(h, busy, vs).value, h, k)
    decreases Weight(h, busy), vs, 1
  {
    hide Walled, Spared, Weight;
    if vs == [] {
      RespectsSelf(h, k);
    } else {
      DropRespects(h, busy, vs[0], k);
      var g := Drop(h, busy, vs[0]).value;
      WeightBelow(g, h, busy);
      DropAllRespects(g, busy, vs[1..], k);
      RespectsThen(DropAll(g, busy, vs[1..]).value, g, h, k);
    }
  }

  lemma {:induction false} CloneRespects(h: Heap, lim: nat, stack: set<nat>, v: Value, k: Wall)
    requires lim <= |h| && Walled(h, k) && Clear(v, k) && Clone(h, lim, stack, v).Ok?
    ensures var (g, w) := Clone(h, lim, stack, v).value; Respects(g, h, k) && Clear(w, k)
    decreases Reach(h, lim, stack), 0, v, 1
  {
    hide Walled, Spared, Reach;
    match v
    case VStr(a) => AppendRespects(h, k, Data(if a == 0 then [] else h[a - 1].bytes, false));
    case VSlice(a) => CloneSliceRespects(h, lim, stack, a, k);
    case VCell(a) =>
      if a == 0 {
        RespectsSelf(h, k);
      } else {
        WalledAt(h, k, a);
        UpdateRespects(h, k, a, CellBox(h[a - 1].count + 1, h[a - 1].val));
      }
    case VRecord(fs) => CloneAllRespects(h, lim, stack, fs, k);
    case VEnum(_, fs) => CloneAllRespects(h, lim, stack, fs, k);
    case _ => RespectsSelf(h, k);
  }

  lemma {:induction false} CloneSliceRespects(h: Heap, lim: nat, stack: set<nat>, a: nat, k: Wall)
    requires lim <= |h| && Walled(h, k) && a !in k.blocks && Clone(h, lim, stack, VSlice(a)).Ok?
    ensures var (g, w) := Clone(h, lim, stack, VSlice(a)).value; Respects(g, h, k) && Clear(w, k)
    decreases Reach(h, lim, stack), 0, VSlice(a), 0
  {
    if a == 0 {
      AppendRespects(h, k, Elems([]));
    } else {
      WalledAt(h, k, a);
      hide Walled, Spared;
      var g := h + [Elems(h[a - 1].vals)];
      AppendRespects(h, k, Elems(h[a - 1].vals));
      assert a in Reach(h, lim, stack) && a !in Reach(g, lim, stack + {a});
      CloneIntoRespects(g, lim, stack + {a}, |g|, 0, k);
      RespectsThen(CloneInto(g, lim, stack + {a}, |g|, 0).value, g, h, k);
    }
  }

  lemma {:induction false} CloneAllRespects(h: Heap, lim: nat, stack: set<nat>, vs: seq<Value>, k: Wall)
    requires lim <= |h| && Walled(h, k) && ClearAll(vs, k) && CloneAll(h, lim, stack, vs).Ok?
    ensures var (g, ws) := CloneAll(h, lim, stack, vs).value; Respects(g, h, k) && ClearAll(ws, k)
    decreases Reach(h, lim, stack), 0, vs, 1
  {
    hide Walled, Spared;
    if vs == [] {
      RespectsSelf(h, k);
    } else {
      CloneRespects(h, lim, stack, vs[0], k);
      var (g, w) := Clone(h, lim, stack, vs[0]).value;
      assert Reach(g, lim, stack) == Reach(h, lim, stack);
      CloneAllRespects(g, lim, stack, vs[1..], k);
      RespectsThen(CloneAll(g, lim, stack, vs[1..]).value.0, g, h, k);
    }
  }

  lemma {:induction false} CloneIntoRespects(h: Heap, lim: nat, stack: set<nat>, copy: nat, i: nat, k: Wall)
    requires lim < copy <= |h| && h[copy - 1].Elems? && i <= |h[copy - 1].vals| && copy !in k.blocks
    requires Walled(h, k) && CloneInto(h, lim, stack, copy, i).Ok?
    ensures Respects(CloneInto(h, lim, stack, copy, i).value, h, k)
    decreases Reach(h, lim, stack), 1 + |h[copy - 1].vals| - i
  {
    hide Walled, Spared;
    var vs := h[copy - 1].vals;
    if i == |vs| {
      RespectsSelf(h, k);
    } else {
      WalledAt(h, k, copy);
      CloneRespects(h, lim, stack, vs[i], k);
      var (f, w) := Clone(h, lim, stack, vs[i]).value;
      var g := f[copy - 1 := Elems(vs[i := w])];
      assert Reach(g, lim, stack) == Reach(h, lim, stack) by {
        GrownSame(f, h, 0, copy);
      }
      UpdateRespects(f, k, copy, Elems(vs[i := w]));
      CloneIntoRespects(g, lim, stack, copy, i + 1, k);
      RespectsThen(g, f, h, k);
      RespectsThen(CloneInto(g, lim, stack, copy, i + 1).value, g, h, k);
    }
  }

  // ---------------------------------------------------------------
  // places
  // ---------------------------------------------------------------

  /** The frame's locals are outside the wall. */
  predicate Outside(f: Frame, k: Wall) {
    forall l :: 0 <= l < |f.locals| ==> f.locals[l] !in k.blocks
  }

  lemma TargetOutside(h: Heap, slot: Slot, k: Wall)
    requires Walled(h, k) && slot.block !in k.doors && Target(h, slot).Done?
    ensures Target(h, slot).value.slot.block !in k.blocks
  {
    assert Enterable(h[slot.block - 1]);
  }

  lemma LocalClear(h: Heap, f: Frame, l: nat, k: Wall)
    requires Walled(h, k) && Outside(f, k) && Usable(h, f.locals, f.body.locals, l).Done?
    ensures var a := Usable(h, f.locals, f.body.locals, l).value; a == f.locals[l] && a !in k.blocks && Clear(h[a - 1].val, k)
  {
    WalledAt(h, k, f.locals[l]);
  }

  lemma {:induction false} ResolveOutside(h: Heap, f: Frame, p: Place, k: Wall)
    requires Walled(h, k) && Outside(f, k) && Resolve(h, f.locals, f.body.locals, p).Done?
    ensures Resolve(h, f.locals, f.body.locals, p).value.slot.block !in k.blocks
    decreases p
  {
    hide Walled, Outside, Target, Load, IndexValue, Items;
    match p
    case Local(l) =>
      LocalClear(h, f, l, k);
      var a := Usable(h, f.locals, f.body.locals, l).value;
      if h[a - 1].val.VRef? {
        TargetOutside(h, h[a - 1].val.slot, k);
      }
    case Deref(l) =>
      LocalClear(h, f, l, k);
      TargetOutside(h, h[f.locals[l] - 1].val.slot, k);
    case Field(base, _) => ResolveOutside(h, f, base, k);
    case VariantField(base, _, _) => ResolveOutside(h, f, base, k);
    case Index(base, _) =>
      ResolveOutside(h, f, base, k);
      LoadClear(h, Resolve(h, f.locals, f.body.locals, base).value.slot, k);
  }

  lemma WhereOutside(h: Heap, f: Frame, p: Place, k: Wall)
    requires Walled(h, k) && Outside(f, k) && Where(h, f, p).Done?
    ensures Where(h, f, p).value.slot.block !in k.blocks
  {
    hide Walled, Outside;
    if p.Local? {
      LocalClear(h, f, p.local, k);
    } else {
      ResolveOutside(h, f, p, k);
    }
  }

  lemma ThroughOutside(h: Heap, f: Frame, p: Place, k: Wall)
    requires Walled(h, k) && Outside(f, k) && Through(h, f, p).Done?
    ensures Through(h, f, p).value.slot.block !in k.blocks
  {
    hide Walled, Outside, Where, Target, Load;
    WhereOutside(h, f, p, k);
    var slot := Where(h, f, p).value.slot;
    if Load(h, slot).Some? {
      LoadClear(h, slot, k);
      if Load(h, slot).value.VRef? {
        TargetOutside(h, Load(h, slot).value.slot, k);
      }
    }
  }

  // ---------------------------------------------------------------
  // operands
  // ---------------------------------------------------------------

  lemma CopiedRespects(h: Heap, v: Value, k: Wall)
    requires Walled(h, k) && Clear(v, k) && Copied(h, v).Done?
    ensures var (g, w) := Copied(h, v).value; Respects(g, h, k) && Clear(w, k)
  {
    hide Walled, Spared, Clone;
    if Owning(v) {
      CloneRespects(h, |h|, {}, v, k);
    } else {
      RespectsSelf(h, k);
    }
  }

  lemma CopyOfRespects(h: Heap, f: Frame, p: Place, deref: bool, k: Wall)
    requires Walled(h, k) && Outside(f, k) && CopyOf(h, f, p, deref).Done?
    ensures var (g, w) := CopyOf(h, f, p, deref).value; Respects(g, h, k) && Clear(w, k)
  {
    hide Walled, Spared, Outside, Where, Through, Copied, Load;
    var r := if deref then Through(h, f, p) else Where(h, f, p);
    if deref {
      ThroughOutside(h, f, p, k);
    } else {
      WhereOutside(h, f, p, k);
    }
    LoadClear(h, r.value.slot, k);
    CopiedRespects(h, Load(h, r.value.slot).value, k);
  }

  lemma MovedRespects(h: Heap, f: Frame, l: nat, deref: bool, k: Wall)
    requires Walled(h, k) && Outside(f, k) && Moved(h, f, l, deref).Done?
    ensures var (g, w) := Moved(h, f, l, deref).value; Respects(g, h, k) && Clear(w, k)
  {
    hide Walled, Spared, Outside, CopyOf;
    LocalClear(h, f, l, k);
    var a := f.locals[l];
    RespectsSelf(h, k);
    if deref && h[a - 1].val.VRef? {
      CopyOfRespects(h, f, Local(l), true, k);
    } else if NeedsDrop(f.body.locals[l]) {
      UpdateRespects(h, k, a, Storage(h[a - 1].val, false));
    }
  }

  lemma InternedRespects(w: World, text: seq<nat>, k: Wall)
    requires Walled(w.heap, k)
    ensures Respects(Interned(w, text).0.heap, w.heap, k)
  {
    hide Walled, Spared;
    if text in w.statics {
      RespectsSelf(w.heap, k);
    } else {
      AppendRespects(w.heap, k, Data(text, true));
    }
  }

  /** A copy of a constant is a new string. */
  lemma ConstantRespects(h: Heap, a: nat, k: Wall)
    requires Walled(h, k) && Copied(h, VStr(a)).Done?
    ensures var (g, w) := Copied(h, VStr(a)).value; Respects(g, h, k) && Clear(w, k)
  {
    AppendRespects(h, k, Data(if a == 0 then [] else h[a - 1].bytes, false));
  }

  lemma TakenRespects(w: World, f: Frame, op: Operand, deref: bool, k: Wall)
    requires Walled(w.heap, k) && Outside(f, k) && Taken(w, f, op, deref).Done?
    ensures var (w', v) := Taken(w, f, op, deref).value; Respects(w'.heap, w.heap, k) && Clear(v, k)
  {
    RespectsSelf(w.heap, k);
    hide Walled, Spared, Outside, CopyOf, Moved, Copied, Interned;
    match op
    case ConstInt(_) =>
    case ConstUnit =>
    case ConstStr(text) =>
      var (w1, a) := Interned(w, text);
      InternedRespects(w, text, k);
      ConstantRespects(w1.heap, a, k);
      RespectsThen(Copied(w1.heap, VStr(a)).value.0, w1.heap, w.heap, k);
    case Copy(p) => CopyOfRespects(w.heap, f, p, deref, k);
    case Move(p) =>
      if p.Local? {
        MovedRespects(w.heap, f, p.local, deref, k);
      } else {
        CopyOfRespects(w.heap, f, p, deref, k);
      }
  }

  lemma {:induction false} TakenAllRespects(w: World, f: Frame, ops: seq<Operand>, k: Wall)
    requires Walled(w.heap, k) && Outside(f, k) && TakenAll(w, f, ops).Done?
    ensures var (w', vs) := TakenAll(w, f, ops).value; Respects(w'.heap, w.heap, k) && ClearAll(vs, k)
    decreases |ops|
  {
    RespectsSelf(w.heap, k);
    hide Walled, Spared, Outside, Taken;
    if ops != [] {
      TakenRespects(w, f, ops[0], false, k);
      var w1 := Taken(w, f, ops[0], false).value.0;
      TakenAllRespects(w1, f, ops[1..], k);
      RespectsThen(TakenAll(w1, f, ops[1..]).value.0.heap, w1.heap, w.heap, k);
    }
  }

  // ---------------------------------------------------------------
  // dropping and writing
  // ---------------------------------------------------------------

  lemma EmptiedRespects(h: Heap, a: nat, k: Wall)
    requires Walled(h, k) && a !in k.blocks && Emptied(h, a).Done?
    ensures Respects(Emptied(h, a).value, h, k)
  {
    hide Walled, Spared, Drop;
    if h[a - 1].owned {
      WalledAt(h, k, a);
      DropRespects(h, {}, h[a - 1].val, k);
      var g := Drop(h, {}, h[a - 1].val).value;
      UpdateRespects(g, k, a, Storage(h[a - 1].val, false));
      RespectsThen(Emptied(h, a).value, g, h, k);
    } else {
      RespectsSelf(h, k);
    }
  }

  lemma {:induction false} EmptiedAllRespects(h: Heap, locals: seq<nat>, k: Wall)
    requires Walled(h, k) && EmptiedAll(h, locals).Done? && forall l :: 0 <= l < |locals| ==> locals[l] !in k.blocks
    ensures Respects(EmptiedAll(h, locals).value, h, k)
    decreases |locals|
  {
    hide Walled, Spared, Emptied;
    if locals == [] {
      RespectsSelf(h, k);
    } else {
      var n := |locals| - 1;
      EmptiedRespects(h, locals[n], k);
      var g := Emptied(h, locals[n]).value;
      EmptiedAllRespects(g, locals[..n], k);
      RespectsThen(EmptiedAll(g, locals[..n]).value, g, h, k);
    }
  }

  lemma StoredLocalRespects(h: Heap, f: Frame, l: nat, v: Value, k: Wall)
    requires Walled(h, k) && Outside(f, k) && Clear(v, k) && StoredLocal(h, f, l, v).Done?
    ensures Respects(StoredLocal(h, f, l, v).value, h, k)
  {
    var a := f.locals[l];
    EmptiedRespects(h, a, k);
    var g := Emptied(h, a).value;
    EmptiedStorage(h, a);
    hide Walled, Spared, Emptied, Outside;
    UpdateRespects(g, k, a, Storage(v, NeedsDrop(f.body.locals[l])));
    RespectsThen(StoredLocal(h, f, l, v).value, g, h, k);
  }

  lemma EmptiedStorage(h: Heap, a: nat)
    requires Emptied(h, a).Done?
    ensures 0 < a <= |h| && |Emptied(h, a).value| == |h|
  {
  }

  lemma StoredAtRespects(h: Heap, slot: Slot, v: Value, k: Wall)
    requires Walled(h, k) && slot.block !in k.blocks && Clear(v, k) && StoredAt(h, slot, v).Done?
    ensures Respects(StoredAt(h, slot, v).value, h, k)
  {
    LoadClear(h, slot, k);
    WalledAt(h, k, slot.block);
    WrittenClear(h[slot.block - 1], slot.path, v, k);
    hide Walled, Spared, Drop, ClearBlock, Written;
    var u := Load(h, slot).value;
    DropRespects(h, {}, u, k);
    var g := Drop(h, {}, u).value;
    UpdateRespects(g, k, slot.block, Written(h[slot.block - 1], slot.path, v));
    RespectsThen(StoredAt(h, slot, v).value, g, h, k);
  }

  lemma StoredRespects(h: Heap, f: Frame, p: Place, v: Value, k: Wall)
    requires Walled(h, k) && Outside(f, k) && Clear(v, k) && Stored(h, f, p, v).Done?
    ensures Respects(Stored(h, f, p, v).value, h, k)
  {
    hide Walled, Spared, Outside, StoredLocal, StoredAt, Where;
    if p.Local? {
      StoredLocalRespects(h, f, p.local, v, k);
    } else {
      WhereOutside(h, f, p, k);
      StoredAtRespects(h, Where(h, f, p).value.slot, v, k);
    }
  }

  // ---------------------------------------------------------------
  // rvalues, statements and built-ins
  // ---------------------------------------------------------------

  lemma StringOfRespects(w: World, f: Frame, op: Operand, k: Wall)
    requires Walled(w.heap, k) && StringOf(w, f, op).Done?
    ensures Respects(StringOf(w, f, op).value.0.heap, w.heap, k)
  {
    RespectsSelf(w.heap, k);
    hide Walled, Spared, Interned, Through;
    if op.ConstStr? {
      InternedRespects(w, op.bytes, k);
    }
  }

  lemma ConcatenatedRespects(w: World, f: Frame, left: Operand, right: Operand, k: Wall)
    requires Walled(w.heap, k) && Concatenated(w, f, left, right).Done?
    ensures var (w', v) := Concatenated(w, f, left, right).value; Respects(w'.heap, w.heap, k) && Clear(v, k)
  {
    hide Walled, Spared, StringOf;
    StringOfRespects(w, f, left, k);
    var x := StringOf(w, f, left).value;
    StringOfRespects(x.0, f, right, k);
    var y := StringOf(x.0, f, right).value;
    AppendRespects(y.0.heap, k, Data(x.1 + y.1, false));
    RespectsThen(y.0.heap, x.0.heap, w.heap, k);
    RespectsThen(Concatenated(w, f, left, right).value.0.heap, y.0.heap, w.heap, k);
  }

  lemma DoorsInside(h: Heap, k: Wall, a: nat)
    requires Walled(h, k) && a !in k.blocks
    ensures a !in k.doors
  {
  }

  lemma EvaluatedRespects(w: World, f: Frame, rvalue: Rvalue, deref: bool, k: Wall)
    requires Walled(w.heap, k) && Outside(f, k) && Evaluated(w, f, rvalue, deref).Done?
    ensures var (w', v) := Evaluated(w, f, rvalue, deref).value; Respects(w'.heap, w.heap, k) && Clear(v, k)
  {
    RespectsSelf(w.heap, k);
    hide Walled, Spared, Outside, Taken, TakenAll, Concatenated, Where, Through, Load, Measured;
    match rvalue
    case Use(op) => TakenRespects(w, f, op, deref, k);
    case Ref(p) =>
      WhereOutside(w.heap, f, p, k);
      DoorsInside(w.heap, k, Where(w.heap, f, p).value.slot.block);
    case Record(ops) => TakenAllRespects(w, f, ops, k);
    case Variant(_, ops) => TakenAllRespects(w, f, ops, k);
    case SliceLen(p) => MeasuredClear(w.heap, Load(w.heap, Through(w.heap, f, p).value.slot).value, k);
    case Discriminant(_) =>
    case Concat(left, right) => ConcatenatedRespects(w, f, left, right, k);
  }

  lemma MeasuredClear(h: Heap, v: Value, k: Wall)
    ensures Measured(h, v).Done? ==> Clear(Measured(h, v).value, k)
  {
  }

  lemma SteppedRespects(w: World, f: Frame, s: Statement, k: Wall)
    requires Walled(w.heap, k) && Outside(f, k) && Stepped(w, f, s).Done?
    ensures Respects(Stepped(w, f, s).value.heap, w.heap, k)
  {
    RespectsSelf(w.heap, k);
    match s
    case Assign(p, rvalue) =>
      hide Walled, Spared, Outside, Evaluated, Stored, Plain;
      if !(p.Local? && p.local < |f.body.locals| && f.body.locals[p.local].TUnit?) {
        var deref := Plain(w.heap, f, p);
        EvaluatedRespects(w, f, rvalue, deref, k);
        var (w1, v) := Evaluated(w, f, rvalue, deref).value;
        StoredRespects(w1.heap, f, p, v, k);
        RespectsThen(Stored(w1.heap, f, p, v).value, w1.heap, w.heap, k);
      }
    case DropLocal(l) => EmptiedRespects(w.heap, f.locals[l], k);
  }

  lemma CellOutside(h: Heap, f: Frame, op: Operand, k: Wall)
    requires Walled(h, k) && Outside(f, k) && CellOf(h, f, op).Done?
    ensures CellOf(h, f, op).value !in k.blocks && Clear(h[CellOf(h, f, op).value - 1].val, k)
  {
    hide Walled, Outside, Through, Load;
    ThroughOutside(h, f, op.place, k);
    LoadClear(h, Through(h, f, op.place).value.slot, k);
    WalledAt(h, k, CellOf(h, f, op).value);
  }

  lemma MadeCellRespects(w: World, f: Frame, arg: Operand, k: Wall)
    requires Walled(w.heap, k) && Outside(f, k) && MadeCell(w, f, arg).Done?
    ensures var (w', v) := MadeCell(w, f, arg).value; Respects(w'.heap, w.heap, k) && Clear(v, k)
  {
    hide Walled, Spared, Outside, Taken;
    var c := |w.heap| + 1;
    var w1 := w.(heap := w.heap + [CellBox(1, VUnit)]);
    AppendRespects(w.heap, k, CellBox(1, VUnit));
    TakenRespects(w1, f, arg, false, k);
    var (w2, v) := Taken(w1, f, arg, false).value;
    UpdateRespects(w2.heap, k, c, CellBox(w2.heap[c - 1].count, v));
    RespectsThen(w2.heap, w1.heap, w.heap, k);
    RespectsThen(MadeCell(w, f, arg).value.0.heap, w2.heap, w.heap, k);
  }

  lemma SetInCellRespects(w: World, f: Frame, cell: Operand, arg: Operand, k: Wall)
    requires Walled(w.heap, k) && Outside(f, k) && SetInCell(w, f, cell, arg).Done?
    ensures Respects(SetInCell(w, f, cell, arg).value.heap, w.heap, k)
  {
    hide Walled, Spared, Outside, Taken, CellOf, Drop;
    var c := CellOf(w.heap, f, cell).value;
    CellOutside(w.heap, f, cell, k);
    TakenRespects(w, f, arg, false, k);
    var (w1, v) := Taken(w, f, arg, false).value;
    WalledAt(w1.heap, k, c);
    var b := w1.heap[c - 1];
    var h := w1.heap[c - 1 := CellBox(b.count, v)];
    UpdateRespects(w1.heap, k, c, CellBox(b.count, v));
    DropRespects(h, {}, b.val, k);
    RespectsThen(h, w1.heap, w.heap, k);
    RespectsThen(Drop(h, {}, b.val).value, h, w.heap, k);
  }

  lemma BuiltRespects(w: World, f: Frame, op: Builtin, wanted: bool, k: Wall)
    requires Walled(w.heap, k) && Outside(f, k) && Built(w, f, op, wanted).Done?
    ensures var (w', v) := Built(w, f, op, wanted).value; Respects(w'.heap, w.heap, k) && (v.Some? ==> Clear(v.value, k))
  {
    RespectsSelf(w.heap, k);
    hide Walled, Spared, Outside, CellOf, MadeCell, SetInCell, IntOf, Clone, Zero;
    match op
    case CellNew(arg) => MadeCellRespects(w, f, arg, k);
    case CellGet(cell) => GetRespects(w, f, cell, wanted, k);
    case CellSet(cell, arg) => SetInCellRespects(w, f, cell, arg, k);
    case CellClone(cell) => ShareRespects(w, f, cell, wanted, k);
    case StrongCount(_) =>
    case SliceOfZeros(elem, len) => ZerosRespect(w.heap, elem, IntOf(w.heap, f, len).value, k);
  }

  lemma GetRespects(w: World, f: Frame, cell: Operand, wanted: bool, k: Wall)
    requires Walled(w.heap, k) && Outside(f, k) && Built(w, f, CellGet(cell), wanted).Done?
    ensures var (w', v) := Built(w, f, CellGet(cell), wanted).value; Respects(w'.heap, w.heap, k) && (v.Some? ==> Clear(v.value, k))
  {
    RespectsSelf(w.heap, k);
    hide Walled, Spared, Outside, CellOf, Clone;
    CellOutside(w.heap, f, cell, k);
    if wanted {
      CloneRespects(w.heap, |w.heap|, {}, w.heap[CellOf(w.heap, f, cell).value - 1].val, k);
    }
  }

  lemma ShareRespects(w: World, f: Frame, cell: Operand, wanted: bool, k: Wall)
    requires Walled(w.heap, k) && Outside(f, k) && Built(w, f, CellClone(cell), wanted).Done?
    ensures var (w', v) := Built(w, f, CellClone(cell), wanted).value; Respects(w'.heap, w.heap, k) && (v.Some? ==> Clear(v.value, k))
  {
    hide Walled, Spared, Outside, CellOf;
    CellOutside(w.heap, f, cell, k);
    var c := CellOf(w.heap, f, cell).value;
    UpdateRespects(w.heap, k, c, CellBox(w.heap[c - 1].count + 1, w.heap[c - 1].val));
  }

  lemma ZerosRespect(h: Heap, elem: Ty, n: nat, k: Wall)
    requires Walled(h, k)
    ensures Respects(h + [Elems(seq(n, _ => Zero(elem)))], h, k) && |h| + 1 !in k.blocks
  {
    ZeroClear(elem, k);
    AppendRespects(h, k, Elems(seq(n, _ => Zero(elem))));
  }

  // ---------------------------------------------------------------
  // calls
  // ---------------------------------------------------------------

  lemma ArgOfRespects(w: World, f: Frame, arg: Operand, param: Ty, k: Wall)
    requires Walled(w.heap, k) && Outside(f, k) && ArgOf(w, f, arg, param).Done?
    ensures var (w', v) := ArgOf(w, f, arg, param).value; Respects(w'.heap, w.heap, k) && Clear(v, k)
  {
    RespectsSelf(w.heap, k);
    hide Walled, Spared, Outside, Taken, Where, Load;
    if !param.TBorrow? {
      TakenRespects(w, f, arg, true, k);
    } else {
      WhereOutside(w.heap, f, arg.place, k);
      var slot := Where(w.heap, f, arg.place).value.slot;
      DoorsInside(w.heap, k, slot.block);
      if Load(w.heap, slot).Some? {
        LoadClear(w.heap, slot, k);
      }
    }
  }

  lemma {:induction false} ArgsOfRespects(w: World, f: Frame, args: seq<Operand>, params: seq<Ty>, k: Wall)
    requires |args| <= |params| && Walled(w.heap, k) && Outside(f, k) && ArgsOf(w, f, args, params).Done?
    ensures var (w', vs) := ArgsOf(w, f, args, params).value; Respects(w'.heap, w.heap, k) && ClearAll(vs, k)
    decreases |args|
  {
    RespectsSelf(w.heap, k);
    hide Walled, Spared, Outside, ArgOf;
    if args != [] {
      ArgOfRespects(w, f, args[0], params[0], k);
      var w1 := ArgOf(w, f, args[0], params[0]).value.0;
      ArgsOfRespects(w1, f, args[1..], params[1..], k);
      RespectsThen(ArgsOf(w1, f, args[1..], params[1..]).value.0.heap, w1.heap, w.heap, k);
    }
  }

  lemma {:induction false} ReceivedRespects(h: Heap, f: Frame, args: seq<Value>, i: nat, k: Wall)
    requires i <= |args| && Walled(h, k) && Outside(f, k) && ClearAll(args, k) && Received(h, f, args, i).Done?
    ensures Respects(Received(h, f, args, i).value, h, k)
    decreases |args| - i
  {
    if i == |args| {
      RespectsSelf(h, k);
    } else {
      var a := f.locals[i];
      var g := h[a - 1 := Storage(args[i], NeedsDrop(f.body.locals[i]))];
      assert a !in k.blocks && Clear(args[i], k);
      hide Walled, Spared, Outside, ClearAll;
      UpdateRespects(h, k, a, Storage(args[i], NeedsDrop(f.body.locals[i])));
      ReceivedRespects(g, f, args, i + 1, k);
      RespectsThen(Received(g, f, args, i + 1).value, g, h, k);
    }
  }

  lemma {:induction false} FreedAllRespects(h: Heap, locals: seq<nat>, k: Wall)
    requires Walled(h, k) && FreedAll(h, locals).Done? && forall l :: 0 <= l < |locals| ==> locals[l] !in k.blocks
    ensures Respects(FreedAll(h, locals).value, h, k)
    decreases |locals|
  {
    RespectsSelf(h, k);
    hide Walled, Spared;
    if locals != [] {
      var g := Free(h, locals[0]).value;
      if locals[0] != 0 {
        UpdateRespects(h, k, locals[0], Freed);
      }
      FreedAllRespects(g, locals[1..], k);
      RespectsThen(FreedAll(g, locals[1..]).value, g, h, k);
    }
  }

  lemma FreshRespects(h: Heap, body: Body, k: Wall)
    requires Walled(h, k)
    ensures Respects(h + Fresh(body.locals), h, k) && Outside(NewFrame(h, body), k)
  {
    var g := h + Fresh(body.locals);
    forall i | 0 <= i < |g| && i + 1 !in k.blocks ensures ClearBlock(g[i], k) {
      if i < |h| {
        assert g[i] == h[i];
      } else {
        ZeroClear(body.locals[i - |h|], k);
      }
    }
  }

  lemma ReturnedRespects(w: World, f: Frame, op: Operand, k: Wall)
    requires Walled(w.heap, k) && Outside(f, k) && Returned(w, f, op).Done?
    ensures var (w', v) := Returned(w, f, op).value; Respects(w'.heap, w.heap, k) && Clear(v, k)
  {
    if f.body.returnTy.TUnit? {
      EmptiedAllRespects(w.heap, f.locals, k);
    } else {
      var t := Taken(w, f, op, !f.body.returnTy.TBorrow?);
      TakenRespects(w, f, op, !f.body.returnTy.TBorrow?, k);
      var (w1, v) := t.value;
      EmptiedAllRespects(w1.heap, f.locals, k);
      hide Walled, Spared, Outside, Taken, EmptiedAll;
      RespectsThen(EmptiedAll(w1.heap, f.locals).value, w1.heap, w.heap, k);
    }
  }

  lemma DeliveredRespects(w: World, f: Frame, destination: Option<Place>, v: Value, k: Wall)
    requires Walled(w.heap, k) && Outside(f, k) && Clear(v, k) && Delivered(w, f, destination, v).Done?
    ensures Respects(Delivered(w, f, destination, v).value.heap, w.heap, k)
  {
    RespectsSelf(w.heap, k);
    hide Walled, Spared, Outside, Stored;
    if destination.Some? {
      StoredRespects(w.heap, f, destination.value, v, k);
    }
  }

  lemma RanNext(w: World, f: Frame, limits: Limits, n: nat, ss: seq<Statement>)
    requires ss != [] && Ran(w, f, limits, n, ss).Done?
    ensures var s := Stepped(w, f, ss[0]); s.Done? && Ran(w, f, limits, n, ss) == Ran(s.value, f, limits, n + 1, ss[1..])
  {
    hide Stepped;
  }

  lemma {:induction false} RanRespects(w: World, f: Frame, limits: Limits, n: nat, ss: seq<Statement>, k: Wall)
    requires Walled(w.heap, k) && Outside(f, k) && Ran(w, f, limits, n, ss).Done?
    ensures Respects(Ran(w, f, limits, n, ss).value.0.heap, w.heap, k)
    decreases |ss|
  {
    RespectsSelf(w.heap, k);
    hide Walled, Spared, Outside, Stepped;
    if ss != [] {
      SteppedRespects(w, f, ss[0], k);
      var w1 := Stepped(w, f, ss[0]).value;
      RanNext(w, f, limits, n, ss);
      hide Ran;
      RanRespects(w1, f, limits, n + 1, ss[1..], k);
      RespectsThen(Ran(w1, f, limits, n + 1, ss[1..]).value.0.heap, w1.heap, w.heap, k);
    }
  }

  lemma {:induction false} EndedRespects(program: map<string, Body>, limits: Limits, depth: nat, w: World, f: Frame, n: nat, t: Terminator, k: Wall)
    requires n <= limits.budget && Walled(w.heap, k) && Outside(f, k) && Ended(program, limits, depth, w, f, n, t).Done?
    ensures var r := Ended(program, limits, depth, w, f, n, t).value;
      Respects(r.0.heap, w.heap, k) && (r.2.Finish? ==> Clear(r.2.value, k))
    decreases limits.budget - n, 4
  {
    RespectsSelf(w.heap, k);
    hide Walled, Spared, Outside, IntOf, Called, Delivered, Built, Returned;
    match t
    case Goto(_) =>
    case SwitchInt(_, _, _) =>
    case Call(name, args, destination, _) =>
      CalledRespects(program, limits, depth, w, f, n, name, args, k);
      var c := Called(program, limits, depth, w, f, n, name, args).value;
      DeliveredRespects(c.0, f, destination, c.2, k);
      RespectsThen(Delivered(c.0, f, destination, c.2).value.heap, c.0.heap, w.heap, k);
    case CallBuiltin(op, destination, _) =>
      BuiltRespects(w, f, op, destination.Some?, k);
      var c := Built(w, f, op, destination.Some?).value;
      if c.1.Some? {
        DeliveredRespects(c.0, f, destination, c.1.value, k);
        RespectsThen(Delivered(c.0, f, destination, c.1.value).value.heap, c.0.heap, w.heap, k);
      }
    case Return(op) => ReturnedRespects(w, f, op, k);
  }

  lemma {:induction false} FlowedRespects(program: map<string, Body>, limits: Limits, depth: nat, w: World, f: Frame, n: nat, block: nat, k: Wall)
    requires n <= limits.budget && Walled(w.heap, k) && Outside(f, k) && Flowed(program, limits, depth, w, f, n, block).Done?
    ensures var r := Flowed(program, limits, depth, w, f, n, block).value; Respects(r.0.heap, w.heap, k) && Clear(r.2, k)
    decreases limits.budget - n, 0
  {
    hide Walled, Spared, Outside, Ran, Ended;
    var b := f.body.blocks[block];
    RanRespects(w, f, limits, n, b.statements, k);
    var r := Ran(w, f, limits, n, b.statements).value;
    EndedRespects(program, limits, depth, r.0, f, r.1 + 1, b.terminator, k);
    var e := Ended(program, limits, depth, r.0, f, r.1 + 1, b.terminator).value;
    RespectsThen(e.0.heap, r.0.heap, w.heap, k);
    if e.2.Next? {
      FlowedRespects(program, limits, depth, e.0, f, e.1, e.2.block, k);
      RespectsThen(Flowed(program, limits, depth, e.0, f, e.1, e.2.block).value.0.heap, e.0.heap, w.heap, k);
    }
  }

  lemma {:induction false} FramedRespects(program: map<string, Body>, limits: Limits, depth: nat, w: World, f: Frame, n: nat, args: seq<Value>, k: Wall)
    requires n <= limits.budget && Walled(w.heap, k) && Outside(f, k) && ClearAll(args, k) && Framed(program, limits, depth, w, f, n, args).Done?
    ensures var r := Framed(program, limits, depth, w, f, n, args).value; Respects(r.0.heap, w.heap, k) && Clear(r.2, k)
    decreases limits.budget - n, 1
  {
    hide Walled, Spared, Outside, ClearAll, Received, Flowed;
    ReceivedRespects(w.heap, f, args, 0, k);
    var w1 := w.(heap := Received(w.heap, f, args, 0).value);
    FlowedRespects(program, limits, depth, w1, f, n, 0, k);
    RespectsThen(Flowed(program, limits, depth, w1, f, n, 0).value.0.heap, w1.heap, w.heap, k);
  }

  /** A call given nothing that leads behind the wall leaves what is there as it
      was, and gives back nothing that leads there. */
  lemma {:induction false} InvokedRespects(program: map<string, Body>, limits: Limits, depth: nat, w: World, n: nat, name: string, args: seq<Value>, k: Wall)
    requires n <= limits.budget && Walled(w.heap, k) && ClearAll(args, k) && Invoked(program, limits, depth, w, n, name, args).Done?
    ensures var r := Invoked(program, limits, depth, w, n, name, args).value; Respects(r.0.heap, w.heap, k) && Clear(r.2, k)
    decreases limits.budget - n, 2
  {
    var body := program[name];
    var f := NewFrame(w.heap, body);
    var w1 := w.(heap := w.heap + Fresh(body.locals));
    FreshRespects(w.heap, body, k);
    assert forall l :: 0 <= l < |f.locals| ==> f.locals[l] !in k.blocks;
    hide Walled, Spared, Outside, ClearAll, Framed, FreedAll, NewFrame, Fresh;
    FramedRespects(program, limits, depth + 1, w1, f, n, args, k);
    var r := Framed(program, limits, depth + 1, w1, f, n, args).value;
    FreedAllRespects(r.0.heap, f.locals, k);
    RespectsThen(r.0.heap, w1.heap, w.heap, k);
    RespectsThen(FreedAll(r.0.heap, f.locals).value, r.0.heap, w.heap, k);
  }

  lemma {:induction false} CalledRespects(program: map<string, Body>, limits: Limits, depth: nat, w: World, f: Frame, n: nat, name: string, args: seq<Operand>, k: Wall)
    requires n <= limits.budget && Walled(w.heap, k) && Outside(f, k) && Called(program, limits, depth, w, f, n, name, args).Done?
    ensures var r := Called(program, limits, depth, w, f, n, name, args).value; Respects(r.0.heap, w.heap, k) && Clear(r.2, k)
    decreases limits.budget - n, 3
  {
    hide Walled, Spared, Outside, ClearAll, ArgsOf, Invoked;
    ArgsOfRespects(w, f, args, program[name].locals, k);
    var (w1, vs) := ArgsOf(w, f, args, program[name].locals).value;
    InvokedRespects(program, limits, depth, w1, n, name, vs, k);
    RespectsThen(Invoked(program, limits, depth, w1, n, name, vs).value.0.heap, w1.heap, w.heap, k);
  }
}
