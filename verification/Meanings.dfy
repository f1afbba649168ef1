/** What programs mean, said of what memory holds and not of how it is found: the
    value each place, operand, rvalue and built-in stands for, and where control
    goes. */
module Meanings {
  import opened Heaps
  import opened Mir
  import opened DropGlue
  import opened CloneGlue
  import opened Places
  import opened Semantics
  import opened Laws

  // ---------------------------------------------------------------
  // places
  // ---------------------------------------------------------------

  /** A place is there and holds `v`. */
  predicate PlaceHolds(h: Heap, f: Frame, p: Place, v: Value) {
    Where(h, f, p).Done? && Load(h, Where(h, f, p).value.slot) == Some(v)
  }

  /** What a path through `p` starts from: what the place holds, or what the
      reference in a local refers to. */
  predicate PathFrom(h: Heap, f: Frame, p: Place, v: Value) {
    var r := Resolve(h, f.locals, f.body.locals, p);
    r.Done? && Load(h, r.value.slot) == Some(v)
  }

  lemma {:induction false} GetPart(v: Value, path: seq<nat>, i: nat)
    requires Get(v, path).Some?
    ensures var w := Get(v, path).value;
      && (w.VRecord? && i < |w.fields| ==> Get(v, path + [i]) == Some(w.fields[i]))
      && (w.VEnum? && i < |w.payload| ==> Get(v, path + [i]) == Some(w.payload[i]))
    decreases path
  {
    var part := if path == [] then v else if v.VRecord? then v.fields[path[0]] else v.payload[path[0]];
    if path == [] {
      assert [i][1..] == [] && path + [i] == [i];
      if v.VRecord? && i < |v.fields| {
        assert Get(v.fields[i], []) == Some(v.fields[i]);
      } else if v.VEnum? && i < |v.payload| {
        assert Get(v.payload[i], []) == Some(v.payload[i]);
      }
    } else {
      assert (path + [i])[1..] == path[1..] + [i];
      GetPart(part, path[1..], i);
    }
  }

  lemma LoadPart(h: Heap, slot: Slot, i: nat)
    requires Load(h, slot).Some?
    ensures var w, part := Load(h, slot).value, Load(h, Slot(slot.block, slot.path + [i]));
      && (w.VRecord? && i < |w.fields| ==> part == Some(w.fields[i]))
      && (w.VEnum? && i < |w.payload| ==> part == Some(w.payload[i]))
  {
    GetPart(Root(h[slot.block - 1]), slot.path, i);
  }

  /** A local is its own storage; a path through it goes through the reference it
      holds, if it holds one. */
  lemma LocalIs(h: Heap, f: Frame, l: nat, v: Value)
    requires l < |f.locals| && 0 < f.locals[l] <= |h| && h[f.locals[l] - 1].Storage? && h[f.locals[l] - 1].val == v
    ensures Where(h, f, Local(l)).Done? ==> PlaceHolds(h, f, Local(l), v)
    ensures !v.VRef? ==> forall w :: PathFrom(h, f, Local(l), w) ==> w == v
    ensures v.VRef? ==> forall w :: PathFrom(h, f, Local(l), w) || PathFrom(h, f, Deref(l), w) ==> Load(h, v.slot) == Some(w)
  {
  }

  /** A field of a record is that component of what the record's place holds. */
  lemma FieldIs(h: Heap, f: Frame, base: Place, i: nat, w: Value)
    requires PlaceHolds(h, f, Field(base, i), w)
    ensures exists fs :: PathFrom(h, f, base, VRecord(fs)) && i < |fs| && w == fs[i]
  {
    var r := Resolve(h, f.locals, f.body.locals, base).value;
    LoadPart(h, r.slot, i);
    var v := Load(h, r.slot).value;
    assert PathFrom(h, f, base, VRecord(v.fields));
  }

  /** A field of a variant is that component of the payload, if the variant is the
      one that is there. */
  lemma VariantFieldIs(h: Heap, f: Frame, base: Place, tag: nat, i: nat, w: Value)
    requires PlaceHolds(h, f, VariantField(base, tag, i), w)
    ensures exists fs :: PathFrom(h, f, base, VEnum(tag, fs)) && i < |fs| && w == fs[i]
  {
    var r := Resolve(h, f.locals, f.body.locals, base).value;
    LoadPart(h, r.slot, i);
    var v := Load(h, r.slot).value;
    assert PathFrom(h, f, base, VEnum(tag, v.payload));
  }

  /** The number an index stands for: itself, or what a local holds. */
  predicate IndexAs(h: Heap, f: Frame, index: Idx, n: int) {
    match index
    case At(k) => n == k
    case From(l) => l < |f.locals| && 0 < f.locals[l] <= |h| && h[f.locals[l] - 1].Storage? && h[f.locals[l] - 1].val == VInt(n)
  }

  /** An index into a slice is that element of it. */
  lemma ElementIs(h: Heap, f: Frame, base: Place, index: Idx, w: Value) returns (a: nat, n: nat)
    requires PlaceHolds(h, f, Index(base, index), w)
    ensures PathFrom(h, f, base, VSlice(a)) && IndexAs(h, f, index, n)
    ensures 0 < a <= |h| && h[a - 1].Elems? && n < |h[a - 1].vals| && w == h[a - 1].vals[n]
  {
    var r := Resolve(h, f.locals, f.body.locals, base).value;
    a := Load(h, r.slot).value.data;
    n := IndexValue(h, f.locals, f.body.locals, index).value;
    var vs := Items(h, a);
    assert [n][1..] == [];
    assert Get(VRecord(vs), [n]) == Get(vs[n], []);
  }

  /** An index below zero or not below the length stops the program, and no other
      does. */
  lemma IndexStops(h: Heap, f: Frame, base: Place, index: Idx, a: nat, n: int)
    requires PathFrom(h, f, base, VSlice(a)) && IndexAs(h, f, index, n) && IndexValue(h, f.locals, f.body.locals, index).Done?
    ensures Where(h, f, Index(base, index)) == Stopped(Fault("index out of bounds")) <==> !(0 <= n < |Items(h, a)|)
  {
  }

  /** Looking through a place: what a reference in it refers to, and otherwise what
      it holds. */
  ghost predicate Shown(h: Heap, f: Frame, p: Place, v: Value) {
    exists u :: PlaceHolds(h, f, p, u) && if u.VRef? then Load(h, u.slot) == Some(v) else v == u
  }

  lemma ThroughIs(h: Heap, f: Frame, p: Place, v: Value)
    requires Through(h, f, p).Done? && Load(h, Through(h, f, p).value.slot) == Some(v)
    ensures Shown(h, f, p, v)
  {
    var u := Load(h, Where(h, f, p).value.slot);
    if u.Some? {
      assert PlaceHolds(h, f, p, u.value);
    }
  }

  // ---------------------------------------------------------------
  // operands
  // ---------------------------------------------------------------

  /** Constants are stored under their own text. */
  ghost predicate Statics(w: World) {
    forall text :: text in w.statics ==>
      0 < w.statics[text] <= |w.heap| && w.heap[w.statics[text] - 1] == Data(text, true)
  }

  lemma ConstantIs(w: World, f: Frame, op: Operand, deref: bool)
    requires Taken(w, f, op, deref).Done? && Statics(w)
    ensures var r := Taken(w, f, op, deref).value;
      && (op.ConstInt? ==> r == (w, VInt(op.n)))
      && (op.ConstUnit? ==> r == (w, VUnit))
      && (op.ConstStr? ==>
        && r.1.VStr? && |w.heap| < r.1.data <= |r.0.heap| && r.0.heap[r.1.data - 1] == Data(op.bytes, false)
        && forall i :: 0 <= i < |w.heap| ==> r.0.heap[i] == w.heap[i])
  {
  }

  /** A copy is the value, deeply; where a copy may be asked for through a reference,
      it is that of what the reference refers to. */
  lemma CopyIs(n: nat, w: World, f: Frame, p: Place, deref: bool)
    requires Taken(w, f, Copy(p), deref).Done?
    ensures exists v ::
      && (if deref then Shown(w.heap, f, p, v) else PlaceHolds(w.heap, f, p, v))
      && var r := Taken(w, f, Copy(p), deref).value;
        SameTo(n, w.heap, v, r.0.heap, r.1) && r.0.statics == w.statics && (!Owning(v) ==> r == (w, v))
  {
    var r := if deref then Through(w.heap, f, p) else Where(w.heap, f, p);
    var v := Load(w.heap, r.value.slot).value;
    if deref {
      ThroughIs(w.heap, f, p, v);
    }
    hide Where, Through, Load, Clone;
    if Owning(v) {
      CopyIsDeep(n, w.heap, v);
    } else {
      SameSelf(n, w.heap, v);
    }
  }

  lemma {:induction false} SameSelf(n: nat, h: Heap, v: Value)
    ensures SameTo(n, h, v, h, v)
    decreases n, v, 1
  {
    match v
    case VSlice(a) =>
      if n > 0 {
        SameSelfAll(n - 1, h, Items(h, a));
      }
    case VRecord(fs) => SameSelfAll(n, h, fs);
    case VEnum(_, fs) => SameSelfAll(n, h, fs);
    case _ =>
  }

  lemma {:induction false} SameSelfAll(n: nat, h: Heap, vs: seq<Value>)
    ensures SameAll(n, h, vs, h, vs)
    decreases n, vs, 0
  {
    if vs != [] {
      SameSelf(n, h, vs[0]);
      SameSelfAll(n, h, vs[1..]);
    }
  }

  /** A move out of a local is the value itself. */
  lemma MoveIs(w: World, f: Frame, l: nat)
    requires Taken(w, f, Move(Local(l)), false).Done?
    ensures var r := Taken(w, f, Move(Local(l)), false).value;
      PlaceHolds(w.heap, f, Local(l), r.1) && |r.0.heap| == |w.heap| && forall i :: 0 <= i < |w.heap| && i + 1 != f.locals[l] ==> r.0.heap[i] == w.heap[i]
  {
  }

  /** Moving out of anything but a local is copying, and so is moving out of a local
      that holds a reference where what it refers to is wanted. */
  lemma MoveElsewhereIs(w: World, f: Frame, p: Place, deref: bool)
    ensures !p.Local? ==> Taken(w, f, Move(p), deref) == Taken(w, f, Copy(p), deref)
    ensures p.Local? && deref && (exists slot :: PlaceHolds(w.heap, f, p, VRef(slot))) ==> Taken(w, f, Move(p), deref) == Taken(w, f, Copy(p), deref)
  {
  }

  /** A string constant is stored once: its second use is the same block. */
  lemma ConstantOnce(w: World, text: seq<nat>)
    ensures var (w1, a) := Interned(w, text); Interned(w1, text) == (w1, a)
  {
  }

  /** A destination takes a reference as it is exactly if it holds references: a local
      by its type, another place by what is there. */
  lemma PlainIs(h: Heap, f: Frame, p: Place, v: Value)
    ensures p.Local? && p.local < |f.body.locals| ==> (Plain(h, f, p) <==> !f.body.locals[p.local].TBorrow?)
    ensures !p.Local? && PlaceHolds(h, f, p, v) ==> (Plain(h, f, p) <==> !v.VRef?)
  {
  }

  // ---------------------------------------------------------------
  // lists of operands
  // ---------------------------------------------------------------

  /** Operands are evaluated from left to right, each where the ones before it left
      things, and give one value each, in order. */
  lemma {:induction false} OperandIs(w: World, f: Frame, ops: seq<Operand>, i: nat)
    requires TakenAll(w, f, ops).Done? && i < |ops|
    ensures |TakenAll(w, f, ops).value.1| == |ops|
    ensures TakenAll(w, f, ops[..i]).Done?
    ensures var before := TakenAll(w, f, ops[..i]).value.0;
      Taken(before, f, ops[i], false).Done? && TakenAll(w, f, ops).value.1[i] == Taken(before, f, ops[i], false).value.1
    decreases |ops|
  {
    hide Taken;
    var v := Taken(w, f, ops[0], false);
    LengthOf(v.value.0, f, ops[1..]);
    if i == 0 {
      assert ops[..0] == [];
    } else {
      OperandIs(v.value.0, f, ops[1..], i - 1);
      assert ops[..i][1..] == ops[1..][..i - 1] && ops[..i][0] == ops[0];
    }
  }

  lemma {:induction false} LengthOf(w: World, f: Frame, ops: seq<Operand>)
    requires TakenAll(w, f, ops).Done?
    ensures |TakenAll(w, f, ops).value.1| == |ops|
    decreases |ops|
  {
    hide Taken;
    if ops != [] {
      LengthOf(Taken(w, f, ops[0], false).value.0, f, ops[1..]);
    }
  }

  // ---------------------------------------------------------------
  // rvalues
  // ---------------------------------------------------------------

  /** The bytes of the string at an address; the null string has none. */
  predicate TextAt(h: Heap, a: nat, text: seq<nat>) {
    (a == 0 ==> text == []) && (0 < a <= |h| && h[a - 1].Data? ==> text == h[a - 1].bytes)
  }

  /** The bytes a string operand stands for. */
  ghost predicate SaysText(w: World, f: Frame, op: Operand, text: seq<nat>) {
    match op
    case ConstStr(bytes) => text == bytes
    case Copy(p) => exists a :: Shown(w.heap, f, p, VStr(a)) && TextAt(w.heap, a, text)
    case Move(p) => exists a :: Shown(w.heap, f, p, VStr(a)) && TextAt(w.heap, a, text)
    case _ => false
  }

  lemma TextIs(w: World, f: Frame, op: Operand)
    requires StringOf(w, f, op).Done?
    ensures var r := StringOf(w, f, op).value;
      SaysText(w, f, op, r.1) && |w.heap| <= |r.0.heap| && forall i :: 0 <= i < |w.heap| ==> r.0.heap[i] == w.heap[i]
  {
    if !op.ConstStr? {
      var a := Load(w.heap, Through(w.heap, f, op.place).value.slot).value.data;
      ThroughIs(w.heap, f, op.place, VStr(a));
    }
  }

  /** A concatenation is a new string with the bytes of the left operand and then
      those of the right one, and changes no block that was there. */
  lemma ConcatIs(w: World, f: Frame, left: Operand, right: Operand, deref: bool) returns (x: seq<nat>, y: seq<nat>, w1: World)
    requires Evaluated(w, f, Concat(left, right), deref).Done?
    ensures SaysText(w, f, left, x) && SaysText(w1, f, right, y)
    ensures |w.heap| <= |w1.heap| && forall i :: 0 <= i < |w.heap| ==> w1.heap[i] == w.heap[i]
    ensures var r := Evaluated(w, f, Concat(left, right), deref).value;
      && r.1.VStr? && |w.heap| < r.1.data <= |r.0.heap| && r.0.heap[r.1.data - 1] == Data(x + y, false)
      && forall i :: 0 <= i < |w.heap| ==> r.0.heap[i] == w.heap[i]
  {
    TextIs(w, f, left);
    x, w1 := StringOf(w, f, left).value.1, StringOf(w, f, left).value.0;
    TextIs(w1, f, right);
    y := StringOf(w1, f, right).value.1;
    hide StringOf, SaysText;
  }

  /** The length of a slice is the number of its elements, that of a string the number
      of its bytes. */
  lemma LengthIs(w: World, f: Frame, p: Place, deref: bool) returns (v: Value)
    requires Evaluated(w, f, SliceLen(p), deref).Done?
    ensures Shown(w.heap, f, p, v) && (v.VSlice? || v.VStr?)
    ensures var r := Evaluated(w, f, SliceLen(p), deref).value;
      && r.0 == w
      && (v.VSlice? && 0 < v.data <= |w.heap| && w.heap[v.data - 1].Elems? ==> r.1 == VInt(|w.heap[v.data - 1].vals|))
      && (v.VStr? && 0 < v.data <= |w.heap| && w.heap[v.data - 1].Data? ==> r.1 == VInt(|w.heap[v.data - 1].bytes|))
      && (v.data == 0 ==> r.1 == VInt(0))
  {
    v := Load(w.heap, Through(w.heap, f, p).value.slot).value;
    ThroughIs(w.heap, f, p, v);
  }

  /** A discriminant is the tag of the variant that is there. */
  lemma TagIs(w: World, f: Frame, p: Place, deref: bool) returns (v: Value)
    requires Evaluated(w, f, Discriminant(p), deref).Done?
    ensures Shown(w.heap, f, p, v) && v.VEnum? && Evaluated(w, f, Discriminant(p), deref).value == (w, VInt(v.tag))
  {
    v := Load(w.heap, Through(w.heap, f, p).value.slot).value;
    ThroughIs(w.heap, f, p, v);
  }

  /** A reference refers to what the place holds. */
  lemma RefIs(w: World, f: Frame, p: Place, deref: bool, v: Value)
    requires Evaluated(w, f, Ref(p), deref).Done? && PlaceHolds(w.heap, f, p, v)
    ensures var r := Evaluated(w, f, Ref(p), deref).value; r.0 == w && r.1.VRef? && Load(w.heap, r.1.slot) == Some(v)
  {
  }

  /** Records and variants have one component for each operand, in order, and the tag
      that was asked for. */
  lemma AggregateIs(w: World, f: Frame, tag: nat, ops: seq<Operand>, deref: bool, i: nat)
    requires Evaluated(w, f, Record(ops), deref).Done? && Evaluated(w, f, Variant(tag, ops), deref).Done? && i < |ops|
    ensures TakenAll(w, f, ops[..i]).Done?
    ensures var before := TakenAll(w, f, ops[..i]).value.0;
      && Taken(before, f, ops[i], false).Done?
      && var r, e, v := Evaluated(w, f, Record(ops), deref).value.1, Evaluated(w, f, Variant(tag, ops), deref).value.1, Taken(before, f, ops[i], false).value.1;
        && r.VRecord? && |r.fields| == |ops| && r.fields[i] == v
        && e.VEnum? && e.tag == tag && e.payload == r.fields
  {
    hide Taken, TakenAll;
    OperandIs(w, f, ops, i);
  }

  // ---------------------------------------------------------------
  // built-ins
  // ---------------------------------------------------------------

  /** The operand shows a handle on cell `c`. */
  ghost predicate Handles(h: Heap, f: Frame, op: Operand, c: nat) {
    (op.Copy? || op.Move?) && Shown(h, f, op.place, VCell(c)) && 0 < c <= |h| && h[c - 1].CellBox?
  }

  lemma HandleIs(h: Heap, f: Frame, op: Operand)
    requires CellOf(h, f, op).Done?
    ensures Handles(h, f, op, CellOf(h, f, op).value)
  {
    ThroughIs(h, f, op.place, VCell(CellOf(h, f, op).value));
  }

  /** A new cell has count 1 and holds what the operand stands for. */
  lemma NewCellIs(w: World, f: Frame, arg: Operand, wanted: bool)
    requires Built(w, f, CellNew(arg), wanted).Done?
    ensures var before := w.(heap := w.heap + [CellBox(1, VUnit)]); var c := |w.heap| + 1;
      && Taken(before, f, arg, false).Done?
      && var r, v := Built(w, f, CellNew(arg), wanted).value, Taken(before, f, arg, false).value;
        && r.1 == Some(VCell(c)) && c <= |r.0.heap| && r.0.heap[c - 1].CellBox? && r.0.heap[c - 1].val == v.1
        && c <= |v.0.heap| && v.0.heap[c - 1].CellBox? && r.0.heap[c - 1].count == v.0.heap[c - 1].count
  {
    hide Taken;
  }

  /** `get` gives the value in the cell, deeply, and leaves what the cell holds. */
  lemma GetIs(n: nat, w: World, f: Frame, cell: Operand) returns (c: nat)
    requires Built(w, f, CellGet(cell), true).Done?
    ensures Handles(w.heap, f, cell, c)
    ensures var r := Built(w, f, CellGet(cell), true).value;
      && r.1.Some? && SameTo(n, w.heap, w.heap[c - 1].val, r.0.heap, r.1.value)
      && c <= |r.0.heap| && r.0.heap[c - 1].CellBox? && r.0.heap[c - 1].val == w.heap[c - 1].val
  {
    HandleIs(w.heap, f, cell);
    c := CellOf(w.heap, f, cell).value;
    var v := w.heap[c - 1].val;
    hide CellOf, Handles, Clone;
    CloneDeep(n, w.heap, w.heap, |w.heap|, {}, v);
    var g := Clone(w.heap, |w.heap|, {}, v).value.0;
    assert Bumped(g[c - 1], w.heap[c - 1]);
  }

  lemma SetSteps(w: World, f: Frame, cell: Operand, arg: Operand)
    requires SetInCell(w, f, cell, arg).Done?
    ensures CellOf(w.heap, f, cell).Done? && Taken(w, f, arg, false).Done?
    ensures var c, v := CellOf(w.heap, f, cell).value, Taken(w, f, arg, false).value;
      && c <= |v.0.heap| && v.0.heap[c - 1].CellBox?
      && var d := Drop(v.0.heap[c - 1 := CellBox(v.0.heap[c - 1].count, v.1)], {}, v.0.heap[c - 1].val);
        d.Ok? && SetInCell(w, f, cell, arg).value == v.0.(heap := d.value)
  {
    hide CellOf, Taken, Drop;
  }

  /** After `set` a cell that is still there holds what the operand stood for. */
  lemma SetIs(w: World, f: Frame, cell: Operand, arg: Operand, wanted: bool) returns (c: nat)
    requires Built(w, f, CellSet(cell, arg), wanted).Done?
    ensures Handles(w.heap, f, cell, c) && Taken(w, f, arg, false).Done?
    ensures var r, v := Built(w, f, CellSet(cell, arg), wanted).value, Taken(w, f, arg, false).value;
      && r.1 == None && c <= |r.0.heap| && (r.0.heap[c - 1].CellBox? ==> r.0.heap[c - 1].val == v.1)
      && forall i :: 0 <= i < |v.0.heap| && v.0.heap[i].Storage? ==> i < |r.0.heap| && r.0.heap[i] == v.0.heap[i]
  {
    hide CellOf, Handles, Taken, Drop, SetInCell;
    assert SetInCell(w, f, cell, arg).Done?;
    SetSteps(w, f, cell, arg);
    HandleIs(w.heap, f, cell);
    c := CellOf(w.heap, f, cell).value;
    var v := Taken(w, f, arg, false).value;
    var h := v.0.heap;
    DropLeaves(h[c - 1 := CellBox(h[c - 1].count, v.1)], h[c - 1].val, c);
  }

  /** A drop leaves what locals and cells hold, except that a cell may go. */
  lemma DropLeaves(h: Heap, v: Value, c: nat)
    requires Drop(h, {}, v).Ok? && 0 < c <= |h| && h[c - 1].CellBox?
    ensures var g := Drop(h, {}, v).value;
      && |g| == |h| && (g[c - 1].CellBox? ==> g[c - 1].val == h[c - 1].val)
      && forall i :: 0 <= i < |h| && h[i].Storage? ==> g[i] == h[i]
  {
    hide Drop;
    var g := Drop(h, {}, v).value;
    assert Leq(g[c - 1], h[c - 1]);
    forall i | 0 <= i < |h| && h[i].Storage? ensures g[i] == h[i] {
      assert Leq(g[i], h[i]);
    }
  }

  /** Cloning a handle raises the count and shows the same cell; `strong_count` is the
      count. */
  lemma CountIs(w: World, f: Frame, cell: Operand, wanted: bool) returns (c: nat)
    requires Built(w, f, StrongCount(cell), wanted).Done? && Built(w, f, CellClone(cell), wanted).Done?
    ensures Handles(w.heap, f, cell, c)
    ensures Built(w, f, StrongCount(cell), wanted).value == (w, Some(VInt(w.heap[c - 1].count)))
    ensures var r := Built(w, f, CellClone(cell), wanted).value;
      && r.1 == Some(VCell(c)) && |r.0.heap| == |w.heap|
      && r.0.heap[c - 1] == CellBox(w.heap[c - 1].count + 1, w.heap[c - 1].val)
      && forall i :: 0 <= i < |w.heap| && i != c - 1 ==> r.0.heap[i] == w.heap[i]
  {
    HandleIs(w.heap, f, cell);
    c := CellOf(w.heap, f, cell).value;
  }

  /** The number an integer operand stands for. */
  predicate Counts(h: Heap, f: Frame, op: Operand, n: int) {
    match op
    case ConstInt(k) => n == k
    case Copy(p) => PlaceHolds(h, f, p, VInt(n))
    case Move(p) => PlaceHolds(h, f, p, VInt(n))
    case _ => false
  }

  lemma IntIs(h: Heap, f: Frame, op: Operand)
    requires IntOf(h, f, op).Done?
    ensures Counts(h, f, op, IntOf(h, f, op).value)
  {
  }

  /** A new slice has as many elements as asked for, each zero, and a negative number
      is refused. */
  lemma ZerosAre(w: World, f: Frame, elem: Ty, len: Operand, wanted: bool) returns (n: int)
    requires IntOf(w.heap, f, len).Done?
    ensures Counts(w.heap, f, len, n)
    ensures var r := Built(w, f, SliceOfZeros(elem, len), wanted);
      && (r.Stopped? <==> n < 0)
      && (r.Done? ==>
        && r.value.1 == Some(VSlice(|w.heap| + 1)) && |r.value.0.heap| == |w.heap| + 1
        && r.value.0.heap[..|w.heap|] == w.heap
        && var b := r.value.0.heap[|w.heap|];
          b.Elems? && |b.vals| == n && forall i :: 0 <= i < n ==> b.vals[i] == Zero(elem))
  {
    IntIs(w.heap, f, len);
    n := IntOf(w.heap, f, len).value;
  }

  // ---------------------------------------------------------------
  // where control goes
  // ---------------------------------------------------------------

  /** The first target equal to `n` is number `k`. */
  predicate First(n: int, targets: seq<(int, nat)>, k: nat) {
    k < |targets| && targets[k].0 == n && forall j :: 0 <= j < k ==> targets[j].0 != n
  }

  lemma {:induction false} FirstMatch(n: int, targets: seq<(int, nat)>, otherwise: nat, k: nat)
    ensures First(n, targets, k) ==> Chosen(n, targets, otherwise) == targets[k].1
    ensures (forall j :: 0 <= j < |targets| ==> targets[j].0 != n) ==> Chosen(n, targets, otherwise) == otherwise
    decreases |targets|
  {
    if targets != [] && targets[0].0 != n {
      var p := if k == 0 then 0 else k - 1;
      FirstMatch(n, targets[1..], otherwise, p);
      if First(n, targets, k) {
        assert targets[1..][p] == targets[k];
        assert forall j :: 0 <= j < p ==> targets[1..][j] == targets[j + 1];
      }
    }
  }

  /** A switch goes to the block of the first target equal to its discriminant, and if
      there is none to the block otherwise named; nothing else changes. */
  lemma SwitchIs(program: map<string, Body>, limits: Limits, depth: nat, w: World, f: Frame, steps: nat, d: Operand, targets: seq<(int, nat)>, otherwise: nat)
    returns (n: int)
    requires steps <= limits.budget && Ended(program, limits, depth, w, f, steps, SwitchInt(d, targets, otherwise)).Done?
    ensures Counts(w.heap, f, d, n)
    ensures var r := Ended(program, limits, depth, w, f, steps, SwitchInt(d, targets, otherwise)).value;
      && r.0 == w && r.1 == steps && r.2.Next?
      && (forall k :: 0 <= k < |targets| && First(n, targets, k) ==> r.2.block == targets[k].1)
      && ((forall k :: 0 <= k < |targets| ==> targets[k].0 != n) ==> r.2.block == otherwise)
  {
    IntIs(w.heap, f, d);
    n := IntOf(w.heap, f, d).value;
    FirstMatch(n, targets, otherwise, 0);
    forall k | 0 <= k < |targets| && First(n, targets, k) ensures Chosen(n, targets, otherwise) == targets[k].1 {
      FirstMatch(n, targets, otherwise, k);
    }
  }

  /** Jumps go to their target, calls go on behind themselves, a return ends the
      function, and unreachable code stops the program. */
  lemma GoesOn(program: map<string, Body>, limits: Limits, depth: nat, w: World, f: Frame, steps: nat, t: Terminator)
    requires steps <= limits.budget
    ensures var r := Ended(program, limits, depth, w, f, steps, t);
      && (t.Goto? ==> r == Done((w, steps, Next(t.target))))
      && (t.Call? && r.Done? ==> r.value.2 == Next(t.resume))
      && (t.CallBuiltin? && r.Done? ==> r.value.2 == Next(t.resume))
      && (t.Return? && r.Done? ==> r.value.2.Finish?)
      && (t.Unreachable? ==> r == Stopped(Fault("entered unreachable code")))
  {
    hide Built, Called, Delivered, Returned;
  }

  /** Statements run in order: a list is its first part and then the rest. */
  lemma {:induction false} InOrder(w: World, f: Frame, limits: Limits, n: nat, ss: seq<Statement>, more: seq<Statement>)
    ensures var r := Ran(w, f, limits, n, ss);
      Ran(w, f, limits, n, ss + more) == if r.Stopped? then r else Ran(r.value.0, f, limits, r.value.1, more)
    decreases |ss|
  {
    hide Stepped;
    if ss == [] {
      assert ss + more == more;
    } else {
      assert (ss + more)[1..] == ss[1..] + more && (ss + more)[0] == ss[0];
      if n + 1 <= limits.budget && Stepped(w, f, ss[0]).Done? {
        InOrder(Stepped(w, f, ss[0]).value, f, limits, n + 1, ss[1..], more);
      }
    }
  }

  // ---------------------------------------------------------------
  // calls
  // ---------------------------------------------------------------

  /** Arguments are evaluated from left to right for the parameters in order. */
  lemma {:induction false} ArgumentIs(w: World, f: Frame, args: seq<Operand>, params: seq<Ty>, i: nat)
    requires |args| <= |params| && ArgsOf(w, f, args, params).Done? && i < |args|
    ensures |ArgsOf(w, f, args, params).value.1| == |args|
    ensures ArgsOf(w, f, args[..i], params).Done?
    ensures var before := ArgsOf(w, f, args[..i], params).value.0;
      ArgOf(before, f, args[i], params[i]).Done? && ArgsOf(w, f, args, params).value.1[i] == ArgOf(before, f, args[i], params[i]).value.1
    decreases |args|
  {
    hide ArgOf;
    var v := ArgOf(w, f, args[0], params[0]);
    ArgumentsLength(v.value.0, f, args[1..], params[1..]);
    if i == 0 {
      assert args[..0] == [];
    } else {
      ArgumentIs(v.value.0, f, args[1..], params[1..], i - 1);
      assert args[..i][1..] == args[1..][..i - 1] && args[..i][0] == args[0];
    }
  }

  lemma {:induction false} ArgumentsLength(w: World, f: Frame, args: seq<Operand>, params: seq<Ty>)
    requires |args| <= |params| && ArgsOf(w, f, args, params).Done?
    ensures |ArgsOf(w, f, args, params).value.1| == |args|
    decreases |args|
  {
    hide ArgOf;
    if args != [] {
      ArgumentsLength(ArgOf(w, f, args[0], params[0]).value.0, f, args[1..], params[1..]);
    }
  }

  /** An argument for a reference parameter is the reference its place holds, or one to
      the place; for any other it is the operand's value. */
  lemma PassingIs(w: World, f: Frame, arg: Operand, param: Ty, v: Value)
    requires ArgOf(w, f, arg, param).Done?
    ensures !param.TBorrow? ==> ArgOf(w, f, arg, param) == Taken(w, f, arg, true)
    ensures param.TBorrow? ==> (arg.Copy? || arg.Move?) && ArgOf(w, f, arg, param).value.0 == w && ArgOf(w, f, arg, param).value.1.VRef?
    ensures param.TBorrow? && PlaceHolds(w.heap, f, arg.place, v) ==>
      var r := ArgOf(w, f, arg, param).value.1; if v.VRef? then r == v else Load(w.heap, r.slot) == Some(v)
  {
    hide Taken;
  }

  /** Some parameter from `i` on is stored at `a`. */
  predicate Bound(f: Frame, args: seq<Value>, i: nat, a: nat) {
    exists k :: i <= k < |args| && k < |f.locals| && f.locals[k] == a
  }

  /** Parameter `k` holds `v`, flagged if its type needs it. */
  predicate Receives(h: Heap, f: Frame, k: nat, v: Value) {
    && k < |f.locals| && k < |f.body.locals| && 0 < f.locals[k] <= |h|
    && h[f.locals[k] - 1] == Storage(v, NeedsDrop(f.body.locals[k]))
  }

  /** After the parameters have received the arguments each holds its own, with its
      flag set if its type needs it, and everything else is as it was. */
  lemma {:induction false} ParametersHold(h: Heap, f: Frame, args: seq<Value>, i: nat)
    requires i <= |args| && Received(h, f, args, i).Done?
    requires forall a, b :: 0 <= a < b < |f.locals| ==> f.locals[a] != f.locals[b]
    ensures var g := Received(h, f, args, i).value;
      && |g| == |h|
      && (forall k :: i <= k < |args| ==> Receives(g, f, k, args[k]))
      && (forall a :: 0 < a <= |h| && !Bound(f, args, i, a) ==> g[a - 1] == h[a - 1])
    decreases |args| - i
  {
    if i < |args| {
      var p, at := i + 1, f.locals[i];
      var h1 := h[at - 1 := Storage(args[i], NeedsDrop(f.body.locals[i]))];
      ParametersHold(h1, f, args, p);
      assert Bound(f, args, i, at) && !Bound(f, args, p, at);
      var g := Received(h1, f, args, p).value;
      assert g[at - 1] == h1[at - 1];
      forall a | 0 < a <= |h| && !Bound(f, args, i, a) ensures g[a - 1] == h[a - 1] {
        assert !Bound(f, args, p, a);
      }
      assert Receives(g, f, i, args[i]);
    }
  }

  /** A new frame's locals have storage behind everything that was there, zero-filled,
      each its own. */
  lemma LocalsStart(h: Heap, body: Body, l: nat)
    requires l < |body.locals|
    ensures var f, g := NewFrame(h, body), h + Fresh(body.locals);
      && f.body == body && |f.locals| == |body.locals| && f.locals[l] == |h| + l + 1
      && |g| == |h| + |body.locals| && g[f.locals[l] - 1] == Storage(Zero(body.locals[l]), false)
  {
  }

  /** Zero-filled: numbers and tags are 0 and pointers are null. */
  predicate AllZero(v: Value) {
    match v
    case VUnit => true
    case VInt(n) => n == 0
    case VStr(a) => a == 0
    case VSlice(a) => a == 0
    case VCell(a) => a == 0
    case VRef(slot) => slot.block == 0
    case VRecord(fs) => forall i :: 0 <= i < |fs| ==> AllZero(fs[i])
    case VEnum(tag, fs) => tag == 0 && forall i :: 0 <= i < |fs| ==> AllZero(fs[i])
  }

  lemma {:induction false} ZeroIs(ty: Ty)
    ensures AllZero(Zero(ty)) && (ty.TInt? ==> Zero(ty).VInt?) && (ty.TRecord? ==> Zero(ty).VRecord? && |Zero(ty).fields| == |ty.fields|)
  {
    match ty
    case TRecord(ts) => ZerosOf(ts);
    case TEnum(vs) =>
      if |vs| > 0 {
        ZeroIs(vs[0]);
      }
    case _ =>
  }

  lemma {:induction false} ZerosOf(ts: seq<Ty>)
    ensures |Zeros(ts)| == |ts| && forall i :: 0 <= i < |ts| ==> AllZero(Zeros(ts)[i])
  {
    if ts != [] {
      ZeroIs(ts[0]);
      ZerosOf(ts[1..]);
    }
  }

  /** A value of the type. */
  predicate OfType(v: Value, ty: Ty)
    decreases ty
  {
    match ty
    case TUnit => v.VUnit?
    case TInt => v.VInt?
    case TStr => v.VStr?
    case TSlice => v.VSlice?
    case TCell => v.VCell?
    case TBorrow => v.VRef?
    case TRecord(ts) => v.VRecord? && |v.fields| == |ts| && forall i :: 0 <= i < |ts| ==> OfType(v.fields[i], ts[i])
    case TEnum(vs) => v.VEnum? && v.tag < |vs| && |v.payload| == 1 && OfType(v.payload[0], vs[v.tag])
  }

  lemma {:induction false} OwningNeedsDrop(v: Value, ty: Ty)
    requires OfType(v, ty) && Owning(v)
    ensures NeedsDrop(ty)
    decreases ty
  {
    match ty
    case TRecord(ts) =>
      var i :| 0 <= i < |v.fields| && Owning(v.fields[i]);
      OwningNeedsDrop(v.fields[i], ts[i]);
    case TEnum(vs) => OwningNeedsDrop(v.payload[0], vs[v.tag]);
    case _ =>
  }

  /** Some value of a type, one that owns storage if the type has such. */
  lemma {:induction false} Sample(ty: Ty) returns (v: Value)
    requires Inhabited(ty)
    ensures OfType(v, ty) && (NeedsDrop(ty) ==> Owning(v))
    decreases ty
  {
    match ty
    case TUnit => v := VUnit;
    case TInt => v := VInt(0);
    case TStr => v := VStr(0);
    case TSlice => v := VSlice(0);
    case TCell => v := VCell(0);
    case TBorrow => v := VRef(Slot(0, []));
    case TRecord(ts) =>
      var fs := [];
      for n := 0 to |ts|
        invariant |fs| == n && forall i :: 0 <= i < n ==> OfType(fs[i], ts[i]) && (NeedsDrop(ts[i]) ==> Owning(fs[i]))
      {
        var w := Sample(ts[n]);
        fs := fs + [w];
      }
      v := VRecord(fs);
    case TEnum(vs) =>
      var tag := if exists i :: 0 <= i < |vs| && NeedsDrop(vs[i]) then var i :| 0 <= i < |vs| && NeedsDrop(vs[i]); i else 0;
      var w := Sample(vs[tag]);
      v := VEnum(tag, [w]);
      assert NeedsDrop(ty) ==> Owning(v.payload[0]);
  }

  /** No enum without variants anywhere in the type. */
  predicate Inhabited(ty: Ty) {
    match ty
    case TRecord(ts) => forall i :: 0 <= i < |ts| ==> Inhabited(ts[i])
    case TEnum(vs) => vs != [] && forall i :: 0 <= i < |vs| ==> Inhabited(vs[i])
    case _ => true
  }

  ghost predicate MayOwn(ty: Ty) {
    exists v :: OfType(v, ty) && Owning(v)
  }

  /** A type needs drop if and only if it has a value that owns storage. */
  lemma NeedsDropIs(ty: Ty)
    requires Inhabited(ty)
    ensures NeedsDrop(ty) <==> MayOwn(ty)
  {
    hide NeedsDrop, OfType, Owning, Inhabited;
    if NeedsDrop(ty) {
      var v := Sample(ty);
      assert OfType(v, ty) && Owning(v);
    } else if MayOwn(ty) {
      var v :| OfType(v, ty) && Owning(v);
      OwningNeedsDrop(v, ty);
    }
  }

  /** Assigning to a local makes it hold the value, flagged if its type needs it;
      assigning elsewhere makes the place hold it. */
  lemma AssignIs(w: World, f: Frame, p: Place, rvalue: Rvalue)
    requires Stepped(w, f, Assign(p, rvalue)).Done? && !(p.Local? && p.local < |f.body.locals| && f.body.locals[p.local].TUnit?)
    ensures var r := Evaluated(w, f, rvalue, Plain(w.heap, f, p));
      && r.Done?
      && var g, v := Stepped(w, f, Assign(p, rvalue)).value, r.value;
        && g.statics == v.0.statics
        && (p.Local? ==> Receives(g.heap, f, p.local, v.1))
        && (!p.Local? ==> Where(v.0.heap, f, p).Done? && Load(g.heap, Where(v.0.heap, f, p).value.slot) == Some(v.1))
  {
    hide Evaluated, Plain;
    var v := Evaluated(w, f, rvalue, Plain(w.heap, f, p)).value;
    if !p.Local? {
      var slot := Where(v.0.heap, f, p).value.slot;
      StoreThenLoad(v.0.heap, slot, v.1, []);
    }
  }

  /** A call evaluates its arguments and runs the named function on their values; the
      result goes to the destination, if there is one. */
  lemma CallIs(program: map<string, Body>, limits: Limits, depth: nat, w: World, f: Frame, steps: nat, name: string, args: seq<Operand>, destination: Option<Place>, resume: nat)
    requires steps <= limits.budget && Ended(program, limits, depth, w, f, steps, Call(name, args, destination, resume)).Done?
    ensures name in program && |args| <= |program[name].locals| && ArgsOf(w, f, args, program[name].locals).Done?
    ensures var vs := ArgsOf(w, f, args, program[name].locals).value;
      var c := Invoked(program, limits, depth, vs.0, steps, name, vs.1);
      && c.Done?
      && var r := Ended(program, limits, depth, w, f, steps, Call(name, args, destination, resume)).value;
        && r.1 == c.value.1 && (destination.None? ==> r.0 == c.value.0)
        && (destination.Some? && destination.value.Local? ==> Receives(r.0.heap, f, destination.value.local, c.value.2))
  {
    hide ArgsOf, Invoked;
  }

  /** Locals are dropped newest first. */
  lemma NewestFirst(h: Heap, locals: seq<nat>, a: nat)
    ensures var r := Emptied(h, a); EmptiedAll(h, locals + [a]) == if r.Stopped? then r else EmptiedAll(r.value, locals)
  {
    hide Emptied;
    assert (locals + [a])[..|locals|] == locals;
  }

  /** The value a function returns is that of its operand where it stands, evaluated
      before the locals are dropped; a function without a value returns none. */
  lemma ReturnIs(w: World, f: Frame, op: Operand)
    requires Returned(w, f, op).Done?
    ensures f.body.returnTy.TUnit? ==> Returned(w, f, op).value.1 == VUnit
    ensures !f.body.returnTy.TUnit? ==>
      && Taken(w, f, op, !f.body.returnTy.TBorrow?).Done?
      && Returned(w, f, op).value.1 == Taken(w, f, op, !f.body.returnTy.TBorrow?).value.1
  {
    hide Taken, EmptiedAll;
  }

  // ---------------------------------------------------------------
  // a whole function
  // ---------------------------------------------------------------

  /** `fn(n) { if n == 0 { a } else { b } }` */
  function ZeroTest(a: int, b: int): Body {
    Body([TInt], 1, TInt, [
      BasicBlock([], SwitchInt(Copy(Local(0)), [(0, 1)], 2)),
      BasicBlock([], Return(ConstInt(a))),
      BasicBlock([], Return(ConstInt(b)))])
  }

  lemma ZeroTestRuns(program: map<string, Body>, limits: Limits, depth: nat, w: World, f: Frame, steps: nat, a: int, b: int, n: int)
    requires steps + 2 <= limits.budget && f.body == ZeroTest(a, b) && |f.locals| == 1
    requires 0 < f.locals[0] <= |w.heap| && w.heap[f.locals[0] - 1] == Storage(VInt(n), false)
    ensures Flowed(program, limits, depth, w, f, steps, 0) == Done((w, steps + 2, VInt(if n == 0 then a else b)))
  {
    assert Where(w.heap, f, Local(0)) == Done(Loc(Slot(f.locals[0], []), [f.locals[0]]));
    assert Load(w.heap, Slot(f.locals[0], [])) == Some(VInt(n));
    assert IntOf(w.heap, f, Copy(Local(0))) == Done(n);
    FirstMatch(n, [(0, 1)], 2, 0);
    assert Emptied(w.heap, f.locals[0]) == Done(w.heap);
    assert f.locals[..0] == [];
    assert EmptiedAll(w.heap, f.locals) == Done(w.heap) by {
      assert EmptiedAll(w.heap, []) == Done(w.heap);
    }
    forall k | k == a || k == b ensures Returned(w, f, ConstInt(k)) == Done((w, VInt(k))) {
      assert Taken(w, f, ConstInt(k), true) == Done((w, VInt(k)));
    }
    hide IntOf, Returned, Where, Load;
    var next := if n == 0 then 1 else 2;
    assert Flowed(program, limits, depth, w, f, steps + 1, next) == Done((w, steps + 2, VInt(if n == 0 then a else b)));
  }

  /** Called with any number, from any heap, the function gives what it says: its
      argument is bound, the right branch is taken and its value comes back; the
      storage it used is freed and nothing else changed. */
  lemma ZeroTestIs(program: map<string, Body>, limits: Limits, depth: nat, w: World, steps: nat, name: string, a: int, b: int, n: int)
    requires steps + 2 <= limits.budget && depth < limits.maxDepth && name in program && program[name] == ZeroTest(a, b)
    ensures Invoked(program, limits, depth, w, steps, name, [VInt(n)])
            == Done((w.(heap := w.heap + [Freed]), steps + 2, VInt(if n == 0 then a else b)))
  {
    var body := ZeroTest(a, b);
    var f := NewFrame(w.heap, body);
    var h := w.heap + Fresh(body.locals);
    var g := w.heap + [Storage(VInt(n), false)];
    LocalsStart(w.heap, body, 0);
    assert h[|w.heap| := Storage(VInt(n), false)] == g;
    assert Received(g, f, [VInt(n)], 1) == Done(g);
    assert Received(h, f, [VInt(n)], 0) == Done(g);
    ZeroTestRuns(program, limits, depth + 1, w.(heap := g), f, steps, a, b, n);
    assert f.locals[1..] == [];
    assert g[|w.heap| := Freed] == w.heap + [Freed];
    assert FreedAll(w.heap + [Freed], []) == Done(w.heap + [Freed]);
    hide Flowed, Received;
    assert FreedAll(g, f.locals) == Done(w.heap + [Freed]);
  }
}
