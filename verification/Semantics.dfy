/** What MIR means: a definitional interpreter over the typed heap. The machine
    is proved to compute it. */
module Semantics {
  import opened Heaps
  import opened Mir
  import opened DropGlue
  import opened CloneGlue
  import opened Places

  /** A running body. The drop flag of a local lives with its storage. */
  datatype Frame = Frame(body: Body, locals: seq<nat>)

  /** Memory and the addresses of string constants. */
  datatype World = World(heap: Heap, statics: map<seq<nat>, nat>)

  datatype Limits = Limits(budget: nat, maxDepth: nat)

  function Wrong<T>(message: string): Outcome<T> {
    Stopped(MemoryFault(message))
  }

  // ---------------------------------------------------------------
  // places and operands
  // ---------------------------------------------------------------

  /** Where a place is. A local stands for its own storage, even when what it
      holds is a reference. */
  function Where(h: Heap, f: Frame, p: Place): Outcome<Loc> {
    if p.Local? then
      var a := Usable(h, f.locals, f.body.locals, p.local);
      if a.Stopped? then Stopped(a.why) else Done(Loc(Slot(a.value, []), [a.value]))
    else Resolve(h, f.locals, f.body.locals, p)
  }

  /** The same, looking through the reference if there is one. */
  function Through(h: Heap, f: Frame, p: Place): Outcome<Loc> {
    var r := Where(h, f, p);
    if r.Stopped? then r
    else
      var v := Load(h, r.value.slot);
      if v.Some? && v.value.VRef? then Target(h, v.value.slot) else r
  }

  /** A copy of what is stored somewhere, with storage of its own. */
  function Copied(h: Heap, v: Value): Outcome<(Heap, Value)> {
    if !Owning(v) then Done((h, v))
    else match Clone(h, |h|, {}, v)
      case Ok(pair) => Done(pair)
      case Err(message) => Wrong(message)
  }

  function CopyOf(h: Heap, f: Frame, p: Place, deref: bool): Outcome<(Heap, Value)> {
    var r := if deref then Through(h, f, p) else Where(h, f, p);
    if r.Stopped? then Stopped(r.why)
    else match Load(h, r.value.slot)
      case None => Wrong("invalid memory access")
      case Some(v) => Copied(h, v)
  }

  /** Moving out of a local clears its drop flag. */
  function Moved(h: Heap, f: Frame, l: nat, deref: bool): Outcome<(Heap, Value)> {
    var a := Usable(h, f.locals, f.body.locals, l);
    if a.Stopped? then Stopped(a.why)
    else
      var v := h[a.value - 1].val;
      if deref && v.VRef? then CopyOf(h, f, Local(l), true)
      else if !NeedsDrop(f.body.locals[l]) then Done((h, v))
      else Done((h[a.value - 1 := Storage(v, false)], v))
  }

  /** The address of a string constant, stored once for all its uses. */
  function Interned(w: World, text: seq<nat>): (World, nat) {
    if text in w.statics then (w, w.statics[text])
    else
      var a := |w.heap| + 1;
      (w.(heap := w.heap + [Data(text, true)], statics := w.statics[text := a]), a)
  }

  function InHeap(w: World, r: Outcome<(Heap, Value)>): Outcome<(World, Value)> {
    if r.Stopped? then Stopped(r.why) else Done((w.(heap := r.value.0), r.value.1))
  }

  /** An operand's value, owned by whoever asked for it. With `deref`, a
      reference stands for a copy of what it refers to. */
  function Taken(w: World, f: Frame, op: Operand, deref: bool): Outcome<(World, Value)> {
    match op
    case ConstInt(n) => Done((w, VInt(n)))
    case ConstUnit => Done((w, VUnit))
    case ConstStr(text) =>
      var (w1, a) := Interned(w, text);
      InHeap(w1, Copied(w1.heap, VStr(a)))
    case Copy(p) => InHeap(w, CopyOf(w.heap, f, p, deref))
    case Move(p) => InHeap(w, if p.Local? then Moved(w.heap, f, p.local, deref) else CopyOf(w.heap, f, p, deref))
  }

  function Behind(vs: seq<Value>, r: Outcome<(World, seq<Value>)>): Outcome<(World, seq<Value>)> {
    if r.Stopped? then r else Done((r.value.0, vs + r.value.1))
  }

  function TakenAll(w: World, f: Frame, ops: seq<Operand>): Outcome<(World, seq<Value>)>
    decreases |ops|
  {
    if ops == [] then Done((w, []))
    else
      var v := Taken(w, f, ops[0], false);
      if v.Stopped? then Stopped(v.why) else Behind([v.value.1], TakenAll(v.value.0, f, ops[1..]))
  }

  lemma BehindBoth(vs: seq<Value>, v: Value, r: Outcome<(World, seq<Value>)>)
    ensures Behind(vs, Behind([v], r)) == Behind(vs + [v], r)
  {
    if r.Done? {
      assert vs + ([v] + r.value.1) == vs + [v] + r.value.1;
    }
  }

  lemma BehindEnds(r: Outcome<(World, seq<Value>)>, vs: seq<Value>, w: World)
    ensures Behind([], r) == r && Behind(vs, Done((w, []))) == Done((w, vs))
  {
    assert vs + [] == vs;
    if r.Done? {
      assert [] + r.value.1 == r.value.1;
    }
  }

  /** One more operand of a list. */
  lemma TakenNext(w: World, f: Frame, ops: seq<Operand>, vs: seq<Value>, i: nat)
    requires i < |ops|
    ensures var v := Taken(w, f, ops[i], false);
      Behind(vs, TakenAll(w, f, ops[i..])) ==
        if v.Stopped? then Stopped(v.why) else Behind(vs + [v.value.1], TakenAll(v.value.0, f, ops[i + 1..]))
  {
    hide Taken;
    assert ops[i..][1..] == ops[i + 1..];
    var v := Taken(w, f, ops[i], false);
    if v.Done? {
      BehindBoth(vs, v.value.1, TakenAll(v.value.0, f, ops[i + 1..]));
    }
  }

  lemma TakenEnds(w: World, f: Frame, ops: seq<Operand>, vs: seq<Value>)
    ensures TakenAll(w, f, ops) == Behind([], TakenAll(w, f, ops[0..]))
    ensures Behind(vs, TakenAll(w, f, ops[|ops|..])) == Done((w, vs))
  {
    hide Taken;
    assert ops[0..] == ops && ops[|ops|..] == [];
    BehindEnds(TakenAll(w, f, ops), vs, w);
  }

  // ---------------------------------------------------------------
  // dropping and writing
  // ---------------------------------------------------------------

  /** Drops what a flagged local holds and clears its flag. */
  function Emptied(h: Heap, a: nat): Outcome<Heap> {
    if a == 0 || a > |h| || !h[a - 1].Storage? then Wrong("invalid memory access")
    else if !h[a - 1].owned then Done(h)
    else match Drop(h, {}, h[a - 1].val)
      case Err(message) => Wrong(message)
      case Ok(g) => Done(g[a - 1 := Storage(h[a - 1].val, false)])
  }

  /** Drops every flagged local, newest first. */
  function EmptiedAll(h: Heap, locals: seq<nat>): Outcome<Heap>
    decreases |locals|
  {
    if locals == [] then Done(h)
    else
      var n := |locals| - 1;
      var r := Emptied(h, locals[n]);
      if r.Stopped? then r else EmptiedAll(r.value, locals[..n])
  }

  function StoredLocal(h: Heap, f: Frame, l: nat, v: Value): Outcome<Heap> {
    if l >= |f.locals| || l >= |f.body.locals| then Stopped(Promise("no such local"))
    else if !NeedsDrop(f.body.locals[l]) && Owning(v) then Stopped(Promise("value of the wrong type"))
    else
      var r := Emptied(h, f.locals[l]);
      if r.Stopped? then r else Done(r.value[f.locals[l] - 1 := Storage(v, NeedsDrop(f.body.locals[l]))])
  }

  /** Drops what is at a slot and stores the new value there. */
  function StoredAt(h: Heap, slot: Slot, v: Value): Outcome<Heap> {
    var u := Load(h, slot);
    if u.None? || !(h[slot.block - 1].Storage? || h[slot.block - 1].Elems?) then Wrong("invalid memory access")
    else if h[slot.block - 1].Elems? && slot.path == [] then Wrong("invalid memory access")
    else if h[slot.block - 1].Storage? && !h[slot.block - 1].owned && Owning(v) then Stopped(Promise("value of the wrong type"))
    else match Drop(h, {}, u.value)
      case Err(message) => Wrong(message)
      case Ok(g) => Done(g[slot.block - 1 := Written(h[slot.block - 1], slot.path, v)])
  }

  /** Stores an owned value at a place, dropping what was there. */
  function Stored(h: Heap, f: Frame, p: Place, v: Value): Outcome<Heap> {
    if p.Local? then StoredLocal(h, f, p.local, v)
    else
      var r := Where(h, f, p);
      if r.Stopped? then Stopped(r.why) else StoredAt(h, r.value.slot, v)
  }

  // ---------------------------------------------------------------
  // rvalues and statements
  // ---------------------------------------------------------------

  /** The bytes of a string operand, through a reference if it is one. */
  function StringOf(w: World, f: Frame, op: Operand): Outcome<(World, seq<nat>)> {
    if op.ConstStr? then Done((Interned(w, op.bytes).0, op.bytes))
    else if !op.Copy? && !op.Move? then Stopped(Promise("not a string"))
    else
      var r := Through(w.heap, f, op.place);
      if r.Stopped? then Stopped(r.why)
      else
        var v := Load(w.heap, r.value.slot);
        if v.None? || !v.value.VStr? then Stopped(Promise("not a string")) else Done((w, Bytes(w.heap, v.value.data)))
  }

  function Concatenated(w: World, f: Frame, left: Operand, right: Operand): Outcome<(World, Value)> {
    var x := StringOf(w, f, left);
    if x.Stopped? then Stopped(x.why)
    else
      var y := StringOf(x.value.0, f, right);
      if y.Stopped? then Stopped(y.why)
      else
        var w1 := y.value.0;
        Done((w1.(heap := w1.heap + [Data(x.value.1 + y.value.1, false)]), VStr(|w1.heap| + 1)))
  }

  function Measured(h: Heap, v: Value): Outcome<Value> {
    match v
    case VSlice(a) => Done(VInt(|Items(h, a)|))
    case VStr(a) => Done(VInt(|Bytes(h, a)|))
    case _ => Stopped(Promise("length of something that has none"))
  }

  /** The value of an rvalue; with `deref`, the destination is no reference. */
  function Evaluated(w: World, f: Frame, rvalue: Rvalue, deref: bool): Outcome<(World, Value)> {
    match rvalue
    case Use(op) => Taken(w, f, op, deref)
    case Ref(p) =>
      var r := Where(w.heap, f, p);
      if r.Stopped? then Stopped(r.why)
      else if 0 < r.value.slot.block <= |w.heap| && w.heap[r.value.slot.block - 1].Storage? then Done((w, VRef(r.value.slot)))
      else Stopped(Promise("a reference into a slice"))
    case Record(ops) =>
      var r := TakenAll(w, f, ops);
      if r.Stopped? then Stopped(r.why) else Done((r.value.0, VRecord(r.value.1)))
    case Variant(tag, ops) =>
      var r := TakenAll(w, f, ops);
      if r.Stopped? then Stopped(r.why) else Done((r.value.0, VEnum(tag, r.value.1)))
    case SliceLen(p) =>
      var r := Through(w.heap, f, p);
      if r.Stopped? then Stopped(r.why)
      else
        var v := Load(w.heap, r.value.slot);
        if v.None? then Wrong("invalid memory access")
        else
          var n := Measured(w.heap, v.value);
          if n.Stopped? then Stopped(n.why) else Done((w, n.value))
    case Discriminant(p) =>
      var r := Through(w.heap, f, p);
      if r.Stopped? then Stopped(r.why)
      else
        var v := Load(w.heap, r.value.slot);
        if v.Some? && v.value.VEnum? then Done((w, VInt(v.value.tag)))
        else Stopped(Promise("discriminant of something that has none"))
    case Concat(left, right) => Concatenated(w, f, left, right)
  }

  /** Whether what a place holds is not itself a reference. */
  function Plain(h: Heap, f: Frame, p: Place): bool {
    if p.Local? then p.local < |f.body.locals| && !f.body.locals[p.local].TBorrow?
    else
      var r := Resolve(h, f.locals, f.body.locals, p);
      if r.Stopped? then true
      else var v := Load(h, r.value.slot); v.None? || !v.value.VRef?
  }

  function Stepped(w: World, f: Frame, s: Statement): Outcome<World> {
    match s
    case Assign(p, rvalue) =>
      if p.Local? && p.local < |f.body.locals| && f.body.locals[p.local].TUnit? then Done(w)
      else
        var v := Evaluated(w, f, rvalue, Plain(w.heap, f, p));
        if v.Stopped? then Stopped(v.why)
        else
          var h := Stored(v.value.0.heap, f, p, v.value.1);
          if h.Stopped? then Stopped(h.why) else Done(v.value.0.(heap := h.value))
    case DropLocal(l) =>
      if l >= |f.locals| then Stopped(Promise("no such local"))
      else
        var h := Emptied(w.heap, f.locals[l]);
        if h.Stopped? then Stopped(h.why) else Done(w.(heap := h.value))
  }

  // ---------------------------------------------------------------
  // built-ins
  // ---------------------------------------------------------------

  /** The cell an operand holds or refers to. */
  function CellOf(h: Heap, f: Frame, op: Operand): (r: Outcome<nat>)
    ensures r.Done? ==> 0 < r.value <= |h| && h[r.value - 1].CellBox?
  {
    if !op.Copy? && !op.Move? then Stopped(Promise("not a cell"))
    else
      var r := Through(h, f, op.place);
      if r.Stopped? then Stopped(r.why)
      else
        var v := Load(h, r.value.slot);
        if v.None? || !v.value.VCell? then Stopped(Promise("not a cell"))
        else if v.value.cell == 0 then Stopped(Fault("invalid memory access at a null cell"))
        else if v.value.cell > |h| || !h[v.value.cell - 1].CellBox? then Wrong("invalid memory access")
        else Done(v.value.cell)
  }

  function IntOf(h: Heap, f: Frame, op: Operand): Outcome<int> {
    if op.ConstInt? then Done(op.n)
    else if !op.Copy? && !op.Move? then Stopped(Promise("not an integer"))
    else
      var r := Where(h, f, op.place);
      if r.Stopped? then Stopped(r.why)
      else
        var v := Load(h, r.value.slot);
        if v.Some? && v.value.VInt? then Done(v.value.n) else Stopped(Promise("not an integer"))
  }

  /** A cell is made first, then its value is evaluated and put into it. */
  function MadeCell(w: World, f: Frame, arg: Operand): Outcome<(World, Value)> {
    var c := |w.heap| + 1;
    var v := Taken(w.(heap := w.heap + [CellBox(1, VUnit)]), f, arg, false);
    if v.Stopped? then v
    else
      var h := v.value.0.heap;
      if c > |h| || !h[c - 1].CellBox? then Wrong("invalid memory access")
      else Done((v.value.0.(heap := h[c - 1 := CellBox(h[c - 1].count, v.value.1)]), VCell(c)))
  }

  /** A cell gets the new value first; then the old one is dropped. */
  function SetInCell(w: World, f: Frame, cell: Operand, arg: Operand): Outcome<World> {
    var c := CellOf(w.heap, f, cell);
    if c.Stopped? then Stopped(c.why)
    else
      var v := Taken(w, f, arg, false);
      if v.Stopped? then Stopped(v.why)
      else
        var h := v.value.0.heap;
        if c.value > |h| || !h[c.value - 1].CellBox? then Wrong("invalid memory access")
        else match Drop(h[c.value - 1 := CellBox(h[c.value - 1].count, v.value.1)], {}, h[c.value - 1].val)
          case Err(message) => Wrong(message)
          case Ok(g) => Done(v.value.0.(heap := g))
  }

  /** A built-in call; `wanted` says whether its result has a destination. */
  function Built(w: World, f: Frame, op: Builtin, wanted: bool): Outcome<(World, Option<Value>)> {
    match op
    case CellNew(arg) =>
      var v := MadeCell(w, f, arg);
      if v.Stopped? then Stopped(v.why) else Done((v.value.0, Some(v.value.1)))
    case CellGet(cell) =>
      var c := CellOf(w.heap, f, cell);
      if c.Stopped? then Stopped(c.why)
      else if !wanted then Done((w, None))
      else (match Clone(w.heap, |w.heap|, {}, w.heap[c.value - 1].val)
        case Err(message) => Wrong(message)
        case Ok((h, v)) => Done((w.(heap := h), Some(v))))
    case CellSet(cell, arg) =>
      var r := SetInCell(w, f, cell, arg);
      if r.Stopped? then Stopped(r.why) else Done((r.value, None))
    case CellClone(cell) =>
      var c := CellOf(w.heap, f, cell);
      if c.Stopped? then Stopped(c.why)
      else
        var b := w.heap[c.value - 1];
        Done((w.(heap := w.heap[c.value - 1 := CellBox(b.count + 1, b.val)]), Some(VCell(c.value))))
    case StrongCount(cell) =>
      var c := CellOf(w.heap, f, cell);
      if c.Stopped? then Stopped(c.why) else Done((w, Some(VInt(w.heap[c.value - 1].count))))
    case SliceOfZeros(elem, len) =>
      var n := IntOf(w.heap, f, len);
      if n.Stopped? then Stopped(n.why)
      else if n.value < 0 then Stopped(Fault("capacity overflow"))
      else Done((w.(heap := w.heap + [Elems(seq(n.value, _ => Zero(elem)))]), Some(VSlice(|w.heap| + 1))))
  }

  // ---------------------------------------------------------------
  // calls
  // ---------------------------------------------------------------

  function ArgOf(w: World, f: Frame, arg: Operand, param: Ty): Outcome<(World, Value)> {
    if !param.TBorrow? then Taken(w, f, arg, true)
    else if !arg.Copy? && !arg.Move? then Stopped(Promise("a constant passed by reference"))
    else
      var r := Where(w.heap, f, arg.place);
      if r.Stopped? then Stopped(r.why)
      else
        var v := Load(w.heap, r.value.slot);
        if v.Some? && v.value.VRef? then Done((w, v.value))
        else if 0 < r.value.slot.block <= |w.heap| && w.heap[r.value.slot.block - 1].Storage? then Done((w, VRef(r.value.slot)))
        else Stopped(Promise("a reference into a slice"))
  }

  function ArgsOf(w: World, f: Frame, args: seq<Operand>, params: seq<Ty>): Outcome<(World, seq<Value>)>
    requires |args| <= |params|
    decreases |args|
  {
    if args == [] then Done((w, []))
    else
      var v := ArgOf(w, f, args[0], params[0]);
      if v.Stopped? then Stopped(v.why) else Behind([v.value.1], ArgsOf(v.value.0, f, args[1..], params[1..]))
  }

  lemma ArgsNext(w: World, f: Frame, args: seq<Operand>, params: seq<Ty>, vs: seq<Value>, i: nat)
    requires i < |args| <= |params|
    ensures var v := ArgOf(w, f, args[i], params[i]);
      Behind(vs, ArgsOf(w, f, args[i..], params[i..])) ==
        if v.Stopped? then Stopped(v.why) else Behind(vs + [v.value.1], ArgsOf(v.value.0, f, args[i + 1..], params[i + 1..]))
  {
    hide ArgOf;
    assert args[i..][1..] == args[i + 1..] && params[i..][1..] == params[i + 1..];
    var v := ArgOf(w, f, args[i], params[i]);
    if v.Done? {
      BehindBoth(vs, v.value.1, ArgsOf(v.value.0, f, args[i + 1..], params[i + 1..]));
    }
  }

  lemma ArgsEnds(w: World, f: Frame, args: seq<Operand>, params: seq<Ty>, vs: seq<Value>)
    requires |args| <= |params|
    ensures ArgsOf(w, f, args, params) == Behind([], ArgsOf(w, f, args[0..], params[0..]))
    ensures Behind(vs, ArgsOf(w, f, args[|args|..], params[|args|..])) == Done((w, vs))
  {
    hide ArgOf;
    assert args[0..] == args && params[0..] == params && args[|args|..] == [];
    BehindEnds(ArgsOf(w, f, args, params), vs, w);
  }

  /** Moves arguments into parameters, which hold nothing yet. */
  function Received(h: Heap, f: Frame, args: seq<Value>, i: nat): Outcome<Heap>
    requires i <= |args|
    decreases |args| - i
  {
    if i == |args| then Done(h)
    else if i >= |f.locals| || i >= |f.body.locals| then Wrong("invalid memory access")
    else if !NeedsDrop(f.body.locals[i]) && Owning(args[i]) then Stopped(Promise("value of the wrong type"))
    else if f.locals[i] == 0 || f.locals[i] > |h| then Wrong("invalid memory access")
    else Received(h[f.locals[i] - 1 := Storage(args[i], NeedsDrop(f.body.locals[i]))], f, args, i + 1)
  }

  /** The storage of a new frame's locals, zero-filled. */
  function Fresh(tys: seq<Ty>): seq<Block> {
    seq(|tys|, i requires 0 <= i < |tys| => Storage(Zero(tys[i]), false))
  }

  function NewFrame(h: Heap, body: Body): Frame {
    Frame(body, seq(|body.locals|, i => |h| + 1 + i))
  }

  function FreedAll(h: Heap, locals: seq<nat>): Outcome<Heap>
    decreases |locals|
  {
    if locals == [] then Done(h)
    else match Free(h, locals[0])
      case Err(message) => Wrong(message)
      case Ok(g) => FreedAll(g, locals[1..])
  }

  function Returned(w: World, f: Frame, op: Operand): Outcome<(World, Value)> {
    if f.body.returnTy.TUnit? then
      var h := EmptiedAll(w.heap, f.locals);
      if h.Stopped? then Stopped(h.why) else Done((w.(heap := h.value), VUnit))
    else if op.ConstUnit? then Stopped(Fault("reached code with no value to return"))
    else
      var v := Taken(w, f, op, !f.body.returnTy.TBorrow?);
      if v.Stopped? then v
      else if !NeedsDrop(f.body.returnTy) && Owning(v.value.1) then Stopped(Promise("value of the wrong type"))
      else
        var h := EmptiedAll(v.value.0.heap, f.locals);
        if h.Stopped? then Stopped(h.why) else Done((v.value.0.(heap := h.value), v.value.1))
  }

  /** The block a switch goes on to: that of the first equal target. */
  function Chosen(n: int, targets: seq<(int, nat)>, otherwise: nat): nat {
    if targets == [] then otherwise
    else if targets[0].0 == n then targets[0].1
    else Chosen(n, targets[1..], otherwise)
  }

  function Delivered(w: World, f: Frame, destination: Option<Place>, v: Value): Outcome<World> {
    if destination.None? then Done(w)
    else
      var h := Stored(w.heap, f, destination.value, v);
      if h.Stopped? then Stopped(h.why) else Done(w.(heap := h.value))
  }

  /** Statements, each charged to the budget before it runs. */
  function Ran(w: World, f: Frame, limits: Limits, n: nat, ss: seq<Statement>): (r: Outcome<(World, nat)>)
    ensures r.Done? ==> r.value.1 == n + |ss| && (n <= limits.budget ==> r.value.1 <= limits.budget)
    decreases |ss|
  {
    if ss == [] then Done((w, n))
    else if n + 1 > limits.budget then Stopped(Fault("exceeded the comptime instruction budget"))
    else
      var s := Stepped(w, f, ss[0]);
      if s.Stopped? then Stopped(s.why) else Ran(s.value, f, limits, n + 1, ss[1..])
  }

  datatype Flow = Next(block: nat) | Finish(value: Value)

  /** What a terminator does: the world, the instructions charged and where to go
      on, or the value to return. */
  function Ended(program: map<string, Body>, limits: Limits, depth: nat, w: World, f: Frame, n: nat, t: Terminator)
    : (r: Outcome<(World, nat, Flow)>)
    requires n <= limits.budget
    ensures r.Done? ==> n <= r.value.1 <= limits.budget
    decreases limits.budget - n, 4
  {
    match t
    case Goto(target) => Done((w, n, Next(target)))
    case SwitchInt(discriminant, targets, otherwise) =>
      var v := IntOf(w.heap, f, discriminant);
      if v.Stopped? then Stopped(v.why) else Done((w, n, Next(Chosen(v.value, targets, otherwise))))
    case Call(name, args, destination, resume) =>
      var c := Called(program, limits, depth, w, f, n, name, args);
      if c.Stopped? then Stopped(c.why)
      else
        var d := Delivered(c.value.0, f, destination, c.value.2);
        if d.Stopped? then Stopped(d.why) else Done((d.value, c.value.1, Next(resume)))
    case CallBuiltin(op, destination, resume) =>
      var c := Built(w, f, op, destination.Some?);
      if c.Stopped? then Stopped(c.why)
      else if c.value.1.None? then Done((c.value.0, n, Next(resume)))
      else
        var d := Delivered(c.value.0, f, destination, c.value.1.value);
        if d.Stopped? then Stopped(d.why) else Done((d.value, n, Next(resume)))
    case Return(op) =>
      var v := Returned(w, f, op);
      if v.Stopped? then Stopped(v.why) else Done((v.value.0, n, Finish(v.value.1)))
    case Unreachable => Stopped(Fault("entered unreachable code"))
  }

  /** Runs a body from one of its blocks to its return. */
  function Flowed(program: map<string, Body>, limits: Limits, depth: nat, w: World, f: Frame, n: nat, block: nat)
    : (r: Outcome<(World, nat, Value)>)
    requires n <= limits.budget
    ensures r.Done? ==> n <= r.value.1 <= limits.budget
    decreases limits.budget - n, 0
  {
    if block >= |f.body.blocks| then Stopped(Promise("no such block"))
    else
      var b := f.body.blocks[block];
      var r := Ran(w, f, limits, n, b.statements);
      if r.Stopped? then Stopped(r.why)
      else if r.value.1 + 1 > limits.budget then Stopped(Fault("exceeded the comptime instruction budget"))
      else
        var e := Ended(program, limits, depth, r.value.0, f, r.value.1 + 1, b.terminator);
        if e.Stopped? then Stopped(e.why)
        else match e.value.2
          case Next(target) => Flowed(program, limits, depth, e.value.0, f, e.value.1, target)
          case Finish(v) => Done((e.value.0, e.value.1, v))
  }

  /** Runs the frame of a call: binds the arguments and starts at block 0. */
  function Framed(program: map<string, Body>, limits: Limits, depth: nat, w: World, f: Frame, n: nat, args: seq<Value>)
    : (r: Outcome<(World, nat, Value)>)
    requires n <= limits.budget
    ensures r.Done? ==> n <= r.value.1 <= limits.budget
    decreases limits.budget - n, 1
  {
    if |args| > |f.locals| then Stopped(Promise("wrong number of arguments"))
    else
      var h := Received(w.heap, f, args, 0);
      if h.Stopped? then Stopped(h.why) else Flowed(program, limits, depth, w.(heap := h.value), f, n, 0)
  }

  /** Calls a function on values: its locals get storage, its body runs, and the
      storage is given back. */
  function Invoked(program: map<string, Body>, limits: Limits, depth: nat, w: World, n: nat, name: string, args: seq<Value>)
    : (r: Outcome<(World, nat, Value)>)
    requires n <= limits.budget
    ensures r.Done? ==> n <= r.value.1 <= limits.budget
    decreases limits.budget - n, 2
  {
    if name !in program then Stopped(Fault("no body to evaluate at compile time"))
    else if depth >= limits.maxDepth then Stopped(Fault("exceeded the comptime call-depth limit"))
    else
      var body := program[name];
      var f := NewFrame(w.heap, body);
      var r := Framed(program, limits, depth + 1, w.(heap := w.heap + Fresh(body.locals)), f, n, args);
      if r.Stopped? then Stopped(r.why)
      else
        var h := FreedAll(r.value.0.heap, f.locals);
        if h.Stopped? then Stopped(h.why) else Done((r.value.0.(heap := h.value), r.value.1, r.value.2))
  }

  function Called(program: map<string, Body>, limits: Limits, depth: nat, w: World, f: Frame, n: nat, name: string, args: seq<Operand>)
    : (r: Outcome<(World, nat, Value)>)
    requires n <= limits.budget
    ensures r.Done? ==> n <= r.value.1 <= limits.budget
    decreases limits.budget - n, 3
  {
    if name !in program then Stopped(Fault("no body to evaluate at compile time"))
    else if |args| > program[name].paramCount || program[name].paramCount > |program[name].locals|
    then Stopped(Promise("wrong number of arguments"))
    else
      var vs := ArgsOf(w, f, args, program[name].locals);
      if vs.Stopped? then Stopped(vs.why) else Invoked(program, limits, depth, vs.value.0, n, name, vs.value.1)
  }
}
