/** Places: where in the heap a place expression points, and what reading,
    cloning and overwriting there does to ownership. */
module Places {
  import opened Heaps
  import opened Mir
  import opened CloneGlue

  // ---------------------------------------------------------------
  // a part of a value
  // ---------------------------------------------------------------

  function Get(v: Value, path: seq<nat>): (r: Option<Value>)
    decreases path
  {
    if path == [] then Some(v)
    else if v.VRecord? && path[0] < |v.fields| then Get(v.fields[path[0]], path[1..])
    else if v.VEnum? && path[0] < |v.payload| then Get(v.payload[path[0]], path[1..])
    else None
  }

  function Put(v: Value, path: seq<nat>, w: Value): Value
    requires Get(v, path).Some?
    decreases path
  {
    if path == [] then w
    else if v.VRecord? then VRecord(v.fields[path[0] := Put(v.fields[path[0]], path[1..], w)])
    else VEnum(v.tag, v.payload[path[0] := Put(v.payload[path[0]], path[1..], w)])
  }

  lemma Swapped(all': multiset<Handle>, all: multiset<Handle>, part': multiset<Handle>, part: multiset<Handle>, gone: multiset<Handle>, came: multiset<Handle>)
    requires all' + part == all + part' && part' + gone == part + came
    requires gone <= part <= all
    ensures all' + gone == all + came && gone <= all
  {
    forall x ensures (all' + gone)[x] == (all + came)[x] {
      assert (all' + part)[x] == (all + part')[x] && (part' + gone)[x] == (part + came)[x];
    }
  }

  /** Overwriting a part exchanges its owners and nothing else. */
  lemma {:induction false} PutOwners(v: Value, path: seq<nat>, w: Value)
    requires Get(v, path).Some?
    ensures Owners(Put(v, path, w)) + Owners(Get(v, path).value) == Owners(v) + Owners(w)
    ensures Owners(Get(v, path).value) <= Owners(v)
    decreases path
  {
    if path != [] {
      var i := path[0];
      var fs := if v.VRecord? then v.fields else v.payload;
      var part := Put(fs[i], path[1..], w);
      PutOwners(fs[i], path[1..], w);
      OwnersAllUpdate(fs, i, part);
      Swapped(Owners(Put(v, path, w)), Owners(v), Owners(part), Owners(fs[i]), Owners(Get(v, path).value), Owners(w));
    }
  }

  lemma {:induction false} GetOwning(v: Value, path: seq<nat>)
    requires Get(v, path).Some? && Owning(Get(v, path).value)
    ensures Owning(v)
    decreases path
  {
    if path != [] {
      GetOwning(if v.VRecord? then v.fields[path[0]] else v.payload[path[0]], path[1..]);
    }
  }

  lemma {:induction false} PutOwning(v: Value, path: seq<nat>, w: Value)
    requires Get(v, path).Some? && !Owning(v) && !Owning(w)
    ensures !Owning(Put(v, path, w))
    decreases path
  {
    if path != [] {
      PutOwning(if v.VRecord? then v.fields[path[0]] else v.payload[path[0]], path[1..], w);
    }
  }

  /** The value a block holds, a slice's elements taken together. */
  function Root(b: Block): Value {
    match b
    case Elems(vs) => VRecord(vs)
    case CellBox(_, v) => v
    case Storage(v, _) => v
    case _ => VUnit
  }

  /** The block with `w` written at `path`. */
  function Written(b: Block, path: seq<nat>, w: Value): Block
    requires Get(Root(b), path).Some?
  {
    match b
    case Elems(vs) => var v := Put(Root(b), path, w); if v.VRecord? then Elems(v.fields) else b
    case CellBox(count, v) => CellBox(count, Put(v, path, w))
    case Storage(v, owned) => Storage(Put(v, path, w), owned)
    case _ => b
  }

  // ---------------------------------------------------------------
  // resolving a place
  // ---------------------------------------------------------------

  /** A slot, and the blocks passed through on the way: a local's storage,
      then slices. */
  datatype Loc = Loc(slot: Slot, chain: seq<nat>)

  function Load(h: Heap, slot: Slot): Option<Value> {
    if 0 < slot.block <= |h| then Get(Root(h[slot.block - 1]), slot.path) else None
  }

  /** What a reference points at, if the borrow checker kept its promise: a
      slot of a local that is still owned. */
  function Target(h: Heap, slot: Slot): (r: Outcome<Loc>)
    ensures r.Stopped? ==> !r.why.MemoryFault?
  {
    if 0 < slot.block <= |h| && h[slot.block - 1].Storage? && Load(h, slot).Some?
       && (h[slot.block - 1].owned || !Owning(h[slot.block - 1].val))
    then Done(Loc(slot, [slot.block]))
    else Stopped(Promise("a reference outlives what it refers to"))
  }

  /** The storage of a local that is in a state to be used. */
  function Usable(h: Heap, locals: seq<nat>, tys: seq<Ty>, l: nat): (r: Outcome<nat>)
    ensures r.Stopped? ==> !r.why.MemoryFault?
  {
    if l >= |locals| || l >= |tys| || locals[l] == 0 || locals[l] > |h| || !h[locals[l] - 1].Storage?
    then Stopped(Promise("no such local"))
    else if NeedsDrop(tys[l]) && !h[locals[l] - 1].owned
    then Stopped(Promise("use of a moved value"))
    else Done(locals[l])
  }

  function IndexValue(h: Heap, locals: seq<nat>, tys: seq<Ty>, index: Idx): (r: Outcome<int>)
    ensures r.Stopped? ==> !r.why.MemoryFault?
  {
    match index
    case At(n) => Done(n)
    case From(l) =>
      var a := Usable(h, locals, tys, l);
      if a.Stopped? then Stopped(a.why)
      else if h[a.value - 1].val.VInt? then Done(h[a.value - 1].val.n)
      else Stopped(Promise("index of the wrong type"))
  }

  function Resolve(h: Heap, locals: seq<nat>, tys: seq<Ty>, p: Place): (r: Outcome<Loc>)
    ensures r.Stopped? ==> !r.why.MemoryFault?
  {
    match p
    case Local(l) =>
      var a := Usable(h, locals, tys, l);
      if a.Stopped? then Stopped(a.why)
      else if h[a.value - 1].val.VRef? then Target(h, h[a.value - 1].val.slot)
      else Done(Loc(Slot(a.value, []), [a.value]))
    case Deref(l) =>
      var a := Usable(h, locals, tys, l);
      if a.Stopped? then Stopped(a.why)
      else if h[a.value - 1].val.VRef? then Target(h, h[a.value - 1].val.slot)
      else Stopped(Promise("dereference of the wrong type"))
    case Field(base, i) =>
      var r := Resolve(h, locals, tys, base);
      if r.Stopped? then r else
        var v := Load(h, r.value.slot);
        if v.Some? && v.value.VRecord? && i < |v.value.fields|
        then Done(Loc(Slot(r.value.slot.block, r.value.slot.path + [i]), r.value.chain))
        else Stopped(Promise("no such field"))
    case VariantField(base, tag, i) =>
      var r := Resolve(h, locals, tys, base);
      if r.Stopped? then r else
        var v := Load(h, r.value.slot);
        if v.Some? && v.value.VEnum? && v.value.tag == tag && i < |v.value.payload|
        then Done(Loc(Slot(r.value.slot.block, r.value.slot.path + [i]), r.value.chain))
        else Stopped(Promise("no such variant field"))
    case Index(base, index) =>
      var r := Resolve(h, locals, tys, base);
      if r.Stopped? then r else
        var v := Load(h, r.value.slot);
        if v.None? || !v.value.VSlice? then Stopped(Promise("indexing something that is not a slice")) else
          var n := IndexValue(h, locals, tys, index);
          if n.Stopped? then Stopped(n.why)
          else if n.value < 0 || n.value >= |Items(h, v.value.data)| then Stopped(Fault("index out of bounds"))
          else Done(Loc(Slot(v.value.data, [n.value]), r.value.chain + [v.value.data]))
  }

  // ---------------------------------------------------------------
  // chains of blocks
  // ---------------------------------------------------------------

  /** A chain starts at a local's storage; each further block is a slice owned
      by the block before it. */
  ghost predicate Chained(h: Heap, chain: seq<nat>) {
    && |chain| > 0
    && var k := |chain| - 1;
      && 0 < chain[k] <= |h|
      && (if k == 0 then h[chain[0] - 1].Storage? else Linked(h, chain[k - 1], chain[k]) && Chained(h, chain[..k]))
  }

  ghost predicate Linked(h: Heap, a: nat, b: nat) {
    0 < a <= |h| && 0 < b <= |h| && h[b - 1].Elems? && SliceH(b) in Content(h[a - 1])
  }

  lemma {:induction false} ChainBlocks(h: Heap, chain: seq<nat>)
    requires Chained(h, chain)
    ensures forall k :: 0 <= k < |chain| ==> 0 < chain[k] <= |h| && (h[chain[k] - 1].Storage? || h[chain[k] - 1].Elems?)
  {
    var k := |chain| - 1;
    if k > 0 {
      ChainBlocks(h, chain[..k]);
      assert forall i :: 0 <= i < k ==> chain[i] == chain[..k][i];
    }
  }

  /** The slot exists, in the last block of a chain, and what is there is
      accounted for by that block. */
  ghost predicate Settled(h: Heap, loc: Loc) {
    && Chained(h, loc.chain)
    && loc.slot.block == loc.chain[|loc.chain| - 1]
    && Get(Root(h[loc.slot.block - 1]), loc.slot.path).Some?
    && (h[loc.slot.block - 1].Elems? ==> loc.slot.path != [])
    && (h[loc.slot.block - 1].Storage? && !h[loc.slot.block - 1].owned ==> !Owning(h[loc.slot.block - 1].val))
  }

  lemma {:induction false} GetConcat(v: Value, path: seq<nat>, i: nat)
    requires Get(v, path).Some?
    requires var w := Get(v, path).value; (w.VRecord? && i < |w.fields|) || (w.VEnum? && i < |w.payload|)
    ensures Get(v, path + [i]).Some?
    decreases path
  {
    if path == [] {
      assert ([i])[1..] == [];
      assert path + [i] == [i];
      assert Get(if v.VRecord? then v.fields[i] else v.payload[i], []).Some?;
    } else {
      assert (path + [i])[1..] == path[1..] + [i];
      GetConcat(if v.VRecord? then v.fields[path[0]] else v.payload[path[0]], path[1..], i);
    }
  }

  /** The locals a frame names: storage, and without owners where the type has
      none. */
  ghost predicate LocalsOk(h: Heap, locals: seq<nat>, tys: seq<Ty>) {
    && |locals| == |tys|
    && forall l :: 0 <= l < |locals| ==>
        && 0 < locals[l] <= |h| && h[locals[l] - 1].Storage?
        && (!NeedsDrop(tys[l]) ==> !h[locals[l] - 1].owned && !Owning(h[locals[l] - 1].val))
  }

  /** What is stored at a settled slot is owned by the slot's block. */
  lemma RootOwners(b: Block)
    requires b.Storage? && !b.owned ==> !Owning(b.val)
    ensures Owners(Root(b)) == Content(b)
  {
    if b.Storage? && !b.owned {
      NotOwning(b.val);
    }
  }

  lemma SlotOwners(h: Heap, loc: Loc)
    requires Settled(h, loc)
    ensures Owners(Load(h, loc.slot).value) <= Content(h[loc.slot.block - 1])
  {
    var b := h[loc.slot.block - 1];
    PutOwners(Root(b), loc.slot.path, VUnit);
    RootOwners(b);
    hide Chained, Owners, Root, Content;
  }

  /** Resolution arrives at slots that are accounted for. */
  lemma {:induction false} ResolveSettled(h: Heap, roots: multiset<Handle>, locals: seq<nat>, tys: seq<Ty>, p: Place)
    requires Sound(h, {}, roots) && LocalsOk(h, locals, tys)
    requires Resolve(h, locals, tys, p).Done?
    ensures Settled(h, Resolve(h, locals, tys, p).value)
  {
    hide Sound, Root, Content;
    match p
    case Local(l) =>
    case Deref(l) =>
    case Field(base, i) =>
      ResolveSettled(h, roots, locals, tys, base);
      FieldSettled(h, Resolve(h, locals, tys, base).value, i);
    case VariantField(base, tag, i) =>
      ResolveSettled(h, roots, locals, tys, base);
      FieldSettled(h, Resolve(h, locals, tys, base).value, i);
    case Index(base, index) =>
      ResolveSettled(h, roots, locals, tys, base);
      var loc := Resolve(h, locals, tys, base).value;
      IndexSettled(h, roots, loc, IndexValue(h, locals, tys, index).value);
  }

  lemma FieldSettled(h: Heap, loc: Loc, i: nat)
    requires Settled(h, loc)
    requires var v := Load(h, loc.slot).value; (v.VRecord? && i < |v.fields|) || (v.VEnum? && i < |v.payload|)
    ensures Settled(h, Loc(Slot(loc.slot.block, loc.slot.path + [i]), loc.chain))
  {
    GetConcat(Root(h[loc.slot.block - 1]), loc.slot.path, i);
  }

  lemma IndexSettled(h: Heap, roots: multiset<Handle>, loc: Loc, n: int)
    requires Sound(h, {}, roots) && Settled(h, loc) && Load(h, loc.slot).value.VSlice?
    requires 0 <= n < |Items(h, Load(h, loc.slot).value.data)|
    ensures var a := Load(h, loc.slot).value.data; Settled(h, Loc(Slot(a, [n]), loc.chain + [a]))
  {
    hide Sound;
    var a := Load(h, loc.slot).value.data;
    SlotOwners(h, loc);
    hide Content;
    assert SliceH(a) in Owners(VSlice(a));
    var chain := loc.chain + [a];
    assert chain[..|loc.chain|] == loc.chain;
    assert Linked(h, loc.slot.block, a);
    assert Chained(h, chain);
    assert Get(VRecord(h[a - 1].vals), [n]).Some? by {
      assert ([n])[1..] == [];
    }
  }

  function Members(chain: seq<nat>): set<nat> {
    set a | a in chain
  }

  /** The roots once every block of the chain is open. */
  ghost function Opened(h: Heap, roots: multiset<Handle>, chain: seq<nat>): multiset<Handle>
    requires Chained(h, chain)
  {
    var k := |chain| - 1;
    if k == 0 then roots + Content(h[chain[0] - 1])
    else Opened(h, roots, chain[..k]) - multiset{SliceH(chain[k])} + Content(h[chain[k] - 1])
  }

  lemma {:induction false} OpenedLast(h: Heap, roots: multiset<Handle>, chain: seq<nat>)
    requires Chained(h, chain)
    ensures Content(h[chain[|chain| - 1] - 1]) <= Opened(h, roots, chain)
  {
    hide Content;
  }

  lemma MembersFront(chain: seq<nat>)
    requires |chain| > 0
    ensures var k := |chain| - 1; Members(chain) == Members(chain[..k]) + {chain[k]}
  {
    var k := |chain| - 1;
    assert forall a :: a in chain <==> a in chain[..k] || a == chain[k];
  }

  lemma ChainedFront(h: Heap, roots: multiset<Handle>, chain: seq<nat>)
    requires Chained(h, chain) && |chain| > 1
    ensures var k := |chain| - 1;
      && Chained(h, chain[..k])
      && Members(chain) == Members(chain[..k]) + {chain[k]}
      && SliceH(chain[k]) in Opened(h, roots, chain[..k])
      && Opened(h, roots, chain) == Opened(h, roots, chain[..k]) - multiset{SliceH(chain[k])} + Content(h[chain[k] - 1])
  {
    hide Content, Members;
    MembersFront(chain);
    var front := chain[..|chain| - 1];
    OpenedLast(h, roots, front);
    LinkedFront(h, chain);
    assert Content(h[front[|front| - 1] - 1]) <= Opened(h, roots, front);
  }

  lemma LinkedFront(h: Heap, chain: seq<nat>)
    requires Chained(h, chain) && |chain| > 1
    ensures var front := chain[..|chain| - 1];
      && Chained(h, front)
      && SliceH(chain[|chain| - 1]) in Content(h[front[|front| - 1] - 1])
  {
    hide Content;
  }

  lemma {:induction false} OpenChain(h: Heap, roots: multiset<Handle>, chain: seq<nat>)
    requires Sound(h, {}, roots) && Chained(h, chain)
    ensures Sound(h, Members(chain), Opened(h, roots, chain))
    ensures chain[|chain| - 1] !in chain[..|chain| - 1]
  {
    hide Sound, Content;
    var k := |chain| - 1;
    if k == 0 {
      Heaps.Open(h, {}, roots, chain[0]);
      assert Members(chain) == {} + {chain[0]};
    } else {
      var front := chain[..k];
      ChainedFront(h, roots, chain);
      OpenChain(h, roots, front);
      hide Chained;
      Tear(h, Members(front), Opened(h, roots, front), SliceH(chain[k]));
    }
  }

  lemma {:induction false} CloseChain(h: Heap, roots: multiset<Handle>, chain: seq<nat>)
    requires Chained(h, chain) && Sound(h, Members(chain), Opened(h, roots, chain))
    requires Distinct(chain)
    ensures Sound(h, {}, roots)
  {
    hide Sound, Content;
    var k := |chain| - 1;
    if k == 0 {
      assert Members(chain) == {chain[0]};
      ShutStorage(h, {chain[0]}, roots, chain[0]);
      assert {chain[0]} - {chain[0]} == {};
    } else {
      CloseLast(h, roots, chain);
      CloseChain(h, roots, chain[..k]);
    }
  }

  /** Closing the last block of a chain. */
  lemma CloseLast(h: Heap, roots: multiset<Handle>, chain: seq<nat>)
    requires Chained(h, chain) && |chain| > 1 && Sound(h, Members(chain), Opened(h, roots, chain)) && Distinct(chain)
    ensures var front := chain[..|chain| - 1]; Chained(h, front) && Distinct(front) && Sound(h, Members(front), Opened(h, roots, front))
  {
    var k := |chain| - 1;
    var front, x := chain[..k], SliceH(chain[k]);
    ChainedFront(h, roots, chain);
    assert chain[k] !in Members(front);
    hide Sound, Content, Chained, Opened, Members, Distinct;
    var before := Opened(h, roots, front);
    MendTo(h, Members(front), before - multiset{x}, x);
    assert before - multiset{x} + multiset{x} == before;
  }

  lemma ShutStorage(h: Heap, busy: set<nat>, roots: multiset<Handle>, a: nat)
    requires a in busy && 0 < a <= |h| && h[a - 1].Storage?
    requires Sound(h, busy, roots + Content(h[a - 1]))
    ensures Sound(h, busy - {a}, roots)
  {
    hide Sound, Content;
    var c := Content(h[a - 1]);
    Shut(h, busy, roots + c, a);
    assert roots + c - c == roots;
  }

  ghost predicate Distinct(chain: seq<nat>) {
    chain != [] ==> chain[|chain| - 1] !in chain[..|chain| - 1] && Distinct(chain[..|chain| - 1])
  }

  /** A chain never meets the same block twice. */
  lemma {:induction false} ChainDistinct(h: Heap, roots: multiset<Handle>, chain: seq<nat>)
    requires Sound(h, {}, roots) && Chained(h, chain)
    ensures Distinct(chain)
  {
    hide Sound;
    var k := |chain| - 1;
    OpenChain(h, roots, chain);
    if k > 0 {
      ChainDistinct(h, roots, chain[..k]);
    } else {
      assert Distinct(chain[..0]);
    }
  }

  lemma {:induction false} OpenedAdd(h: Heap, roots: multiset<Handle>, more: multiset<Handle>, chain: seq<nat>)
    requires Chained(h, chain)
    ensures Opened(h, roots + more, chain) == Opened(h, roots, chain) + more
  {
    hide Content;
    var k := |chain| - 1;
    if k > 0 {
      ChainedFront(h, roots, chain);
      ChainedFront(h, roots + more, chain);
      OpenedAdd(h, roots, more, chain[..k]);
    }
  }

  /** Opening depends only on what the blocks of the chain hold. */
  lemma {:induction false} OpenedSame(g: Heap, h: Heap, roots: multiset<Handle>, chain: seq<nat>)
    requires Chained(h, chain) && |h| <= |g|
    requires forall a :: a in chain && 0 < a <= |h| ==> g[a - 1] == h[a - 1]
    ensures Chained(g, chain) && Opened(g, roots, chain) == Opened(h, roots, chain)
  {
    hide Content;
    var k := |chain| - 1;
    assert chain[k] in chain;
    if k > 0 {
      assert forall a :: a in chain[..k] ==> a in chain;
      OpenedSame(g, h, roots, chain[..k]);
      assert chain[k - 1] in chain;
      assert Linked(g, chain[k - 1], chain[k]);
    }
  }

  // ---------------------------------------------------------------
  // what reading and writing do to ownership
  // ---------------------------------------------------------------

  /** What is stored at a place, seen with its chain of blocks open. */
  lemma OpenSlot(h: Heap, roots: multiset<Handle>, loc: Loc)
    requires Sound(h, {}, roots) && Settled(h, loc)
    ensures Chained(h, loc.chain) && Distinct(loc.chain)
    ensures Sound(h, Members(loc.chain), Opened(h, roots, loc.chain))
    ensures Owners(Load(h, loc.slot).value) <= Opened(h, roots, loc.chain)
    ensures UpTo(Owners(Load(h, loc.slot).value), |h|) && Ready(h, |h|, {}, Members(loc.chain))
    ensures forall a :: a in loc.chain && 0 < a <= |h| ==> h[a - 1].Storage? || h[a - 1].Elems?
  {
    hide Balanced, Counted, NoGarbage, Content;
    OpenChain(h, roots, loc.chain);
    ChainDistinct(h, roots, loc.chain);
    SlotOwners(h, loc);
    OpenedLast(h, roots, loc.chain);
    BalancedWithin(h, roots);
    ChainBlocks(h, loc.chain);
    forall x | x in Owners(Load(h, loc.slot).value) ensures x.at <= |h| {
      assert x in Content(h[loc.slot.block - 1]);
    }
  }

  /** Cloning what is stored at a place. */
  lemma CloneAt(h: Heap, roots: multiset<Handle>, loc: Loc)
    requires Sound(h, {}, roots) && Settled(h, loc)
    ensures Clone(h, |h|, {}, Load(h, loc.slot).value).Ok?
    ensures var (g, w) := Clone(h, |h|, {}, Load(h, loc.slot).value).value; Sound(g, {}, roots + Owners(w))
  {
    OpenSlot(h, roots, loc);
    hide Sound, Content, Chained, Opened, Members, Distinct, Settled, Load;
    var chain := loc.chain;
    var v := Load(h, loc.slot).value;
    CloneSound(h, |h|, {}, Members(chain), Opened(h, roots, chain), v);
    var (g, w) := Clone(h, |h|, {}, v).value;
    forall a | a in chain && 0 < a <= |h| ensures g[a - 1] == h[a - 1] {
      GrownSame(g, h, 0, a);
    }
    OpenedSame(g, h, roots + Owners(w), chain);
    OpenedAdd(h, roots, Owners(w), chain);
    CloseChain(g, roots + Owners(w), chain);
  }
}
