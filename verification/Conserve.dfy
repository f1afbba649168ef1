/** Conservation across a call: what it was not given stays as it was, and what is
    live afterwards among what it was given or made belongs to its result. */
module Conservation {
  import opened Heaps
  import opened Mir
  import opened Semantics
  import opened Confinement

  // ---------------------------------------------------------------
  // what a call is given
  // ---------------------------------------------------------------

  /** A pointer in the value leads to block `a`: an owner, or a reference to a local
      that may be used. */
  predicate Leads(h: Heap, v: Value, a: nat) {
    match v
    case VStr(b) => b == a && a != 0
    case VSlice(b) => b == a && a != 0
    case VCell(b) => b == a && a != 0
    case VRef(slot) => slot.block == a && 0 < a <= |h| && Enterable(h[a - 1])
    case VRecord(fs) => exists i :: 0 <= i < |fs| && Leads(h, fs[i], a)
    case VEnum(_, fs) => exists i :: 0 <= i < |fs| && Leads(h, fs[i], a)
    case _ => false
  }

  predicate AnyLeads(h: Heap, vs: seq<Value>, a: nat) {
    exists i :: 0 <= i < |vs| && Leads(h, vs[i], a)
  }

  predicate BlockLeads(h: Heap, b: Block, a: nat) {
    match b
    case Elems(vs) => AnyLeads(h, vs, a)
    case CellBox(_, v) => Leads(h, v, a)
    case Storage(v, _) => Leads(h, v, a)
    case _ => false
  }

  ghost predicate Follows(h: Heap, args: seq<Value>, s: set<nat>) {
    && (forall a: nat :: AnyLeads(h, args, a) ==> a in s)
    && (forall i, a: nat :: 0 <= i < |h| && i + 1 in s && BlockLeads(h, h[i], a) ==> a in s)
  }

  /** In every set that holds what the arguments lead to and what the blocks in it
      lead to. */
  ghost predicate Touched(h: Heap, args: seq<Value>, a: nat) {
    forall s: set<nat> | Follows(h, args, s) :: a in s
  }

  lemma TouchedFirst(h: Heap, args: seq<Value>, a: nat)
    requires AnyLeads(h, args, a)
    ensures Touched(h, args, a)
  {
  }

  lemma TouchedOn(h: Heap, args: seq<Value>, i: nat, a: nat)
    requires i < |h| && Touched(h, args, i + 1) && BlockLeads(h, h[i], a)
    ensures Touched(h, args, a)
  {
    forall s: set<nat> | Follows(h, args, s) ensures a in s {
      assert i + 1 in s;
    }
  }

  // ---------------------------------------------------------------
  // what a call leaves alone
  // ---------------------------------------------------------------

  ghost function Around(h: Heap, args: seq<Value>): Wall {
    var rest := set a: nat | a <= |h| && 0 < a && !Touched(h, args, a);
    Wall(rest, set a | a in rest && 0 < a <= |h| && Enterable(h[a - 1]))
  }

  lemma {:induction false} LeadsClear(h: Heap, v: Value, k: Wall)
    requires forall a: nat :: Leads(h, v, a) ==> a !in k.blocks
    requires 0 !in k.blocks && forall p :: p in k.doors ==> p in k.blocks && 0 < p <= |h| && Enterable(h[p - 1])
    ensures Clear(v, k)
  {
    match v
    case VStr(a) => assert a != 0 ==> Leads(h, v, a);
    case VSlice(a) => assert a != 0 ==> Leads(h, v, a);
    case VCell(a) => assert a != 0 ==> Leads(h, v, a);
    case VRef(slot) => assert slot.block in k.doors ==> Leads(h, v, slot.block);
    case VRecord(fs) => LeadsClearAll(h, fs, k);
    case VEnum(_, fs) => LeadsClearAll(h, fs, k);
    case _ =>
  }

  lemma {:induction false} LeadsClearAll(h: Heap, vs: seq<Value>, k: Wall)
    requires forall a: nat :: AnyLeads(h, vs, a) ==> a !in k.blocks
    requires 0 !in k.blocks && forall p :: p in k.doors ==> p in k.blocks && 0 < p <= |h| && Enterable(h[p - 1])
    ensures ClearAll(vs, k)
  {
    forall i | 0 <= i < |vs| ensures Clear(vs[i], k) {
      forall a: nat | Leads(h, vs[i], a) ensures a !in k.blocks {
        assert AnyLeads(h, vs, a);
      }
      LeadsClear(h, vs[i], k);
    }
  }

  lemma AroundWalled(h: Heap, args: seq<Value>)
    ensures Walled(h, Around(h, args)) && ClearAll(args, Around(h, args))
  {
    var k := Around(h, args);
    forall a: nat | AnyLeads(h, args, a) ensures a !in k.blocks {
      TouchedFirst(h, args, a);
    }
    LeadsClearAll(h, args, k);
    forall i | 0 <= i < |h| && i + 1 !in k.blocks ensures ClearBlock(h[i], k) {
      var b := i + 1;
      assert b <= |h| && Touched(h, args, b);
      forall a: nat | BlockLeads(h, h[i], a) ensures a !in k.blocks {
        TouchedOn(h, args, i, a);
      }
      hide Touched;
      BlockClear(h, h[i], k);
    }
  }

  lemma BlockClear(h: Heap, b: Block, k: Wall)
    requires forall a: nat :: BlockLeads(h, b, a) ==> a !in k.blocks
    requires 0 !in k.blocks && forall p :: p in k.doors ==> p in k.blocks && 0 < p <= |h| && Enterable(h[p - 1])
    ensures ClearBlock(b, k)
  {
    match b
    case Elems(vs) => LeadsClearAll(h, vs, k);
    case CellBox(_, v) => LeadsClear(h, v, k);
    case Storage(v, _) => LeadsClear(h, v, k);
    case _ =>
  }

  /** Blocks the arguments do not lead to are the same after the call, and none of
      the others has become a constant. */
  ghost predicate Spares(h: Heap, h': Heap, args: seq<Value>) {
    && |h| <= |h'|
    && (forall a :: 0 < a <= |h| && !Touched(h, args, a) ==> h'[a - 1] == h[a - 1])
    && (forall i :: 0 <= i < |h| && Constant(h'[i]) ==> h'[i] == h[i])
  }

  lemma CallSpares(program: map<string, Body>, limits: Limits, depth: nat, w: World, n: nat, name: string, args: seq<Value>)
    requires n <= limits.budget && Invoked(program, limits, depth, w, n, name, args).Done?
    ensures Spares(w.heap, Invoked(program, limits, depth, w, n, name, args).value.0.heap, args)
  {
    hide Invoked, Touched, Walled, ClearAll, Clear;
    AroundWalled(w.heap, args);
    var k := Around(w.heap, args);
    InvokedRespects(program, limits, depth, w, n, name, args, k);
    forall a | 0 < a <= |w.heap| && !Touched(w.heap, args, a) ensures a in k.blocks {
    }
  }

  // ---------------------------------------------------------------
  // who owns what the call was given
  // ---------------------------------------------------------------

  /** Owning pointers are counted among the owners of a value. */
  lemma {:induction false} LeadsOwner(h: Heap, v: Value, a: nat)
    requires Leads(h, v, a)
    ensures (0 < a <= |h| && Enterable(h[a - 1])) || exists x :: x in Owners(v) && x.at == a
  {
    match v
    case VStr(_) => assert StrH(a) in Owners(v);
    case VSlice(_) => assert SliceH(a) in Owners(v);
    case VCell(_) => assert CellH(a) in Owners(v);
    case VRef(_) =>
    case VRecord(fs) => LeadsOwnerAll(h, fs, a);
    case VEnum(_, fs) => LeadsOwnerAll(h, fs, a);
  }

  lemma {:induction false} LeadsOwnerAll(h: Heap, vs: seq<Value>, a: nat)
    requires AnyLeads(h, vs, a)
    ensures (0 < a <= |h| && Enterable(h[a - 1])) || exists x :: x in OwnersAll(vs) && x.at == a
  {
    var i :| 0 <= i < |vs| && Leads(h, vs[i], a);
    LeadsOwner(h, vs[i], a);
    if !(0 < a <= |h| && Enterable(h[a - 1])) {
      var x :| x in Owners(vs[i]) && x.at == a;
      OwnersAllUpdate(vs, i, vs[i]);
      assert x in OwnersAll(vs);
    }
  }

  /** Whatever a block that is no dead storage leads to is a usable local or owned by
      the block. */
  lemma BlockLeadsOwner(h: Heap, b: Block, a: nat)
    requires BlockLeads(h, b, a) && (b.Storage? ==> Enterable(b))
    ensures (0 < a <= |h| && Enterable(h[a - 1])) || exists x :: x in Content(b) && x.at == a
  {
    match b
    case Elems(vs) => LeadsOwnerAll(h, vs, a);
    case CellBox(_, v) => LeadsOwner(h, v, a);
    case Storage(v, owned) =>
      LeadsOwner(h, v, a);
      if !owned {
        NotOwning(v);
      }
  }

  /** Blocks there can be something to reach in. */
  predicate NotDead(h: Heap, a: nat) {
    0 < a <= |h| && (h[a - 1].Storage? ==> Enterable(h[a - 1]))
  }

  ghost function Alive(h: Heap): (s: set<nat>)
    ensures forall a :: a in s <==> NotDead(h, a)
  {
    set a: nat | a <= |h| && NotDead(h, a)
  }

  lemma ContentAlive(h: Heap, roots: multiset<Handle>, i: nat, a: nat)
    requires Balanced(h, {}, roots) && i < |h| && i + 1 in Alive(h) && BlockLeads(h, h[i], a)
    ensures a in Alive(h)
  {
    BlockLeadsOwner(h, h[i], a);
    if !(0 < a <= |h| && Enterable(h[a - 1])) {
      var x :| x in Content(h[i]) && x.at == a;
      HeldAt(h, {}, i, x);
      RootLive(h, {}, roots, x);
    }
  }

  lemma ArgsAlive(h: Heap, leaked: multiset<Handle>, args: seq<Value>, a: nat)
    requires Balanced(h, {}, leaked + OwnersAll(args)) && AnyLeads(h, args, a)
    ensures a in Alive(h)
  {
    LeadsOwnerAll(h, args, a);
    if !(0 < a <= |h| && Enterable(h[a - 1])) {
      var x :| x in OwnersAll(args) && x.at == a;
      RootLive(h, {}, leaked + OwnersAll(args), x);
    }
  }

  lemma AliveFollows(h: Heap, leaked: multiset<Handle>, args: seq<Value>)
    requires Balanced(h, {}, leaked + OwnersAll(args))
    ensures Follows(h, args, Alive(h))
  {
    hide Balanced, Alive, BlockLeads, AnyLeads;
    forall a: nat | AnyLeads(h, args, a) ensures a in Alive(h) {
      ArgsAlive(h, leaked, args, a);
    }
    forall i, a: nat | 0 <= i < |h| && i + 1 in Alive(h) && BlockLeads(h, h[i], a) ensures a in Alive(h) {
      ContentAlive(h, leaked + OwnersAll(args), i, a);
    }
  }

  lemma {:induction false} HeldTwo(h: Heap, i: nat, j: nat, x: Handle)
    requires i < j < |h|
    ensures Content(h[i])[x] + Content(h[j])[x] <= Held(h, {}, x)
  {
    hide Content;
    var n := |h| - 1;
    if j < n {
      HeldTwo(h[..n], i, j, x);
    } else {
      HeldAt(h[..n], {}, i, x);
    }
  }

  /** An owner of a string or slice outside what is touched. */
  ghost predicate OwnedOutside(h: Heap, leaked: multiset<Handle>, args: seq<Value>, x: Handle) {
    x in leaked || exists i :: 0 <= i < |h| && !Touched(h, args, i + 1) && x in Content(h[i])
  }

  /** With an owner outside, no touched block and no argument owns it. */
  lemma NoOtherOwner(h: Heap, leaked: multiset<Handle>, args: seq<Value>, x: Handle)
    requires Balanced(h, {}, leaked + OwnersAll(args)) && !x.CellH? && OwnedOutside(h, leaked, args, x)
    ensures x !in OwnersAll(args) && 0 < x.at <= |h| && Fitting(x, h[x.at - 1])
    ensures forall j :: 0 <= j < |h| && Touched(h, args, j + 1) ==> x !in Content(h[j])
  {
    hide Touched;
    var roots := leaked + OwnersAll(args);
    assert Held(h, {}, x) + roots[x] == Refs(h, {}, x);
    assert roots[x] == leaked[x] + OwnersAll(args)[x];
    if x in leaked {
      RootLive(h, {}, roots, x);
      forall j | 0 <= j < |h| && Touched(h, args, j + 1) ensures x !in Content(h[j]) {
        HeldAt(h, {}, j, x);
      }
    } else {
      var i :| 0 <= i < |h| && !Touched(h, args, i + 1) && x in Content(h[i]);
      HeldAt(h, {}, i, x);
      RootLive(h, {}, roots, x);
      forall j | 0 <= j < |h| && Touched(h, args, j + 1) ensures x !in Content(h[j]) {
        if i < j {
          HeldTwo(h, i, j, x);
        } else if j < i {
          HeldTwo(h, j, i, x);
        }
      }
    }
  }

  lemma SameHandle(x: Handle, y: Handle, b: Block)
    requires Fitting(x, b) && Fitting(y, b) && x.at == y.at
    ensures x == y
  {
  }

  /** What somebody outside owns is not touched. */
  lemma OutsideUntouched(h: Heap, leaked: multiset<Handle>, args: seq<Value>, x: Handle)
    requires Balanced(h, {}, leaked + OwnersAll(args)) && !x.CellH? && OwnedOutside(h, leaked, args, x)
    ensures !Touched(h, args, x.at)
  {
    var b := x.at;
    NoOtherOwner(h, leaked, args, x);
    AliveFollows(h, leaked, args);
    var s := set a | a in Alive(h) && Touched(h, args, a) && a != b;
    forall a: nat | AnyLeads(h, args, a) ensures a in s {
      TouchedFirst(h, args, a);
      hide Touched, Follows;
      ArgsAlive(h, leaked, args, a);
      ArgsElsewhere(h, leaked, args, x, a);
    }
    forall i, a: nat | 0 <= i < |h| && i + 1 in s && BlockLeads(h, h[i], a) ensures a in s {
      TouchedOn(h, args, i, a);
      hide Touched, Follows;
      ContentAlive(h, leaked + OwnersAll(args), i, a);
      ContentElsewhere(h, leaked + OwnersAll(args), x, i, a);
    }
    assert Follows(h, args, s);
  }

  lemma ArgsElsewhere(h: Heap, leaked: multiset<Handle>, args: seq<Value>, x: Handle, a: nat)
    requires Balanced(h, {}, leaked + OwnersAll(args)) && x !in OwnersAll(args) && 0 < x.at <= |h| && Fitting(x, h[x.at - 1]) && AnyLeads(h, args, a)
    ensures a != x.at
  {
    LeadsOwnerAll(h, args, a);
    if a == x.at && !Enterable(h[a - 1]) {
      var y :| y in OwnersAll(args) && y.at == a;
      RootLive(h, {}, leaked + OwnersAll(args), y);
      SameHandle(x, y, h[a - 1]);
    }
  }

  lemma ContentElsewhere(h: Heap, roots: multiset<Handle>, x: Handle, i: nat, a: nat)
    requires Balanced(h, {}, roots) && 0 < x.at <= |h| && Fitting(x, h[x.at - 1])
    requires i < |h| && i + 1 in Alive(h) && x !in Content(h[i]) && BlockLeads(h, h[i], a)
    ensures a != x.at
  {
    BlockLeadsOwner(h, h[i], a);
    hide Balanced, BlockLeads, Content;
    if a == x.at && !Enterable(h[a - 1]) {
      var y :| y in Content(h[i]) && y.at == a;
      HeldAt(h, {}, i, y);
      RootLive(h, {}, roots, y);
      SameHandle(x, y, h[a - 1]);
    }
  }

  // ---------------------------------------------------------------
  // what is live afterwards
  // ---------------------------------------------------------------

  ghost predicate HeldSet(h: Heap, h': Heap, args: seq<Value>, v: Value, t: set<nat>) {
    && (forall x :: x in Owners(v) ==> x.at in t)
    && (forall p :: 0 < p <= |h'| && Pinned(h'[p - 1]) && (p > |h| || Touched(h, args, p)) ==> p in t)
    && (forall i, x :: 0 <= i < |h'| && i + 1 in t && x in Content(h'[i]) ==> x.at in t)
  }

  /** Owned by the result, by a local the call was given a reference to, or by a cell
      it was given or made, directly or through other blocks. */
  ghost predicate Belongs(h: Heap, h': Heap, args: seq<Value>, v: Value, a: nat) {
    forall t: set<nat> | HeldSet(h, h', args, v, t) :: a in t
  }

  /** The blocks the arguments do not lead to are as they were; of the others and of
      the new ones, every live one belongs to the result or to what the call was given
      to work on; no storage of the call's own is left. */
  ghost predicate Conserves(h: Heap, h': Heap, args: seq<Value>, v: Value) {
    && Spares(h, h', args)
    && (forall a :: 0 < a <= |h'| && Owned(h'[a - 1]) && (a > |h| || Touched(h, args, a)) ==> Belongs(h, h', args, v, a))
    && NoStorageMade(h, h')
  }

  predicate NoStorageMade(h: Heap, h': Heap) {
    forall i :: 0 <= i < |h'| && h'[i].Storage? ==> i < |h| && h[i].Storage?
  }

  ghost function Rest(h: Heap, args: seq<Value>): (s: set<nat>)
    ensures forall a :: a in s <==> 0 < a <= |h| && !Touched(h, args, a)
  {
    set a: nat | a <= |h| && 0 < a && !Touched(h, args, a)
  }

  /** What somebody outside owns is in the rest, or a cell that is still there. */
  lemma OutsideOwns(h: Heap, h': Heap, leaked: multiset<Handle>, args: seq<Value>, v: Value, t: set<nat>, x: Handle)
    requires Balanced(h, {}, leaked + OwnersAll(args)) && Balanced(h', {}, leaked + Owners(v)) && HeldSet(h, h', args, v, t)
    requires OwnedOutside(h, leaked, args, x) && (x in leaked || Held(h', {}, x) > 0) && 0 < x.at <= |h|
    ensures x.at in t + Rest(h, args)
  {
    hide Touched;
    if Touched(h, args, x.at) {
      if x.CellH? {
        RootLive(h', {}, leaked + Owners(v), x);
      } else {
        OutsideUntouched(h, leaked, args, x);
      }
    }
  }

  lemma RootsAfter(h: Heap, h': Heap, leaked: multiset<Handle>, args: seq<Value>, v: Value, t: set<nat>, x: Handle)
    requires Balanced(h, {}, leaked + OwnersAll(args)) && Balanced(h', {}, leaked + Owners(v)) && HeldSet(h, h', args, v, t)
    requires x in leaked + Owners(v)
    ensures x.at in t + Rest(h, args)
  {
    hide Touched, Balanced;
    if x !in Owners(v) {
      assert x in leaked;
      RootLive(h, {}, leaked + OwnersAll(args), x);
      hide HeldSet;
      OutsideOwns(h, h', leaked, args, v, t, x);
    }
  }

  lemma ContentAfter(h: Heap, h': Heap, leaked: multiset<Handle>, args: seq<Value>, v: Value, t: set<nat>, i: nat, x: Handle)
    requires Balanced(h, {}, leaked + OwnersAll(args)) && Balanced(h', {}, leaked + Owners(v)) && HeldSet(h, h', args, v, t)
    requires Spares(h, h', args) && i < |h'| && i + 1 in Rest(h, args) && x in Content(h'[i])
    ensures x.at in t + Rest(h, args)
  {
    var a := i + 1;
    assert a in Rest(h, args) && h'[a - 1] == h[a - 1];
    hide Touched, Balanced, HeldSet;
    HeldAt(h, {}, i, x);
    RootLive(h, {}, leaked + OwnersAll(args), x);
    HeldAt(h', {}, i, x);
    OutsideOwns(h, h', leaked, args, v, t, x);
  }

  lemma ClosedAfter(h: Heap, h': Heap, leaked: multiset<Handle>, args: seq<Value>, v: Value, t: set<nat>)
    requires Balanced(h, {}, leaked + OwnersAll(args)) && Balanced(h', {}, leaked + Owners(v))
    requires Spares(h, h', args) && HeldSet(h, h', args, v, t)
    ensures Closed(h', {}, leaked + Owners(v), t + Rest(h, args))
  {
    hide Touched, Balanced, Content, Spares;
    var u := t + Rest(h, args);
    forall x | x in leaked + Owners(v) ensures x.at in u {
      RootsAfter(h, h', leaked, args, v, t, x);
    }
    forall i | 0 <= i < |h'| && i + 1 !in {} && Pinned(h'[i]) ensures i + 1 in u {
      var p := i + 1;
      assert Pinned(h'[p - 1]);
    }
    forall i, x | 0 <= i < |h'| && i + 1 !in {} && i + 1 in u && x in Content(h'[i]) ensures x.at in u {
      if i + 1 !in t {
        ContentAfter(h, h', leaked, args, v, t, i, x);
      }
    }
  }

  lemma LiveBelongs(h: Heap, h': Heap, leaked: multiset<Handle>, args: seq<Value>, v: Value, a: nat)
    requires Sound(h, {}, leaked + OwnersAll(args)) && Sound(h', {}, leaked + Owners(v)) && Spares(h, h', args)
    requires 0 < a <= |h'| && Owned(h'[a - 1]) && (a > |h| || Touched(h, args, a))
    ensures Belongs(h, h', args, v, a)
  {
    hide Touched, Balanced, Spares;
    forall t: set<nat> | HeldSet(h, h', args, v, t) ensures a in t {
      ClosedAfter(h, h', leaked, args, v, t);
      var u := t + Rest(h, args);
      hide HeldSet, Closed;
      assert Covered(h', {}, u);
      var i := a - 1;
      assert i + 1 in u;
    }
  }

  /** Any call that spares what it was not given, between heaps in which ownership is
      in order and with no storage left over, conserves. */
  lemma CallConserves(h: Heap, h': Heap, leaked: multiset<Handle>, args: seq<Value>, v: Value)
    requires Sound(h, {}, leaked + OwnersAll(args)) && Sound(h', {}, leaked + Owners(v)) && Spares(h, h', args)
    requires NoStorageMade(h, h')
    ensures Conserves(h, h', args, v)
  {
    hide Touched, Sound, Belongs, Spares;
    forall a | 0 < a <= |h'| && Owned(h'[a - 1]) && (a > |h| || Touched(h, args, a)) ensures Belongs(h, h', args, v, a) {
      LiveBelongs(h, h', leaked, args, v, a);
    }
  }

  // ---------------------------------------------------------------
  // calls without references and cells
  // ---------------------------------------------------------------

  predicate RefFree(v: Value) {
    match v
    case VRef(_) => false
    case VRecord(fs) => forall i :: 0 <= i < |fs| ==> RefFree(fs[i])
    case VEnum(_, fs) => forall i :: 0 <= i < |fs| ==> RefFree(fs[i])
    case _ => true
  }

  predicate RefFreeBlock(b: Block) {
    match b
    case Elems(vs) => forall i :: 0 <= i < |vs| ==> RefFree(vs[i])
    case CellBox(_, v) => RefFree(v)
    case _ => true
  }

  lemma {:induction false} OwnerOnly(h: Heap, v: Value, a: nat)
    requires RefFree(v) && Leads(h, v, a)
    ensures exists x :: x in Owners(v) && x.at == a
  {
    match v
    case VStr(_) => assert StrH(a) in Owners(v);
    case VSlice(_) => assert SliceH(a) in Owners(v);
    case VCell(_) => assert CellH(a) in Owners(v);
    case VRecord(fs) => OwnerOnlyAll(h, fs, a);
    case VEnum(_, fs) => OwnerOnlyAll(h, fs, a);
  }

  lemma {:induction false} OwnerOnlyAll(h: Heap, vs: seq<Value>, a: nat)
    requires (forall i :: 0 <= i < |vs| ==> RefFree(vs[i])) && AnyLeads(h, vs, a)
    ensures exists x :: x in OwnersAll(vs) && x.at == a
  {
    var i :| 0 <= i < |vs| && Leads(h, vs[i], a);
    OwnerOnly(h, vs[i], a);
    var x :| x in Owners(vs[i]) && x.at == a;
    OwnersAllUpdate(vs, i, vs[i]);
    assert x in OwnersAll(vs);
  }

  lemma ArgsNoLocal(h: Heap, leaked: multiset<Handle>, args: seq<Value>, b: nat)
    requires Balanced(h, {}, leaked + OwnersAll(args)) && (forall i :: 0 <= i < |args| ==> RefFree(args[i])) && AnyLeads(h, args, b)
    ensures 0 < b <= |h| && !h[b - 1].Storage? && !Constant(h[b - 1])
  {
    OwnerOnlyAll(h, args, b);
    var x :| x in OwnersAll(args) && x.at == b;
    hide Balanced;
    RootLive(h, {}, leaked + OwnersAll(args), x);
  }

  lemma ContentNoLocal(h: Heap, roots: multiset<Handle>, i: nat, b: nat)
    requires Balanced(h, {}, roots) && i < |h| && RefFreeBlock(h[i]) && !h[i].Storage? && BlockLeads(h, h[i], b)
    ensures 0 < b <= |h| && !h[b - 1].Storage? && !Constant(h[b - 1])
  {
    BlockOwnerOnly(h, h[i], b);
    var x :| x in Content(h[i]) && x.at == b;
    hide Balanced;
    HeldAt(h, {}, i, x);
    RootLive(h, {}, roots, x);
  }

  /** Without references among them, arguments lead to no local and no constant. */
  lemma TouchesNoLocal(h: Heap, leaked: multiset<Handle>, args: seq<Value>, a: nat)
    requires Balanced(h, {}, leaked + OwnersAll(args)) && 0 < a <= |h|
    requires forall i :: 0 <= i < |args| ==> RefFree(args[i])
    requires forall i :: 0 <= i < |h| && Touched(h, args, i + 1) && !h[i].Storage? ==> RefFreeBlock(h[i])
    ensures Touched(h, args, a) ==> !h[a - 1].Storage? && !Constant(h[a - 1])
  {
    hide Balanced, BlockLeads, AnyLeads;
    var s := set b: nat | b <= |h| && 0 < b && Touched(h, args, b) && !h[b - 1].Storage? && !Constant(h[b - 1]);
    var roots := leaked + OwnersAll(args);
    forall b: nat | AnyLeads(h, args, b) ensures b in s {
      TouchedFirst(h, args, b);
      hide Touched;
      ArgsNoLocal(h, leaked, args, b);
    }
    forall i, b: nat | 0 <= i < |h| && i + 1 in s && BlockLeads(h, h[i], b) ensures b in s {
      TouchedOn(h, args, i, b);
      hide Touched;
      ContentNoLocal(h, roots, i, b);
    }
    assert Follows(h, args, s);
  }

  lemma BlockOwnerOnly(h: Heap, b: Block, a: nat)
    requires RefFreeBlock(b) && !b.Storage? && BlockLeads(h, b, a)
    ensures exists x :: x in Content(b) && x.at == a
  {
    match b
    case Elems(vs) => OwnerOnlyAll(h, vs, a);
    case CellBox(_, v) => OwnerOnly(h, v, a);
  }

  ghost predicate ReachedSet(h: Heap, v: Value, t: set<nat>) {
    && (forall x :: x in Owners(v) ==> x.at in t)
    && (forall i, x :: 0 <= i < |h| && i + 1 in t && x in Content(h[i]) ==> x.at in t)
  }

  /** Owned by the value, directly or through other blocks. */
  ghost predicate Reached(h: Heap, v: Value, a: nat) {
    forall t: set<nat> | ReachedSet(h, v, t) :: a in t
  }

  /** Conservation as it reads for a call without references among its arguments and
      with no cell among what they lead to or what is new: every block the arguments
      do not own is the same, every block they own is gone or owned by the result, and
      whatever is new is gone, owned by the result, or a constant. */
  lemma PlainCallConserves(h: Heap, h': Heap, leaked: multiset<Handle>, args: seq<Value>, v: Value, a: nat)
    requires Balanced(h, {}, leaked + OwnersAll(args)) && Conserves(h, h', args, v) && 0 < a <= |h'|
    requires forall i :: 0 <= i < |args| ==> RefFree(args[i])
    requires forall i :: 0 <= i < |h| && Touched(h, args, i + 1) && !h[i].Storage? ==> RefFreeBlock(h[i])
    requires forall i :: 0 <= i < |h'| && h'[i].CellBox? ==> i < |h| && !Touched(h, args, i + 1)
    ensures a <= |h| && !Touched(h, args, a) ==> h'[a - 1] == h[a - 1]
    ensures a <= |h| && Touched(h, args, a) ==> h'[a - 1].Freed? || Reached(h', v, a)
    ensures a > |h| ==> h'[a - 1].Freed? || Reached(h', v, a) || Constant(h'[a - 1])
  {
    hide Touched, Balanced;
    var last := a - 1;
    assert h'[last].Storage? ==> last < |h| && h[last].Storage?;
    if a <= |h| && Touched(h, args, a) {
      TouchesNoLocal(h, leaked, args, a);
    }
    if Owned(h'[a - 1]) && (a > |h| || Touched(h, args, a)) {
      assert Belongs(h, h', args, v, a);
      forall t: set<nat> | ReachedSet(h', v, t) ensures a in t {
        forall p | 0 < p <= |h'| ensures !(Pinned(h'[p - 1]) && (p > |h| || Touched(h, args, p))) {
          var i := p - 1;
          assert h'[i].Storage? ==> i < |h| && h[i].Storage?;
          assert h'[i].CellBox? ==> i < |h| && !Touched(h, args, i + 1);
          if p <= |h| {
            TouchesNoLocal(h, leaked, args, p);
          }
        }
        assert HeldSet(h, h', args, v, t);
      }
    }
  }
}
