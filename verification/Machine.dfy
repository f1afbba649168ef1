/** The compile-time evaluator: frames over a typed heap, drop flags, drop and
    clone glue run in place, calls, shared cells, an instruction budget and a
    call-depth limit. */
module Evaluator {
  import opened Heaps
  import opened Mir
  import opened DropGlue
  import opened CloneGlue
  import opened Places
  import opened Steps
  import opened Semantics
  import C = Conservation

  ghost predicate FramesOk(h: Heap, frames: seq<Frame>) {
    forall f :: 0 <= f < |frames| ==> LocalsOk(h, frames[f].locals, frames[f].body.locals)
  }

  /** No two locals share storage. */
  ghost predicate Apart(frames: seq<Frame>) {
    forall f, l, g, m | 0 <= f < |frames| && 0 <= l < |frames[f].locals| && 0 <= g < |frames| && 0 <= m < |frames[g].locals| ::
      frames[f].locals[l] == frames[g].locals[m] ==> f == g && l == m
  }

  ghost predicate StaticsOk(h: Heap, statics: map<seq<nat>, nat>) {
    forall s :: s in statics ==> 0 < statics[s] <= |h| && h[statics[s] - 1] == Data(s, true)
  }

  /** A local's storage that has never held an owner stays that way. */
  predicate Tame(b: Block) {
    b.Storage? && !b.owned && !Owning(b.val)
  }

  /** What every step but the end of a call keeps: storage stays storage,
      plain storage stays plain, constants stay. */
  ghost predicate Holds(g: Heap, h: Heap) {
    && |h| <= |g|
    && forall i :: 0 <= i < |h| ==>
        && (h[i].Data? && h[i].fixed ==> g[i] == h[i])
        && (h[i].Storage? ==> g[i].Storage?)
        && (Tame(h[i]) ==> Tame(g[i]))
  }

  /** No block became storage. */
  ghost predicate NoneNew(g: Heap, h: Heap) {
    forall i :: 0 <= i < |g| && g[i].Storage? ==> i < |h| && h[i].Storage?
  }

  ghost predicate Keeps(g: Heap, h: Heap) {
    Holds(g, h) && NoneNew(g, h)
  }

  /** All storage belongs to a local of a frame, or is listed in `extra`. */
  ghost predicate Named(h: Heap, frames: seq<Frame>, extra: seq<nat>) {
    forall i :: 0 <= i < |h| && h[i].Storage? ==> i + 1 in extra || Names(frames, i + 1)
  }

  ghost predicate Names(frames: seq<Frame>, a: nat) {
    exists f :: 0 <= f < |frames| && a in frames[f].locals
  }

  lemma KeepsTrans(f: Heap, g: Heap, h: Heap)
    requires Keeps(f, g) && Keeps(g, h)
    ensures Keeps(f, h)
  {
  }

  lemma KeepsBelow(g: Heap, h: Heap)
    requires Below(g, h)
    ensures Keeps(g, h)
  {
    forall i | 0 <= i < |h| ensures (h[i].Data? && h[i].fixed) || h[i].Storage? ==> g[i] == h[i] {
      assert Leq(g[i], h[i]);
    }
  }

  lemma KeepsGrown(g: Heap, h: Heap)
    requires Grown(g, h)
    ensures Keeps(g, h)
  {
    forall i | 0 <= i < |h| ensures (h[i].Data? && h[i].fixed) || h[i].Storage? ==> g[i] == h[i] {
      assert Bumped(g[i], h[i]);
    }
  }

  lemma FramesKeep(g: Heap, h: Heap, frames: seq<Frame>, statics: map<seq<nat>, nat>)
    requires Holds(g, h) && FramesOk(h, frames) && StaticsOk(h, statics)
    ensures FramesOk(g, frames) && StaticsOk(g, statics)
  {
    forall f | 0 <= f < |frames| ensures LocalsOk(g, frames[f].locals, frames[f].body.locals) {
      var locals, tys := frames[f].locals, frames[f].body.locals;
      assert LocalsOk(h, locals, tys);
      forall l | 0 <= l < |locals|
        ensures 0 < locals[l] <= |g| && g[locals[l] - 1].Storage?
        ensures !NeedsDrop(tys[l]) ==> Tame(g[locals[l] - 1])
      {
        assert h[locals[l] - 1].Storage?;
        assert !NeedsDrop(tys[l]) ==> Tame(h[locals[l] - 1]);
      }
    }
  }

  /** Writing one local's storage. */
  lemma FramesWrite(g: Heap, h: Heap, frames: seq<Frame>, statics: map<seq<nat>, nat>, f: nat, l: nat)
    requires FramesOk(h, frames) && Apart(frames) && StaticsOk(h, statics)
    requires f < |frames| && l < |frames[f].locals| && |g| == |h|
    requires LocalsOk(h, frames[f].locals, frames[f].body.locals)
    requires forall i :: 0 <= i < |h| && i + 1 != frames[f].locals[l] ==> g[i] == h[i]
    requires g[frames[f].locals[l] - 1].Storage?
    requires !NeedsDrop(frames[f].body.locals[l]) ==> Tame(g[frames[f].locals[l] - 1])
    ensures FramesOk(g, frames) && StaticsOk(g, statics)
  {
    var a := frames[f].locals[l];
    forall e | 0 <= e < |frames| ensures LocalsOk(g, frames[e].locals, frames[e].body.locals) {
      var locals, tys := frames[e].locals, frames[e].body.locals;
      assert LocalsOk(h, locals, tys);
      forall m | 0 <= m < |locals|
        ensures 0 < locals[m] <= |g| && g[locals[m] - 1].Storage?
        ensures !NeedsDrop(tys[m]) ==> Tame(g[locals[m] - 1])
      {
        if locals[m] == a {
          assert frames[e].locals[m] == frames[f].locals[l];
        } else {
          assert g[locals[m] - 1] == h[locals[m] - 1];
        }
      }
    }
    forall t | t in statics ensures 0 < statics[t] <= |g| && g[statics[t] - 1] == Data(t, true) {
      assert h[statics[t] - 1] == Data(t, true);
    }
  }

  /** Taking the newest frame away and freeing one of its locals leaves the
      other frames alone. */
  lemma FramesFree(g: Heap, h: Heap, frames: seq<Frame>, statics: map<seq<nat>, nat>, a: nat)
    requires FramesOk(h, frames) && StaticsOk(h, statics) && 0 < a <= |h| && h[a - 1].Storage? && g == h[a - 1 := Freed]
    requires forall f, l :: 0 <= f < |frames| && 0 <= l < |frames[f].locals| ==> frames[f].locals[l] != a
    ensures FramesOk(g, frames) && StaticsOk(g, statics)
  {
    forall e | 0 <= e < |frames| ensures LocalsOk(g, frames[e].locals, frames[e].body.locals) {
      var locals, tys := frames[e].locals, frames[e].body.locals;
      assert LocalsOk(h, locals, tys);
      forall m | 0 <= m < |locals|
        ensures 0 < locals[m] <= |g| && g[locals[m] - 1].Storage?
        ensures !NeedsDrop(tys[m]) ==> Tame(g[locals[m] - 1])
      {
        assert frames[e].locals[m] != a;
      }
    }
    forall t | t in statics ensures 0 < statics[t] <= |g| && g[statics[t] - 1] == Data(t, true) {
      assert h[statics[t] - 1] == Data(t, true);
    }
  }

  /** What reading, moving and cloning keep: nothing that was live goes away. */
  ghost predicate Persists(g: Heap, h: Heap) {
    && |h| <= |g|
    && forall i :: 0 <= i < |h| && !h[i].Storage? ==> Bumped(g[i], h[i])
  }

  lemma PersistsTrans(f: Heap, g: Heap, h: Heap)
    requires Persists(f, g) && Persists(g, h)
    ensures Persists(f, h)
  {
    forall i | 0 <= i < |h| && !h[i].Storage? ensures Bumped(f[i], h[i]) {
      assert Bumped(g[i], h[i]);
      assert Bumped(f[i], g[i]);
    }
  }

  lemma PersistsGrown(g: Heap, h: Heap)
    requires Grown(g, h)
    ensures Persists(g, h)
  {
  }

  /** What is stored at a place can be read: its pointers are live. */
  lemma ReadLive(h: Heap, roots: multiset<Handle>, loc: Loc, x: Handle)
    requires Sound(h, {}, roots) && Places.Settled(h, loc) && x in Owners(Places.Load(h, loc.slot).value)
    ensures 0 < x.at <= |h| && Fitting(x, h[x.at - 1])
    ensures x.CellH? ==> h[x.at - 1].count > 0
  {
    SlotOwners(h, loc);
    assert x in Content(h[loc.slot.block - 1]);
    HeldAt(h, {}, loc.slot.block - 1, x);
    RootLive(h, {}, roots, x);
  }

  lemma LocalSettled(h: Heap, locals: seq<nat>, tys: seq<Ty>, l: nat)
    requires LocalsOk(h, locals, tys) && Usable(h, locals, tys, l).Done?
    ensures var a := Usable(h, locals, tys, l).value; Places.Settled(h, Loc(Slot(a, []), [a]))
  {
  }

  lemma {:induction false} ZeroElems(n: nat, z: Value)
    requires Owners(z) == multiset{}
    ensures OwnersAll(seq(n, _ => z)) == multiset{}
  {
    if n > 0 {
      assert seq(n, _ => z)[1..] == seq(n - 1, _ => z);
      ZeroElems(n - 1, z);
    }
  }

  /** None of the locals is owned. */
  ghost predicate Idle(h: Heap, locals: seq<nat>) {
    forall a :: a in locals ==> 0 < a <= |h| && h[a - 1].Storage? && !h[a - 1].owned
  }

  lemma StorageBelow(g: Heap, h: Heap)
    requires Below(g, h)
    ensures forall i :: 0 <= i < |h| && h[i].Storage? ==> g[i] == h[i]
  {
    forall i | 0 <= i < |h| && h[i].Storage? ensures g[i] == h[i] {
      assert Leq(g[i], h[i]);
    }
  }

  lemma DropFlaggedOther(g: Heap, h: Heap, a: nat, b: nat)
    requires |g| == |h| && 0 < a <= |h| && a != b
    requires forall i :: 0 <= i < |g| && h[i].Storage? && i + 1 != b ==> g[i] == h[i]
    requires Keeps(g, h) && h[a - 1].Storage? && !h[a - 1].owned
    ensures g[a - 1].Storage? && !g[a - 1].owned
  {
    assert g[a - 1] == h[a - 1];
  }

  /** Writing into a slot keeps plain storage plain. */
  lemma KeepsWritten(g: Heap, h: Heap, a: nat, path: seq<nat>, w: Value)
    requires 0 < a <= |h| && Get(Root(h[a - 1]), path).Some?
    requires (h[a - 1].Elems? && path != []) || h[a - 1].Storage?
    requires Tame(h[a - 1]) ==> !Owning(w)
    requires g == h[a - 1 := Written(h[a - 1], path, w)]
    ensures Keeps(g, h)
  {
    if Tame(h[a - 1]) {
      PutOwning(h[a - 1].val, path, w);
    }
  }

  lemma IdleRest(g: Heap, h: Heap, frames: seq<Frame>, locals: seq<nat>, i: nat)
    requires frames != [] && locals == frames[|frames| - 1].locals && Apart(frames) && i < |locals|
    requires Idle(h, locals[i..]) && |g| == |h|
    requires forall j :: 0 <= j < |h| && j + 1 != locals[i] ==> g[j] == h[j]
    ensures Idle(g, locals[i + 1..])
  {
    var rest := locals[i + 1..];
    forall a | a in rest ensures 0 < a <= |g| && g[a - 1].Storage? && !g[a - 1].owned {
      var m :| i + 1 <= m < |locals| && locals[m] == a;
      var top := |frames| - 1;
      assert frames[top].locals[m] != frames[top].locals[i];
      assert a in locals[i..];
    }
  }

  lemma HoldsAppend(g: Heap, h: Heap, b: Block)
    requires Holds(g, h)
    ensures Holds(g + [b], h)
  {
  }

  lemma FreedNext(h: Heap, g: Heap, locals: seq<nat>, i: nat)
    requires i < |locals| && Free(h, locals[i]) == Ok(g)
    ensures FreedAll(h, locals[i..]) == FreedAll(g, locals[i + 1..])
  {
    assert locals[i..][1..] == locals[i + 1..];
  }

  lemma EmptiedNext(h: Heap, g: Heap, locals: seq<nat>, i: nat)
    requires i < |locals| && Emptied(h, locals[i]) == Done(g)
    ensures EmptiedAll(h, locals[..i + 1]) == EmptiedAll(g, locals[..i])
  {
    hide Emptied;
    assert locals[..i + 1][..i] == locals[..i];
  }

  lemma EmptiedEnds(h: Heap, locals: seq<nat>)
    ensures locals[..|locals|] == locals && EmptiedAll(h, locals[..0]) == Done(h) && Idle(h, locals[|locals|..])
  {
  }

  lemma IdleMore(g: Heap, h: Heap, locals: seq<nat>, i: nat)
    requires i < |locals| && Idle(h, locals[i + 1..]) && |g| == |h| && Keeps(g, h)
    requires 0 < locals[i] <= |g| && g[locals[i] - 1].Storage? && !g[locals[i] - 1].owned
    requires forall k :: 0 <= k < |g| && h[k].Storage? && k + 1 != locals[i] ==> g[k] == h[k]
    ensures Idle(g, locals[i..])
  {
    forall a | a in locals[i..] ensures 0 < a <= |g| && g[a - 1].Storage? && !g[a - 1].owned {
      if a != locals[i] {
        assert a in locals[i + 1..];
        DropFlaggedOther(g, h, a, locals[i]);
      }
    }
  }

  lemma FreedNone(h: Heap)
    ensures FreedAll(h, []) == Done(h)
  {
  }

  lemma ReceivedAll(h: Heap, f: Frame, args: seq<Value>)
    ensures Received(h, f, args, |args|) == Done(h)
  {
  }

  lemma HoldsSelf(h: Heap)
    ensures Holds(h, h)
  {
  }

  lemma NamedAppend(h: Heap, frames: seq<Frame>, extra: seq<nat>, b: Block)
    requires Named(h, frames, extra)
    ensures Named(h + [b], frames, extra + [|h| + 1])
  {
  }

  lemma NamedPush(h: Heap, frames: seq<Frame>, frame: Frame)
    requires Named(h, frames, frame.locals)
    ensures Named(h, frames + [frame], [])
  {
    var all := frames + [frame];
    forall i | 0 <= i < |h| && h[i].Storage? ensures Names(all, i + 1) {
      var a := i + 1;
      if a in frame.locals {
        assert all[|frames|] == frame;
      } else {
        var f :| 0 <= f < |frames| && a in frames[f].locals;
        assert all[f] == frames[f];
      }
    }
  }

  lemma NamedPop(h: Heap, frames: seq<Frame>)
    requires Named(h, frames, []) && frames != []
    ensures Named(h, frames[..|frames| - 1], frames[|frames| - 1].locals)
  {
    var top := |frames| - 1;
    forall i | 0 <= i < |h| && h[i].Storage? && i + 1 !in frames[top].locals ensures Names(frames[..top], i + 1) {
      var a := i + 1;
      var f :| 0 <= f < |frames| && a in frames[f].locals;
      assert frames[..top][f] == frames[f];
    }
  }

  lemma NamedFree(h: Heap, frames: seq<Frame>, extra: seq<nat>)
    requires extra != [] && Named(h, frames, extra) && 0 < extra[0] <= |h|
    ensures Named(h[extra[0] - 1 := Freed], frames, extra[1..])
  {
  }

  lemma FramesPush(g: Heap, h: Heap, frames: seq<Frame>, frame: Frame)
    requires FramesOk(g, frames) && FramesOk(h, frames) && Apart(frames) && |frame.locals| == |frame.body.locals|
    requires |g| == |h| + |frame.locals|
    requires forall l :: 0 <= l < |frame.locals| ==> frame.locals[l] == |h| + 1 + l
    requires forall l :: 0 <= l < |frame.locals| ==> g[|h| + l] == Storage(Zero(frame.body.locals[l]), false)
    ensures FramesOk(g, frames + [frame]) && Apart(frames + [frame])
    ensures Idle(g, frame.locals)
  {
    var all := frames + [frame];
    forall f, l | 0 <= f < |frames| && 0 <= l < |frames[f].locals| ensures frames[f].locals[l] <= |h| {
      assert LocalsOk(h, frames[f].locals, frames[f].body.locals);
    }
    forall l | 0 <= l < |frame.locals| ensures !NeedsDrop(frame.body.locals[l]) ==> Tame(g[frame.locals[l] - 1]) {
      ZeroOwners(frame.body.locals[l]);
      assert frame.locals[l] - 1 == |h| + l;
    }
    assert LocalsOk(g, frame.locals, frame.body.locals);
    forall f | 0 <= f < |all| ensures LocalsOk(g, all[f].locals, all[f].body.locals) {
      assert f < |frames| ==> all[f] == frames[f];
    }
  }

  /** The storage of a new frame's locals, one after the other. */
  lemma NextFresh(h: Heap, body: Body, i: nat)
    requires i < |body.locals|
    ensures |Fresh(body.locals)| == |NewFrame(h, body).locals| == |body.locals|
    ensures Fresh(body.locals)[..i + 1] == Fresh(body.locals)[..i] + [Storage(Zero(body.locals[i]), false)]
    ensures NewFrame(h, body).locals[..i + 1] == NewFrame(h, body).locals[..i] + [|h| + i + 1]
  {
  }

  lemma AllFresh(h: Heap, body: Body)
    ensures |Fresh(body.locals)| == |NewFrame(h, body).locals| == |body.locals|
    ensures forall l :: 0 <= l < |body.locals| ==> Fresh(body.locals)[l] == Storage(Zero(body.locals[l]), false)
    ensures Fresh(body.locals)[..|body.locals|] == Fresh(body.locals) && NewFrame(h, body).locals[..|body.locals|] == NewFrame(h, body).locals
  {
  }

  /** All storage there is belonged to the frames before. */
  lemma StorageOfFrames(h: Heap, g: Heap, frames: seq<Frame>)
    requires FramesOk(h, frames) && Named(g, frames, [])
    ensures C.NoStorageMade(h, g)
  {
    forall i | 0 <= i < |g| && g[i].Storage? ensures i < |h| && h[i].Storage? {
      assert Names(frames, i + 1);
      var f :| 0 <= f < |frames| && i + 1 in frames[f].locals;
      assert LocalsOk(h, frames[f].locals, frames[f].body.locals);
    }
  }

  lemma FramesPop(h: Heap, frames: seq<Frame>)
    requires FramesOk(h, frames) && Apart(frames) && frames != []
    ensures FramesOk(h, frames[..|frames| - 1]) && Apart(frames[..|frames| - 1])
  {
  }

  lemma PoppedApart(frames: seq<Frame>, i: nat)
    requires Apart(frames) && frames != [] && i < |frames[|frames| - 1].locals|
    ensures var top := |frames| - 1; var rest := frames[..top]; var a := frames[top].locals[i];
      && (forall f, l :: 0 <= f < |rest| && 0 <= l < |rest[f].locals| ==> rest[f].locals[l] != a)
      && (forall m :: 0 <= m < |frames[top].locals| && m != i ==> frames[top].locals[m] != a)
  {
    var top := |frames| - 1;
    var rest := frames[..top];
    forall f, l | 0 <= f < |rest| && 0 <= l < |rest[f].locals| ensures rest[f].locals[l] != frames[top].locals[i] {
      assert rest[f] == frames[f];
      assert frames[f].locals[l] == frames[top].locals[i] ==> f == top;
    }
  }

  /** A terminator that throws no owner away: a call without a destination is
      one whose result owns nothing. */
  predicate TidyTerminator(program: map<string, Body>, t: Terminator) {
    match t
    case Call(name, _, destination, _) =>
      destination.Some? || (name in program ==> !NeedsDrop(program[name].returnTy))
    case CallBuiltin(op, destination, _) =>
      destination.Some? || op.CellGet? || op.CellSet? || op.StrongCount?
    case _ => true
  }

  predicate TidyBody(program: map<string, Body>, body: Body) {
    forall b :: 0 <= b < |body.blocks| ==> TidyTerminator(program, body.blocks[b].terminator)
  }

  predicate Tidy(program: map<string, Body>) {
    forall name :: name in program ==> TidyBody(program, program[name])
  }

  /** Every live block is in each set that holds the result's blocks and what
      the blocks in it hold. */
  ghost predicate AllOwnedBy(h: Heap, v: Value) {
    forall s: set<nat> | OwnedSet(h, v, s) :: Covered(h, {}, s)
  }

  ghost predicate OwnedSet(h: Heap, v: Value, s: set<nat>) {
    && (forall x :: x in Owners(v) ==> x.at in s)
    && (forall i, x :: 0 <= i < |h| && i + 1 in s && x in Content(h[i]) ==> x.at in s)
  }

  lemma NothingPinned(h: Heap)
    requires Named(h, [], [])
    ensures forall i :: 0 <= i < |h| ==> !h[i].Storage?
  {
    forall i | 0 <= i < |h| ensures !h[i].Storage? {
      assert !Names([], i + 1);
    }
  }

  lemma ResultOwnsAll(h: Heap, v: Value)
    requires Sound(h, {}, Owners(v))
    requires forall i :: 0 <= i < |h| ==> !h[i].CellBox?
    requires forall i :: 0 <= i < |h| ==> !h[i].Storage?
    ensures AllOwnedBy(h, v)
  {
    forall s: set<nat> | OwnedSet(h, v, s) ensures Covered(h, {}, s) {
      assert Closed(h, {}, Owners(v), s);
    }
  }

  lemma NoLeak(h: Heap, leaked: multiset<Handle>, result: multiset<Handle>)
    requires Sound(h, {}, leaked + result)
    ensures Sound(h, {}, result) <==> leaked == multiset{}
  {
    assert multiset{} + result == result && leaked + result - result == leaked;
    if Sound(h, {}, result) {
      RootsUnique(h, {}, result, leaked + result);
    }
  }

  /** In particular, a result that owns nothing leaves nothing behind. */
  lemma PlainResultFreesAll(h: Heap, v: Value)
    requires AllOwnedBy(h, v) && Owners(v) == multiset{}
    ensures forall i :: 0 <= i < |h| ==> !Owned(h[i])
  {
    assert OwnedSet(h, v, {});
    assert Covered(h, {}, {});
    forall i | 0 <= i < |h| ensures !Owned(h[i]) {
      assert i + 1 !in {};
    }
  }

  class Machine {
    const program: map<string, Body>
    const budget: nat
    const maxDepth: nat
    var heap: Heap
    var frames: seq<Frame>
    var statics: map<seq<nat>, nat>
    var executed: nat
    var depth: nat
    /** What runs that stopped early never got to drop. */
    ghost var leaked: multiset<Handle>

    /** The machine's invariant, with `flight` the owners that values between
        places hold. */
    ghost predicate Inv(flight: multiset<Handle>)
      reads this
    {
      && Sound(heap, {}, leaked + flight)
      && FramesOk(heap, frames) && Apart(frames) && Named(heap, frames, []) && StaticsOk(heap, statics)
      && depth == |frames| <= maxDepth
      && executed <= budget + 1
    }

    constructor (program: map<string, Body>, budget: nat, maxDepth: nat)
      ensures Inv(multiset{}) && frames == [] && executed == 0 && heap == [] && leaked == multiset{}
      ensures this.program == program && this.budget == budget && this.maxDepth == maxDepth
    {
      this.program, this.budget, this.maxDepth := program, budget, maxDepth;
      heap, frames, statics, executed, depth, leaked := [], [], map[], 0, 0, multiset{};
    }

    /** Memory and constants, as the semantics sees them. */
    ghost function Now(): World
      reads `heap, `statics
    {
      World(heap, statics)
    }

    ghost function Top(): Frame
      requires frames != []
      reads `frames
    {
      frames[|frames| - 1]
    }

    ghost function Bounds(): Limits {
      Limits(budget, maxDepth)
    }

    // ---------------------------------------------------------------
    // glue, run in place
    // ---------------------------------------------------------------

    method FreeBlock(a: nat) returns (r: Outcome<()>)
      modifies `heap
      ensures var f := Free(old(heap), a); if f.Ok? then r.Done? && heap == f.value else r.Stopped? && heap == old(heap)
    {
      if a == 0 {
        return Done(());
      }
      if a > |heap| || heap[a - 1].Freed? {
        return Stopped(MemoryFault("invalid memory access"));
      }
      if heap[a - 1].Data? && heap[a - 1].fixed {
        return Stopped(MemoryFault("freeing memory that was not allocated"));
      }
      heap := heap[a - 1 := Freed];
      return Done(());
    }

    /** Drop glue. Wherever `Drop` succeeds, so does this, in place. */
    method DropAt(v: Value, ghost stack: set<nat>) returns (r: Outcome<()>)
      requires Drop(heap, stack, v).Ok?
      modifies `heap
      ensures r.Done? && heap == Drop(old(heap), stack, v).value
      decreases Weight(heap, stack), v, 1
    {
      match v
      case VStr(a) =>
        r := FreeBlock(a);
      case VSlice(a) =>
        if a == 0 {
          return Done(());
        }
        r := DropElements(a, stack);
        if r.Stopped? {
          return;
        }
        r := FreeBlock(a);
      case VCell(a) =>
        if a == 0 {
          return Done(());
        }
        WeightLower(heap, stack, a, heap[a - 1].val);
        var count := heap[a - 1].count;
        heap := heap[a - 1 := CellBox(count - 1, heap[a - 1].val)];
        if count == 1 {
          WeightBusy(heap, stack, a);
          r := DropAt(heap[a - 1].val, stack + {a});
          if r.Stopped? {
            return;
          }
          r := FreeBlock(a);
        } else {
          r := Done(());
        }
      case VRecord(fs) =>
        r := DropFields(fs, stack);
      case VEnum(_, fs) =>
        r := DropFields(fs, stack);
      case _ =>
        r := Done(());
    }

    method DropFields(vs: seq<Value>, ghost stack: set<nat>) returns (r: Outcome<()>)
      requires DropAll(heap, stack, vs).Ok?
      modifies `heap
      ensures r.Done? && heap == DropAll(old(heap), stack, vs).value
      decreases Weight(heap, stack), vs, 1
    {
      var i := 0;
      ghost var h := heap;
      while i < |vs|
        invariant 0 <= i <= |vs|
        invariant Below(heap, h)
        invariant DropAll(heap, stack, vs[i..]) == DropAll(h, stack, vs)
      {
        WeightBelow(heap, h, stack);
        ghost var g := heap;
        r := DropAt(vs[i], stack);
        assert vs[i..][1..] == vs[i + 1..];
        BelowTrans(heap, g, h);
        i := i + 1;
      }
      r := Done(());
    }

    method DropElements(a: nat, ghost stack: set<nat>) returns (r: Outcome<()>)
      requires a != 0 && Drop(heap, stack, VSlice(a)).Ok?
      modifies `heap
      ensures r.Done? && heap == DropAll(old(heap), stack + {a}, old(heap)[a - 1].vals).value
      ensures a <= |heap| && heap[a - 1] == old(heap)[a - 1]
      decreases Weight(heap, stack), VSlice(a), 0
    {
      ghost var h := heap;
      ghost var vs := h[a - 1].vals;
      ghost var end := DropAll(h, stack + {a}, vs).value;
      assert Leq(end[a - 1], h[a - 1]);
      WeightBusy(h, stack, a);
      var i := 0;
      while i < |heap[a - 1].vals|
        invariant 0 <= i <= |vs|
        invariant Below(heap, h) && Below(end, heap) && heap[a - 1] == h[a - 1]
        invariant DropAll(heap, stack + {a}, vs[i..]) == Ok(end)
        decreases |vs| - i
      {
        WeightBelow(heap, h, stack + {a});
        ghost var g := heap;
        r := DropAt(heap[a - 1].vals[i], stack + {a});
        assert vs[i..][1..] == vs[i + 1..];
        BelowTrans(heap, g, h);
        assert Leq(end[a - 1], heap[a - 1]) && Leq(heap[a - 1], h[a - 1]);
        i := i + 1;
      }
      assert vs[i..] == [];
      r := Done(());
    }

    /** Clone glue. The copy's elements are cloned in place. */
    method CloneValue(v: Value, ghost lim: nat, ghost stack: set<nat>) returns (w: Value)
      requires lim <= |heap| && Clone(heap, lim, stack, v).Ok?
      modifies `heap
      ensures (heap, w) == Clone(old(heap), lim, stack, v).value
      decreases Reach(heap, lim, stack), 0, v, 0
    {
      match v
      case VStr(a) =>
        var bytes := if a == 0 then [] else heap[a - 1].bytes;
        heap := heap + [Data(bytes, false)];
        w := VStr(|heap|);
      case VSlice(a) =>
        var vs := if a == 0 then [] else heap[a - 1].vals;
        ghost var h := heap;
        heap := heap + [Elems(vs)];
        var copy := |heap|;
        if a != 0 {
          assert a in Reach(h, lim, stack) && a !in Reach(heap, lim, stack + {a});
          CloneElements(copy, lim, stack + {a});
        }
        w := VSlice(copy);
      case VCell(a) =>
        if a != 0 {
          heap := heap[a - 1 := CellBox(heap[a - 1].count + 1, heap[a - 1].val)];
        }
        w := v;
      case VRecord(fs) =>
        var ws := CloneFields(fs, lim, stack);
        w := VRecord(ws);
      case VEnum(tag, fs) =>
        var ws := CloneFields(fs, lim, stack);
        w := VEnum(tag, ws);
      case _ =>
        w := v;
    }

    method CloneFields(vs: seq<Value>, ghost lim: nat, ghost stack: set<nat>) returns (ws: seq<Value>)
      requires lim <= |heap| && CloneAll(heap, lim, stack, vs).Ok?
      modifies `heap
      ensures (heap, ws) == CloneAll(old(heap), lim, stack, vs).value
      decreases Reach(heap, lim, stack), 0, vs, 1
    {
      if vs == [] {
        return [];
      }
      ghost var h := heap;
      var w := CloneValue(vs[0], lim, stack);
      assert Reach(heap, lim, stack) == Reach(h, lim, stack);
      var rest := CloneFields(vs[1..], lim, stack);
      return [w] + rest;
    }

    method CloneElements(copy: nat, ghost lim: nat, ghost stack: set<nat>)
      requires lim < copy <= |heap| && heap[copy - 1].Elems? && CloneInto(heap, lim, stack, copy, 0).Ok?
      modifies `heap
      ensures heap == CloneInto(old(heap), lim, stack, copy, 0).value
      decreases Reach(heap, lim, stack), 1 + |heap[copy - 1].vals|
    {
      ghost var h := heap;
      var i := 0;
      while i < |heap[copy - 1].vals|
        invariant copy <= |heap| && heap[copy - 1].Elems? && |heap[copy - 1].vals| == |h[copy - 1].vals|
        invariant 0 <= i <= |h[copy - 1].vals|
        invariant Reach(heap, lim, stack) == Reach(h, lim, stack)
        invariant CloneInto(heap, lim, stack, copy, i) == CloneInto(h, lim, stack, copy, 0)
        decreases |h[copy - 1].vals| - i
      {
        ghost var g := heap;
        var w := CloneValue(heap[copy - 1].vals[i], lim, stack);
        GrownSame(heap, g, 0, copy);
        heap := heap[copy - 1 := Elems(heap[copy - 1].vals[i := w])];
        i := i + 1;
      }
    }

    // ---------------------------------------------------------------
    // constants, places and operands
    // ---------------------------------------------------------------

    /** The heap moved on in a way that keeps every frame and constant. */
    lemma Settle(h: Heap, roots: multiset<Handle>, flight: multiset<Handle>)
      requires Keeps(heap, h) && FramesOk(h, frames) && Apart(frames) && Named(h, frames, []) && StaticsOk(h, statics)
      requires Sound(heap, {}, roots) && roots == leaked + flight
      requires depth == |frames| <= maxDepth && executed <= budget + 1
      ensures Inv(flight)
    {
      hide Sound, Holds, Apart;
      FramesKeep(heap, h, frames, statics);
    }

    /** The address of a string constant, stored once for all its uses. */
    method Intern(text: seq<nat>, ghost flight: multiset<Handle>) returns (a: nat)
      requires Inv(flight)
      modifies `heap, `statics
      ensures Inv(flight) && Keeps(heap, old(heap)) && Persists(heap, old(heap))
      ensures 0 < a <= |heap| && heap[a - 1] == Data(text, true)
      ensures (Now(), a) == Interned(old(Now()), text)
    {
      hide Sound, Apart, FramesOk, Named;
      if text in statics {
        return statics[text];
      }
      AllocPlain(heap, leaked + flight, Data(text, true));
      ghost var h := heap;
      heap := heap + [Data(text, true)];
      a := |heap|;
      Settle(h, leaked + flight, flight);
      statics := statics[text := a];
    }

    /** Where a place is. A local stands for its own storage, even when what it
        holds is a reference. */
    method Locate(p: Place, ghost flight: multiset<Handle>) returns (r: Outcome<Loc>)
      requires Inv(flight) && frames != []
      ensures r == Where(heap, Top(), p)
      ensures r.Done? ==> Places.Settled(heap, r.value)
      ensures r.Stopped? ==> !r.why.MemoryFault?
    {
      hide Sound, Apart, StaticsOk;
      var frame := frames[|frames| - 1];
      assert LocalsOk(heap, frame.locals, frame.body.locals);
      if p.Local? {
        var a := Usable(heap, frame.locals, frame.body.locals, p.local);
        if a.Stopped? {
          return Stopped(a.why);
        }
        LocalSettled(heap, frame.locals, frame.body.locals, p.local);
        return Done(Loc(Slot(a.value, []), [a.value]));
      }
      r := Resolve(heap, frame.locals, frame.body.locals, p);
      if r.Done? {
        ResolveSettled(heap, leaked + flight, frame.locals, frame.body.locals, p);
      }
    }

    /** The same, looking through the reference if there is one. */
    method LocateThrough(p: Place, ghost flight: multiset<Handle>) returns (r: Outcome<Loc>)
      requires Inv(flight) && frames != []
      ensures r == Through(heap, Top(), p)
      ensures r.Done? ==> Places.Settled(heap, r.value)
      ensures r.Stopped? ==> !r.why.MemoryFault?
    {
      hide Sound, Apart, StaticsOk, FramesOk, Named, Where, Resolve, Usable;
      r := Locate(p, flight);
      if r.Done? {
        var v := Places.Load(heap, r.value.slot).value;
        if v.VRef? {
          r := Target(heap, v.slot);
        }
      }
    }

    /** The value of a place, to keep: copied if it owns anything. */
    method CopyOut(p: Place, deref: bool, ghost flight: multiset<Handle>) returns (r: Outcome<Value>)
      requires Inv(flight) && frames != []
      modifies `heap
      ensures CopyOf(old(heap), Top(), p, deref) == if r.Done? then Done((heap, r.value)) else Stopped(r.why)
      ensures Keeps(heap, old(heap)) && Persists(heap, old(heap))
      ensures r.Done? ==> Inv(flight + Owners(r.value))
      ensures r.Stopped? ==> Inv(flight) && !r.why.MemoryFault?
    {
      hide Sound, Apart, Clone, Where, Through;
      var where;
      if deref {
        where := LocateThrough(p, flight);
      } else {
        where := Locate(p, flight);
      }
      if where.Stopped? {
        return Stopped(where.why);
      }
      var v := Places.Load(heap, where.value.slot).value;
      if !Owning(v) {
        NotOwning(v);
        assert flight + Owners(v) == flight;
        return Done(v);
      }
      CloneAt(heap, leaked + flight, where.value);
      ghost var h := heap;
      var w := CloneValue(v, |heap|, {});
      KeepsGrown(heap, h);
      PersistsGrown(heap, h);
      assert leaked + flight + Owners(w) == leaked + (flight + Owners(w));
      Settle(h, leaked + flight + Owners(w), flight + Owners(w));
      return Done(w);
    }

    /** Moving out of a local clears its drop flag. */
    method MoveOut(l: nat, deref: bool, ghost flight: multiset<Handle>) returns (r: Outcome<Value>)
      requires Inv(flight) && frames != []
      modifies `heap
      ensures Moved(old(heap), Top(), l, deref) == if r.Done? then Done((heap, r.value)) else Stopped(r.why)
      ensures Keeps(heap, old(heap)) && Persists(heap, old(heap))
      ensures r.Done? ==> Inv(flight + Owners(r.value))
      ensures r.Stopped? ==> Inv(flight) && !r.why.MemoryFault?
    {
      hide Sound, Apart;
      var frame := frames[|frames| - 1];
      assert LocalsOk(heap, frame.locals, frame.body.locals);
      var a := Usable(heap, frame.locals, frame.body.locals, l);
      if a.Stopped? {
        return Stopped(a.why);
      }
      var v := heap[a.value - 1].val;
      if deref && v.VRef? {
        r := CopyOut(Local(l), true, flight);
        return;
      }
      if !NeedsDrop(frame.body.locals[l]) {
        NotOwning(v);
        assert flight + Owners(v) == flight;
        return Done(v);
      }
      TakeLocal(heap, leaked + flight, a.value);
      ghost var h := heap;
      heap := heap[a.value - 1 := Storage(v, false)];
      assert leaked + flight + Owners(v) == leaked + (flight + Owners(v));
      Settle(h, leaked + flight + Owners(v), flight + Owners(v));
      return Done(v);
    }

    /** An operand's value, owned by whoever asked for it. With `deref`, a
        reference stands for a copy of what it refers to. */
    method OwnedAs(op: Operand, deref: bool, ghost flight: multiset<Handle>) returns (r: Outcome<Value>)
      requires Inv(flight) && frames != []
      modifies `heap, `statics
      ensures Taken(old(Now()), Top(), op, deref) == if r.Done? then Done((Now(), r.value)) else Stopped(r.why)
      ensures Keeps(heap, old(heap)) && Persists(heap, old(heap))
      ensures r.Done? ==> Inv(flight + Owners(r.value))
      ensures r.Stopped? ==> Inv(flight) && !r.why.MemoryFault?
    {
      hide Sound, Apart, FramesOk;
      assert flight + multiset{} == flight;
      match op
      case ConstInt(n) =>
        return Done(VInt(n));
      case ConstUnit =>
        return Done(VUnit);
      case ConstStr(text) =>
        var a := Intern(text, flight);
        CloneConstant(heap, leaked + flight, a);
        ghost var h := heap;
        var w := CloneValue(VStr(a), |heap|, {});
        KeepsGrown(heap, h);
        PersistsGrown(heap, h);
        KeepsTrans(heap, h, old(heap));
        PersistsTrans(heap, h, old(heap));
        assert leaked + flight + Owners(w) == leaked + (flight + Owners(w));
        Settle(h, leaked + flight + Owners(w), flight + Owners(w));
        return Done(w);
      case Copy(p) =>
        r := CopyOut(p, deref, flight);
      case Move(p) =>
        if p.Local? {
          r := MoveOut(p.local, deref, flight);
        } else {
          r := CopyOut(p, deref, flight);
        }
    }

    // ---------------------------------------------------------------
    // writing and dropping locals
    // ---------------------------------------------------------------

    /** Drops local `l` if its flag is set, and clears the flag. */
    method DropFlagged(l: nat, ghost flight: multiset<Handle>)
      requires Inv(flight) && frames != [] && l < |Top().locals|
      modifies `heap
      ensures Emptied(old(heap), Top().locals[l]) == Done(heap)
      ensures Inv(flight) && Keeps(heap, old(heap)) && |heap| == |old(heap)|
      ensures 0 < Top().locals[l] <= |heap| && heap[Top().locals[l] - 1].Storage? && !heap[Top().locals[l] - 1].owned
      ensures forall i :: 0 <= i < |heap| && old(heap)[i].Storage? && i + 1 != Top().locals[l] ==> heap[i] == old(heap)[i]
    {
      hide Sound, Apart;
      var frame := frames[|frames| - 1];
      assert LocalsOk(heap, frame.locals, frame.body.locals);
      var a := frame.locals[l];
      if !heap[a - 1].owned {
        return;
      }
      var v := heap[a - 1].val;
      DropOwnedLocal(heap, leaked + flight, a);
      ghost var h := heap;
      var r := DropAt(v, {});
      KeepsBelow(heap, h);
      StorageBelow(heap, h);
      heap := heap[a - 1 := Storage(v, false)];
      Settle(h, leaked + flight, flight);
    }

    /** Drops every flagged local of the running frame, newest first. */
    method DropAllOwned(ghost flight: multiset<Handle>)
      requires Inv(flight) && frames != []
      modifies `heap
      ensures EmptiedAll(old(heap), Top().locals) == Done(heap)
      ensures Inv(flight)
      ensures Idle(heap, Top().locals)
    {
      hide Sound, Apart, FramesOk, StaticsOk, Keeps, Named, Emptied, EmptiedAll, Idle;
      ghost var locals := frames[|frames| - 1].locals;
      var i := |frames[|frames| - 1].locals|;
      EmptiedEnds(heap, locals);
      while i > 0
        invariant 0 <= i <= |locals|
        invariant Inv(flight)
        invariant Idle(heap, locals[i..])
        invariant EmptiedAll(old(heap), locals) == EmptiedAll(heap, locals[..i])
      {
        i := i - 1;
        ghost var h := heap;
        DropFlagged(i, flight);
        EmptiedNext(h, heap, locals, i);
        IdleMore(heap, h, locals, i);
      }
      EmptiedEnds(heap, locals);
      assert locals[0..] == locals;
    }

    /** Stores an owned value at a place, dropping what was there. */
    method WritePlace(p: Place, v: Value, ghost flight: multiset<Handle>) returns (r: Outcome<()>)
      requires Inv(flight + Owners(v)) && frames != []
      modifies `heap, `leaked
      ensures Stored(old(heap), Top(), p, v) == if r.Done? then Done(heap) else Stopped(r.why)
      ensures Inv(flight)
      ensures r.Done? ==> leaked == old(leaked)
      ensures r.Stopped? ==> !r.why.MemoryFault?
    {
      hide Sound, Apart, FramesOk, StaticsOk, Named, Where, StoredLocal, Drop, Written;
      if p.Local? {
        r := WriteLocal(p.local, v, flight);
        return;
      }
      var where := Locate(p, flight + Owners(v));
      if where.Stopped? {
        Abandon(v, flight);
        return Stopped(where.why);
      }
      var slot := where.value.slot;
      var b := heap[slot.block - 1];
      if b.Storage? && !b.owned && Owning(v) {
        Abandon(v, flight);
        return Stopped(Promise("value of the wrong type"));
      }
      WriteSlot(where.value, v, flight);
      return Done(());
    }

    /** Drops what a slot holds, in place, and stores the new value there. */
    method WriteSlot(loc: Loc, v: Value, ghost flight: multiset<Handle>)
      requires Inv(flight + Owners(v)) && Places.Settled(heap, loc)
      requires var b := heap[loc.slot.block - 1]; b.Storage? && !b.owned ==> !Owning(v)
      modifies `heap
      ensures StoredAt(old(heap), loc.slot, v) == Done(heap)
      ensures Inv(flight)
    {
      hide Sound, Apart, FramesOk, StaticsOk, Keeps, Named, Drop;
      var slot := loc.slot;
      var b := heap[slot.block - 1];
      ghost var roots := leaked + (flight + Owners(v));
      AssignAt(heap, roots, loc, v);
      assert roots - Owners(v) == leaked + flight;
      ghost var h := heap;
      ChainBlocks(heap, loc.chain);
      var d := DropAt(Places.Load(heap, slot).value, {});
      KeepsBelow(heap, h);
      ghost var g := heap;
      heap := heap[slot.block - 1 := Written(b, slot.path, v)];
      KeepsWritten(heap, g, slot.block, slot.path, v);
      KeepsTrans(heap, g, h);
      Settle(h, leaked + flight, flight);
    }

    method WriteLocal(l: nat, v: Value, ghost flight: multiset<Handle>) returns (r: Outcome<()>)
      requires Inv(flight + Owners(v)) && frames != []
      modifies `heap, `leaked
      ensures StoredLocal(old(heap), Top(), l, v) == if r.Done? then Done(heap) else Stopped(r.why)
      ensures Inv(flight)
      ensures r.Done? ==> leaked == old(leaked)
      ensures r.Stopped? ==> !r.why.MemoryFault?
    {
      hide Sound, Apart, StaticsOk;
      var frame := frames[|frames| - 1];
      if l >= |frame.locals| {
        Abandon(v, flight);
        return Stopped(Promise("no such local"));
      }
      assert LocalsOk(heap, frame.locals, frame.body.locals);
      var needs := NeedsDrop(frame.body.locals[l]);
      if !needs && Owning(v) {
        Abandon(v, flight);
        return Stopped(Promise("value of the wrong type"));
      }
      DropFlagged(l, flight + Owners(v));
      SetLocal(l, v, needs, flight);
      return Done(());
    }

    /** Stores into a local whose flag is clear and sets the flag. */
    method SetLocal(l: nat, v: Value, needs: bool, ghost flight: multiset<Handle>)
      requires Inv(flight + Owners(v)) && frames != [] && l < |Top().locals| && l < |Top().body.locals|
      requires 0 < Top().locals[l] <= |heap| && heap[Top().locals[l] - 1].Storage? && !heap[Top().locals[l] - 1].owned
      requires needs == NeedsDrop(Top().body.locals[l]) && (!needs ==> !Owning(v))
      modifies `heap
      ensures Inv(flight)
      ensures heap == old(heap)[Top().locals[l] - 1 := Storage(v, needs)]
    {
      hide Sound, Apart;
      var a := frames[|frames| - 1].locals[l];
      ghost var roots := leaked + (flight + Owners(v));
      StoreLocal(heap, roots, a, v, needs);
      if needs {
        assert roots - Owners(v) == leaked + flight;
      } else {
        NotOwning(v);
        assert roots == leaked + flight;
      }
      ghost var h := heap;
      heap := heap[a - 1 := Storage(v, needs)];
      FramesWrite(heap, h, frames, statics, |frames| - 1, l);
    }

    /** A value nobody will take care of any more. */
    ghost method Abandon(v: Value, flight: multiset<Handle>)
      requires Inv(flight + Owners(v))
      modifies `leaked
      ensures Inv(flight) && leaked == old(leaked) + Owners(v)
    {
      hide Sound, Apart, FramesOk, StaticsOk;
      assert leaked + Owners(v) + flight == leaked + (flight + Owners(v));
      leaked := leaked + Owners(v);
    }

    ghost method AbandonAll(vs: seq<Value>, flight: multiset<Handle>)
      requires Inv(flight + OwnersAll(vs))
      modifies `leaked
      ensures Inv(flight)
    {
      hide Sound, Apart, FramesOk, StaticsOk;
      assert leaked + OwnersAll(vs) + flight == leaked + (flight + OwnersAll(vs));
      leaked := leaked + OwnersAll(vs);
    }

    // ---------------------------------------------------------------
    // rvalues and statements
    // ---------------------------------------------------------------

    method OwnedAll(ops: seq<Operand>) returns (r: Outcome<seq<Value>>)
      requires Inv(multiset{}) && frames != []
      modifies `heap, `statics, `leaked
      ensures TakenAll(old(Now()), Top(), ops) == if r.Done? then Done((Now(), r.value)) else Stopped(r.why)
      ensures r.Done? ==> Inv(OwnersAll(r.value)) && leaked == old(leaked)
      ensures r.Stopped? ==> Inv(multiset{}) && !r.why.MemoryFault?
    {
      hide Sound, Apart, FramesOk, StaticsOk, Keeps, Persists, Named, Taken, TakenAll, Behind;
      var vs: seq<Value> := [];
      var i := 0;
      TakenEnds(Now(), Top(), ops, vs);
      while i < |ops|
        invariant 0 <= i <= |ops|
        invariant Inv(OwnersAll(vs)) && leaked == old(leaked)
        invariant TakenAll(old(Now()), Top(), ops) == Behind(vs, TakenAll(Now(), Top(), ops[i..]))
      {
        TakenNext(Now(), Top(), ops, vs, i);
        var v := OwnedAs(ops[i], false, OwnersAll(vs));
        if v.Stopped? {
          assert multiset{} + OwnersAll(vs) == OwnersAll(vs);
          AbandonAll(vs, multiset{});
          return Stopped(v.why);
        }
        OwnersAllConcat(vs, [v.value]);
        OwnersAllSingle(v.value);
        vs := vs + [v.value];
        i := i + 1;
      }
      TakenEnds(Now(), Top(), ops, vs);
      return Done(vs);
    }

    /** The bytes of a string operand, through a reference if it is one. */
    method ReadStr(op: Operand) returns (r: Outcome<seq<nat>>)
      requires Inv(multiset{}) && frames != []
      modifies `heap, `statics
      ensures StringOf(old(Now()), Top(), op) == if r.Done? then Done((Now(), r.value)) else Stopped(r.why)
      ensures Inv(multiset{})
      ensures r.Stopped? ==> !r.why.MemoryFault?
    {
      hide Sound, Apart, FramesOk, StaticsOk, Keeps, Persists, Named, Where, Through, Interned;
      if op.ConstStr? {
        var a := Intern(op.bytes, multiset{});
        return Done(heap[a - 1].bytes);
      }
      if !op.Copy? && !op.Move? {
        return Stopped(Promise("not a string"));
      }
      var where := LocateThrough(op.place, multiset{});
      if where.Stopped? {
        return Stopped(where.why);
      }
      var v := Places.Load(heap, where.value.slot).value;
      if !v.VStr? {
        return Stopped(Promise("not a string"));
      }
      if v.data == 0 {
        return Done([]);
      }
      assert StrH(v.data) in Owners(v);
      ReadLive(heap, leaked + multiset{}, where.value, StrH(v.data));
      if v.data > |heap| || !heap[v.data - 1].Data? {
        return Stopped(MemoryFault("invalid memory access"));
      }
      return Done(heap[v.data - 1].bytes);
    }

    method EvalConcat(left: Operand, right: Operand) returns (r: Outcome<Value>)
      requires Inv(multiset{}) && frames != []
      modifies `heap, `statics
      ensures Concatenated(old(Now()), Top(), left, right) == if r.Done? then Done((Now(), r.value)) else Stopped(r.why)
      ensures r.Done? ==> Inv(Owners(r.value))
      ensures r.Stopped? ==> Inv(multiset{}) && !r.why.MemoryFault?
    {
      hide Sound, Apart, FramesOk, StaticsOk, StringOf;
      var x := ReadStr(left);
      if x.Stopped? {
        return Stopped(x.why);
      }
      var y := ReadStr(right);
      if y.Stopped? {
        return Stopped(y.why);
      }
      var block := Data(x.value + y.value, false);
      Adopt(heap, {}, leaked + multiset{}, StrH(|heap| + 1), block);
      ghost var h := heap;
      heap := heap + [block];
      var w := VStr(|heap|);
      assert leaked + multiset{} + multiset{StrH(|heap|)} == leaked + Owners(w);
      Settle(h, leaked + Owners(w), Owners(w));
      return Done(w);
    }

    /** The value of an rvalue; with `deref`, the destination is no reference. */
    method EvalRvalue(rvalue: Rvalue, deref: bool) returns (r: Outcome<Value>)
      requires Inv(multiset{}) && frames != []
      modifies `heap, `statics, `leaked
      ensures Evaluated(old(Now()), Top(), rvalue, deref) == if r.Done? then Done((Now(), r.value)) else Stopped(r.why)
      ensures r.Done? ==> Inv(Owners(r.value)) && leaked == old(leaked)
      ensures r.Stopped? ==> Inv(multiset{}) && !r.why.MemoryFault?
    {
      hide Sound, Apart, FramesOk, StaticsOk, Keeps, Persists, Named, Taken, TakenAll, Where, Through, Concatenated, Bytes, Items;
      match rvalue
      case Use(op) =>
        r := OwnedAs(op, deref, multiset{});
        if r.Done? {
          assert multiset{} + Owners(r.value) == Owners(r.value);
        }
      case Record(ops) =>
        var vs := OwnedAll(ops);
        if vs.Stopped? {
          return Stopped(vs.why);
        }
        return Done(VRecord(vs.value));
      case Variant(tag, ops) =>
        var vs := OwnedAll(ops);
        if vs.Stopped? {
          return Stopped(vs.why);
        }
        return Done(VEnum(tag, vs.value));
      case Concat(left, right) =>
        r := EvalConcat(left, right);
      case _ =>
        r := EvalPlace(rvalue, deref);
    }

    /** Rvalues that only look at a place: what they give owns nothing. */
    method EvalPlace(rvalue: Rvalue, ghost deref: bool) returns (r: Outcome<Value>)
      requires Inv(multiset{}) && frames != [] && (rvalue.Ref? || rvalue.SliceLen? || rvalue.Discriminant?)
      ensures Evaluated(Now(), Top(), rvalue, deref) == if r.Done? then Done((Now(), r.value)) else Stopped(r.why)
      ensures r.Done? ==> Owners(r.value) == multiset{}
      ensures r.Stopped? ==> !r.why.MemoryFault?
    {
      hide Sound, Apart, FramesOk, StaticsOk, Keeps, Persists, Named, Taken, TakenAll, Where, Through, Concatenated, Bytes, Items;
      match rvalue
      case Ref(p) =>
        var where := Locate(p, multiset{});
        if where.Stopped? {
          return Stopped(where.why);
        }
        if !heap[where.value.slot.block - 1].Storage? {
          return Stopped(Promise("a reference into a slice"));
        }
        return Done(VRef(where.value.slot));
      case SliceLen(p) =>
        var where := LocateThrough(p, multiset{});
        if where.Stopped? {
          return Stopped(where.why);
        }
        var v := Places.Load(heap, where.value.slot).value;
        if v.VSlice? {
          return Done(VInt(|Items(heap, v.data)|));
        } else if v.VStr? {
          return Done(VInt(|Bytes(heap, v.data)|));
        }
        return Stopped(Promise("length of something that has none"));
      case Discriminant(p) =>
        var where := LocateThrough(p, multiset{});
        if where.Stopped? {
          return Stopped(where.why);
        }
        var v := Places.Load(heap, where.value.slot).value;
        if v.VEnum? {
          return Done(VInt(v.tag));
        }
        return Stopped(Promise("discriminant of something that has none"));
    }

    method RunStatement(s: Statement) returns (r: Outcome<()>)
      requires Inv(multiset{}) && frames != []
      modifies `heap, `statics, `leaked
      ensures Stepped(old(Now()), Top(), s) == if r.Done? then Done(Now()) else Stopped(r.why)
      ensures Inv(multiset{})
      ensures r.Done? ==> leaked == old(leaked)
      ensures r.Stopped? ==> !r.why.MemoryFault?
    {
      hide Sound, Apart, FramesOk, StaticsOk, Keeps, Named, Plain, Evaluated, Stored, Emptied;
      match s
      case Assign(p, rvalue) =>
        var tys := frames[|frames| - 1].body.locals;
        if p.Local? && p.local < |tys| && tys[p.local].TUnit? {
          return Done(());
        }
        var v := EvalRvalue(rvalue, Plain(heap, frames[|frames| - 1], p));
        if v.Stopped? {
          return Stopped(v.why);
        }
        assert multiset{} + Owners(v.value) == Owners(v.value);
        r := WritePlace(p, v.value, multiset{});
      case DropLocal(l) =>
        if l >= |frames[|frames| - 1].locals| {
          return Stopped(Promise("no such local"));
        }
        DropFlagged(l, multiset{});
        return Done(());
    }

    // ---------------------------------------------------------------
    // shared cells and other built-ins
    // ---------------------------------------------------------------

    /** The cell an operand holds or refers to. */
    method CellPointer(op: Operand, ghost flight: multiset<Handle>) returns (r: Outcome<nat>)
      requires Inv(flight) && frames != []
      ensures r == CellOf(heap, Top(), op)
      ensures r.Done? ==> 0 < r.value <= |heap| && heap[r.value - 1].CellBox? && heap[r.value - 1].count > 0
      ensures r.Stopped? ==> !r.why.MemoryFault?
    {
      hide Sound, Apart, FramesOk, StaticsOk, Named, Through;
      if !op.Copy? && !op.Move? {
        return Stopped(Promise("not a cell"));
      }
      var where := LocateThrough(op.place, flight);
      if where.Stopped? {
        return Stopped(where.why);
      }
      var v := Places.Load(heap, where.value.slot).value;
      if !v.VCell? {
        return Stopped(Promise("not a cell"));
      }
      if v.cell == 0 {
        return Stopped(Fault("invalid memory access at a null cell"));
      }
      assert CellH(v.cell) in Owners(v);
      ReadLive(heap, leaked + flight, where.value, CellH(v.cell));
      if v.cell > |heap| || !heap[v.cell - 1].CellBox? {
        return Stopped(MemoryFault("invalid memory access"));
      }
      return Done(v.cell);
    }

    method NewSharedCell(arg: Operand) returns (r: Outcome<Value>)
      requires Inv(multiset{}) && frames != []
      modifies `heap, `statics, `leaked
      ensures MadeCell(old(Now()), Top(), arg) == if r.Done? then Done((Now(), r.value)) else Stopped(r.why)
      ensures r.Done? ==> Inv(Owners(r.value)) && leaked == old(leaked)
      ensures r.Stopped? ==> Inv(multiset{}) && !r.why.MemoryFault?
    {
      hide Sound, Apart, FramesOk, StaticsOk, Taken;
      NewCell(heap, leaked + multiset{});
      ghost var h := heap;
      heap := heap + [CellBox(1, VUnit)];
      var c := |heap|;
      var handle := VCell(c);
      ghost var mine := multiset{CellH(c)};
      assert leaked + multiset{} + mine == leaked + mine;
      Settle(h, leaked + mine, mine);
      ghost var g := heap;
      var v := OwnedAs(arg, false, mine);
      assert Bumped(heap[c - 1], g[c - 1]);
      if v.Stopped? {
        assert multiset{} + Owners(handle) == mine;
        Abandon(handle, multiset{});
        return Stopped(v.why);
      }
      SetCell(c, v.value, mine);
      assert mine + multiset{} == Owners(handle);
      return Done(handle);
    }

    /** Puts an owned value into a cell; what was there is in flight. */
    method SetCell(c: nat, w: Value, ghost flight: multiset<Handle>)
      requires Inv(flight + Owners(w)) && 0 < c <= |heap| && heap[c - 1].CellBox? && heap[c - 1].count > 0
      modifies `heap
      ensures Inv(flight + Owners(old(heap)[c - 1].val))
      ensures heap == old(heap)[c - 1 := CellBox(old(heap)[c - 1].count, w)]
    {
      hide Sound, Apart, FramesOk, StaticsOk;
      ghost var roots := leaked + (flight + Owners(w));
      ghost var v := heap[c - 1].val;
      SwapCell(heap, roots, c, w);
      ghost var h := heap;
      heap := heap[c - 1 := CellBox(heap[c - 1].count, w)];
      assert roots - Owners(w) + Owners(v) == leaked + (flight + Owners(v));
      Settle(h, leaked + (flight + Owners(v)), flight + Owners(v));
    }

    method GetFromCell(cell: Operand) returns (r: Outcome<Value>)
      requires Inv(multiset{}) && frames != []
      modifies `heap
      ensures r.Stopped? ==> CellOf(old(heap), Top(), cell) == Stopped(r.why)
      ensures r.Done? ==> CellOf(old(heap), Top(), cell).Done?
      ensures r.Done? ==> Clone(old(heap), |old(heap)|, {}, old(heap)[CellOf(old(heap), Top(), cell).value - 1].val) == Ok((heap, r.value))
      ensures r.Done? ==> Inv(Owners(r.value))
      ensures r.Stopped? ==> Inv(multiset{}) && !r.why.MemoryFault?
    {
      hide Sound, Apart, FramesOk, StaticsOk, Keeps, CellOf, Clone;
      var c := CellPointer(cell, multiset{});
      if c.Stopped? {
        return Stopped(c.why);
      }
      CloneFromCell(heap, leaked + multiset{}, c.value);
      ghost var h := heap;
      var w := CloneValue(heap[c.value - 1].val, |heap|, {});
      KeepsGrown(heap, h);
      assert leaked + multiset{} + Owners(w) == leaked + Owners(w);
      Settle(h, leaked + Owners(w), Owners(w));
      return Done(w);
    }

    method StoreToCell(cell: Operand, arg: Operand) returns (r: Outcome<()>)
      requires Inv(multiset{}) && frames != []
      modifies `heap, `statics, `leaked
      ensures SetInCell(old(Now()), Top(), cell, arg) == if r.Done? then Done(Now()) else Stopped(r.why)
      ensures Inv(multiset{})
      ensures r.Done? ==> leaked == old(leaked)
      ensures r.Stopped? ==> !r.why.MemoryFault?
    {
      hide Sound, Apart, FramesOk, StaticsOk, Keeps, Named, CellOf, Taken, Drop, Clone;
      var c := CellPointer(cell, multiset{});
      if c.Stopped? {
        return Stopped(c.why);
      }
      ghost var g := heap;
      var w := OwnedAs(arg, false, multiset{});
      if w.Stopped? {
        return Stopped(w.why);
      }
      assert Bumped(heap[c.value - 1], g[c.value - 1]);
      assert multiset{} + Owners(w.value) == Owners(w.value);
      ReplaceInCell(c.value, w.value);
      return Done(());
    }

    /** Stores over what a cell holds, then drops it. */
    method ReplaceInCell(c: nat, w: Value)
      requires Inv(Owners(w)) && 0 < c <= |heap| && heap[c - 1].CellBox? && heap[c - 1].count > 0
      modifies `heap
      ensures Inv(multiset{})
      ensures Drop(old(heap)[c - 1 := CellBox(old(heap)[c - 1].count, w)], {}, old(heap)[c - 1].val) == Ok(heap)
    {
      hide Sound, Apart, FramesOk, StaticsOk, Keeps, Named, Drop;
      var v := heap[c - 1].val;
      assert multiset{} + Owners(w) == Owners(w) && multiset{} + Owners(v) == Owners(v);
      SetCell(c, w, multiset{});
      DropValue(v);
    }

    /** Drops a value in flight. */
    method DropValue(v: Value)
      requires Inv(Owners(v))
      modifies `heap
      ensures Drop(old(heap), {}, v) == Ok(heap)
      ensures Inv(multiset{})
    {
      hide Sound, Apart, FramesOk, StaticsOk, Keeps;
      DropSound(heap, {}, {}, leaked + Owners(v), v);
      assert leaked + Owners(v) - Owners(v) == leaked + multiset{};
      ghost var h := heap;
      var r := DropAt(v, {});
      KeepsBelow(heap, h);
      Settle(h, leaked + multiset{}, multiset{});
    }

    /** A built-in call; `wanted` says whether its result has a destination. */
    method RunBuiltin(op: Builtin, wanted: bool) returns (r: Outcome<Option<Value>>)
      requires Inv(multiset{}) && frames != []
      modifies `heap, `statics, `leaked
      ensures Built(old(Now()), Top(), op, wanted) == if r.Done? then Done((Now(), r.value)) else Stopped(r.why)
      ensures r.Done? && r.value.Some? ==> Inv(Owners(r.value.value))
      ensures r.Done? && r.value.None? ==> Inv(multiset{})
      ensures r.Done? && r.value.Some? && (op.StrongCount? || (op.CellGet? && !wanted)) ==> Owners(r.value.value) == multiset{}
      ensures op.CellSet? && r.Done? ==> r.value.None?
      ensures r.Done? ==> leaked == old(leaked)
      ensures r.Stopped? ==> Inv(multiset{}) && !r.why.MemoryFault?
    {
      hide Sound, Apart, FramesOk, StaticsOk, CellOf, MadeCell, SetInCell, IntOf, Clone, Zero;
      match op
      case CellNew(arg) =>
        var v := NewSharedCell(arg);
        return if v.Done? then Done(Some(v.value)) else Stopped(v.why);
      case CellGet(cell) =>
        if !wanted {
          var c := CellPointer(cell, multiset{});
          return if c.Done? then Done(None) else Stopped(c.why);
        }
        var v := GetFromCell(cell);
        return if v.Done? then Done(Some(v.value)) else Stopped(v.why);
      case CellSet(cell, arg) =>
        var v := StoreToCell(cell, arg);
        return if v.Done? then Done(None) else Stopped(v.why);
      case CellClone(cell) =>
        var c := CellPointer(cell, multiset{});
        if c.Stopped? {
          return Stopped(c.why);
        }
        Share(heap, {}, leaked + multiset{}, c.value);
        ghost var h := heap;
        heap := heap[c.value - 1 := CellBox(heap[c.value - 1].count + 1, heap[c.value - 1].val)];
        var w := VCell(c.value);
        assert leaked + multiset{} + multiset{CellH(c.value)} == leaked + Owners(w);
        Settle(h, leaked + Owners(w), Owners(w));
        return Done(Some(w));
      case StrongCount(cell) =>
        var c := CellPointer(cell, multiset{});
        if c.Stopped? {
          return Stopped(c.why);
        }
        return Done(Some(VInt(heap[c.value - 1].count)));
      case SliceOfZeros(elem, len) =>
        var n := ReadInt(len);
        if n.Stopped? {
          return Stopped(n.why);
        }
        if n.value < 0 {
          return Stopped(Fault("capacity overflow"));
        }
        var w := NewZeros(elem, n.value);
        return Done(Some(w));
    }

    method NewZeros(elem: Ty, n: nat) returns (w: Value)
      requires Inv(multiset{})
      modifies `heap
      ensures Inv(Owners(w))
      ensures heap == old(heap) + [Elems(seq(n, _ => Zero(elem)))] && w == VSlice(|heap|)
    {
      hide Sound, Apart, FramesOk, StaticsOk;
      ZeroOwners(elem);
      ZeroElems(n, Zero(elem));
      var block := Elems(seq(n, _ => Zero(elem)));
      Adopt(heap, {}, leaked + multiset{}, SliceH(|heap| + 1), block);
      ghost var h := heap;
      heap := heap + [block];
      w := VSlice(|heap|);
      assert leaked + multiset{} + multiset{SliceH(|heap|)} == leaked + Owners(w);
      Settle(h, leaked + Owners(w), Owners(w));
    }

    method ReadInt(op: Operand) returns (r: Outcome<int>)
      requires Inv(multiset{}) && frames != []
      ensures r == IntOf(heap, Top(), op)
      ensures r.Stopped? ==> !r.why.MemoryFault?
    {
      hide Sound, Apart, FramesOk, StaticsOk, Named, Where;
      if op.ConstInt? {
        return Done(op.n);
      }
      if !op.Copy? && !op.Move? {
        return Stopped(Promise("not an integer"));
      }
      var where := Locate(op.place, multiset{});
      if where.Stopped? {
        return Stopped(where.why);
      }
      var v := Places.Load(heap, where.value.slot).value;
      return if v.VInt? then Done(v.n) else Stopped(Promise("not an integer"));
    }

    // ---------------------------------------------------------------
    // terminators, frames and calls
    // ---------------------------------------------------------------

    /** Charges one statement or terminator to the budget. */
    method Tick() returns (r: Outcome<()>)
      requires Inv(multiset{}) && executed <= budget
      modifies `executed
      ensures Inv(multiset{}) && executed == old(executed) + 1
      ensures if executed <= budget then r.Done? else r == Stopped(Fault("exceeded the comptime instruction budget"))
    {
      executed := executed + 1;
      return if executed > budget then Stopped(Fault("exceeded the comptime instruction budget")) else Done(());
    }

    method ArgValue(arg: Operand, param: Ty, ghost flight: multiset<Handle>) returns (r: Outcome<Value>)
      requires Inv(flight) && frames != []
      modifies `heap, `statics
      ensures ArgOf(old(Now()), Top(), arg, param) == if r.Done? then Done((Now(), r.value)) else Stopped(r.why)
      ensures r.Done? ==> Inv(flight + Owners(r.value))
      ensures r.Stopped? ==> Inv(flight) && !r.why.MemoryFault?
    {
      hide Sound, Apart, FramesOk, StaticsOk, Keeps, Persists, Named, Taken, Where;
      if !param.TBorrow? {
        r := OwnedAs(arg, true, flight);
        return;
      }
      if !arg.Copy? && !arg.Move? {
        return Stopped(Promise("a constant passed by reference"));
      }
      var where := Locate(arg.place, flight);
      if where.Stopped? {
        return Stopped(where.why);
      }
      assert flight + multiset{} == flight;
      var v := Places.Load(heap, where.value.slot).value;
      if v.VRef? {
        return Done(v);
      }
      if !heap[where.value.slot.block - 1].Storage? {
        return Stopped(Promise("a reference into a slice"));
      }
      return Done(VRef(where.value.slot));
    }

    method ArgValues(args: seq<Operand>, params: seq<Ty>) returns (r: Outcome<seq<Value>>)
      requires Inv(multiset{}) && frames != [] && |args| <= |params|
      modifies `heap, `statics, `leaked
      ensures ArgsOf(old(Now()), Top(), args, params) == if r.Done? then Done((Now(), r.value)) else Stopped(r.why)
      ensures r.Done? ==> Inv(OwnersAll(r.value)) && leaked == old(leaked) && |r.value| == |args|
      ensures r.Stopped? ==> Inv(multiset{}) && !r.why.MemoryFault?
    {
      hide Sound, Apart, FramesOk, StaticsOk, Keeps, Persists, Named, ArgOf, ArgsOf, Behind;
      var vs: seq<Value> := [];
      var i := 0;
      ArgsEnds(Now(), Top(), args, params, vs);
      while i < |args|
        invariant 0 <= i <= |args| && |vs| == i
        invariant Inv(OwnersAll(vs)) && leaked == old(leaked)
        invariant ArgsOf(old(Now()), Top(), args, params) == Behind(vs, ArgsOf(Now(), Top(), args[i..], params[i..]))
      {
        ArgsNext(Now(), Top(), args, params, vs, i);
        var v := ArgValue(args[i], params[i], OwnersAll(vs));
        if v.Stopped? {
          assert multiset{} + OwnersAll(vs) == OwnersAll(vs);
          AbandonAll(vs, multiset{});
          return Stopped(v.why);
        }
        OwnersAllConcat(vs, [v.value]);
        OwnersAllSingle(v.value);
        vs := vs + [v.value];
        i := i + 1;
      }
      ArgsEnds(Now(), Top(), args, params, vs);
      return Done(vs);
    }

    method RunReturn(op: Operand) returns (r: Outcome<Value>)
      requires Inv(multiset{}) && frames != []
      modifies `heap, `statics, `leaked
      ensures Returned(old(Now()), Top(), op) == if r.Done? then Done((Now(), r.value)) else Stopped(r.why)
      ensures r.Done? ==> Inv(Owners(r.value)) && Idle(heap, Top().locals)
      ensures r.Done? && !NeedsDrop(Top().body.returnTy) ==> Owners(r.value) == multiset{}
      ensures r.Done? ==> leaked == old(leaked)
      ensures r.Stopped? ==> Inv(multiset{}) && !r.why.MemoryFault?
    {
      hide Sound, Apart, FramesOk, StaticsOk, Keeps, Persists, Named, Taken, EmptiedAll;
      var ty := frames[|frames| - 1].body.returnTy;
      if ty.TUnit? {
        DropAllOwned(multiset{});
        return Done(VUnit);
      }
      if op.ConstUnit? {
        return Stopped(Fault("reached code with no value to return"));
      }
      r := OwnedAs(op, !ty.TBorrow?, multiset{});
      if r.Stopped? {
        return;
      }
      assert multiset{} + Owners(r.value) == Owners(r.value);
      if !NeedsDrop(ty) {
        if Owning(r.value) {
          Abandon(r.value, multiset{});
          return Stopped(Promise("value of the wrong type"));
        }
        NotOwning(r.value);
      }
      DropAllOwned(Owners(r.value));
    }

    method Deliver(destination: Option<Place>, v: Value) returns (r: Outcome<()>)
      requires Inv(Owners(v)) && frames != []
      modifies `heap, `leaked
      ensures Delivered(old(Now()), Top(), destination, v) == if r.Done? then Done(Now()) else Stopped(r.why)
      ensures Inv(multiset{})
      ensures r.Done? && destination.Some? ==> leaked == old(leaked)
      ensures r.Done? && destination.None? ==> leaked == old(leaked) + Owners(v)
      ensures r.Stopped? ==> !r.why.MemoryFault?
    {
      hide Sound, Apart, FramesOk, StaticsOk;
      assert multiset{} + Owners(v) == Owners(v);
      match destination
      case Some(p) => r := WritePlace(p, v, multiset{});
      case None =>
        Abandon(v, multiset{});
        return Done(());
    }

    method RunTerminator(t: Terminator) returns (r: Outcome<Flow>)
      requires Inv(multiset{}) && frames != [] && executed <= budget
      modifies this
      ensures Ended(program, Bounds(), old(depth), old(Now()), old(Top()), old(executed), t)
              == if r.Done? then Done((Now(), executed, r.value)) else Stopped(r.why)
      ensures frames == old(frames) && old(executed) <= executed
      ensures r.Done? ==> executed <= budget
      ensures r.Done? && r.value.Next? ==> Inv(multiset{})
      ensures r.Done? && r.value.Finish? ==> Inv(Owners(r.value.value)) && Idle(heap, Top().locals)
      ensures r.Done? && r.value.Finish? && !NeedsDrop(Top().body.returnTy) ==> Owners(r.value.value) == multiset{}
      ensures r.Done? && Tidy(program) && TidyTerminator(program, t) ==> leaked == old(leaked)
      ensures r.Stopped? ==> Inv(multiset{}) && !r.why.MemoryFault?
      decreases budget + 1 - executed, 5
    {
      hide Sound, Apart, FramesOk, StaticsOk, Keeps, Persists, Tidy, Named, Called, Delivered, Built, Returned, IntOf;
      match t
      case Goto(target) =>
        return Done(Next(target));
      case SwitchInt(discriminant, targets, otherwise) =>
        var n := ReadInt(discriminant);
        if n.Stopped? {
          return Stopped(n.why);
        }
        var i := 0;
        while i < |targets|
          invariant 0 <= i <= |targets|
          invariant Chosen(n.value, targets, otherwise) == Chosen(n.value, targets[i..], otherwise)
        {
          assert targets[i..][1..] == targets[i + 1..];
          if targets[i].0 == n.value {
            return Done(Next(targets[i].1));
          }
          i := i + 1;
        }
        return Done(Next(otherwise));
      case Call(name, args, destination, resume) =>
        var v := RunCall(name, args);
        if v.Stopped? {
          return Stopped(v.why);
        }
        var d := Deliver(destination, v.value);
        return if d.Done? then Done(Next(resume)) else Stopped(d.why);
      case CallBuiltin(op, destination, resume) =>
        var v := RunBuiltin(op, destination.Some?);
        if v.Stopped? {
          return Stopped(v.why);
        }
        if v.value.Some? {
          var d := Deliver(destination, v.value.value);
          return if d.Done? then Done(Next(resume)) else Stopped(d.why);
        }
        return Done(Next(resume));
      case Return(op) =>
        var v := RunReturn(op);
        return if v.Done? then Done(Finish(v.value)) else Stopped(v.why);
      case Unreachable =>
        return Stopped(Fault("entered unreachable code"));
    }

    method RunCall(name: string, args: seq<Operand>) returns (r: Outcome<Value>)
      requires Inv(multiset{}) && frames != [] && executed <= budget
      modifies this
      ensures Called(program, Bounds(), old(depth), old(Now()), old(Top()), old(executed), name, args)
              == if r.Done? then Done((Now(), executed, r.value)) else Stopped(r.why)
      ensures frames == old(frames) && old(executed) <= executed
      ensures r.Done? ==> Inv(Owners(r.value)) && executed <= budget && name in program
      ensures r.Done? && !NeedsDrop(program[name].returnTy) ==> Owners(r.value) == multiset{}
      ensures r.Done? && Tidy(program) ==> leaked == old(leaked)
      ensures r.Stopped? ==> Inv(multiset{}) && !r.why.MemoryFault?
      decreases budget + 1 - executed, 4
    {
      hide Sound, Apart, FramesOk, StaticsOk, Keeps, Persists, Tidy, Named, ArgsOf, Invoked;
      if name !in program {
        return Stopped(Fault("no body to evaluate at compile time"));
      }
      var body := program[name];
      if |args| > body.paramCount || body.paramCount > |body.locals| {
        return Stopped(Promise("wrong number of arguments"));
      }
      var vs := ArgValues(args, body.locals);
      if vs.Stopped? {
        return Stopped(vs.why);
      }
      r := Invoke(name, vs.value);
    }

    /** Runs the newest frame to its return. */
    method RunFrame(args: seq<Value>) returns (r: Outcome<Value>)
      requires Inv(OwnersAll(args)) && frames != [] && executed <= budget && Idle(heap, Top().locals)
      modifies this
      ensures Framed(program, Bounds(), old(depth), old(Now()), old(Top()), old(executed), args)
              == if r.Done? then Done((Now(), executed, r.value)) else Stopped(r.why)
      ensures frames == old(frames) && old(executed) <= executed
      ensures r.Done? ==> Inv(Owners(r.value)) && executed <= budget && Idle(heap, Top().locals)
      ensures r.Done? && !NeedsDrop(Top().body.returnTy) ==> Owners(r.value) == multiset{}
      ensures r.Done? && Tidy(program) && TidyBody(program, Top().body) ==> leaked == old(leaked)
      ensures r.Stopped? ==> Inv(multiset{}) && !r.why.MemoryFault?
      decreases budget + 1 - executed, 3
    {
      hide Sound, Apart, FramesOk, StaticsOk, Keeps, Persists, Tidy, TidyTerminator, Named, Ran, Ended, Received;
      var body := frames[|frames| - 1].body;
      var ready := BindParams(args);
      if ready.Stopped? {
        return Stopped(ready.why);
      }
      var block := 0;
      while true
        invariant Inv(multiset{}) && frames == old(frames) && depth == old(depth) && old(executed) <= executed <= budget
        invariant Tidy(program) && TidyBody(program, body) ==> leaked == old(leaked)
        invariant Framed(program, Bounds(), old(depth), old(Now()), old(Top()), old(executed), args)
                  == Flowed(program, Bounds(), old(depth), Now(), Top(), executed, block)
        decreases budget + 1 - executed
      {
        if block >= |body.blocks| {
          return Stopped(Promise("no such block"));
        }
        var s := RunStatements(body.blocks[block].statements);
        if s.Stopped? {
          return Stopped(s.why);
        }
        var t := Tick();
        if t.Stopped? {
          return Stopped(t.why);
        }
        var flow := RunTerminator(body.blocks[block].terminator);
        if flow.Stopped? {
          return Stopped(flow.why);
        }
        match flow.value
        case Next(target) => block := target;
        case Finish(v) => return Done(v);
      }
    }

    /** Runs statements in order, each charged to the budget. */
    method RunStatements(ss: seq<Statement>) returns (r: Outcome<()>)
      requires Inv(multiset{}) && frames != [] && executed <= budget
      modifies `heap, `statics, `leaked, `executed
      ensures Ran(old(Now()), Top(), Bounds(), old(executed), ss) == if r.Done? then Done((Now(), executed)) else Stopped(r.why)
      ensures Inv(multiset{}) && old(executed) <= executed
      ensures r.Done? ==> leaked == old(leaked) && executed <= budget
      ensures r.Stopped? ==> !r.why.MemoryFault?
    {
      hide Sound, Apart, FramesOk, StaticsOk, Named, Stepped;
      var i := 0;
      assert ss[0..] == ss;
      while i < |ss|
        invariant 0 <= i <= |ss| && Inv(multiset{}) && old(executed) <= executed <= budget && leaked == old(leaked)
        invariant Ran(old(Now()), Top(), Bounds(), old(executed), ss) == Ran(Now(), Top(), Bounds(), executed, ss[i..])
      {
        assert ss[i..][1..] == ss[i + 1..];
        var t := Tick();
        if t.Stopped? {
          return Stopped(t.why);
        }
        var s := RunStatement(ss[i]);
        if s.Stopped? {
          return Stopped(s.why);
        }
        i := i + 1;
      }
      return Done(());
    }

    /** Moves the arguments into the parameters of the newest frame. */
    method BindParams(args: seq<Value>) returns (r: Outcome<()>)
      requires Inv(OwnersAll(args)) && frames != [] && Idle(heap, Top().locals)
      modifies `heap, `leaked
      ensures (if |args| > |Top().locals| then Stopped(Promise("wrong number of arguments")) else Received(old(heap), Top(), args, 0))
              == if r.Done? then Done(heap) else Stopped(r.why)
      ensures Inv(multiset{})
      ensures r.Done? ==> leaked == old(leaked)
      ensures r.Stopped? ==> !r.why.MemoryFault?
    {
      hide Sound, Apart, StaticsOk, Named, FramesOk, Received, Idle, NeedsDrop, Owning;
      var locals := frames[|frames| - 1].locals;
      assert multiset{} + OwnersAll(args) == OwnersAll(args);
      if |args| > |locals| {
        AbandonAll(args, multiset{});
        return Stopped(Promise("wrong number of arguments"));
      }
      assert args[0..] == args && locals[0..] == locals;
      var i := 0;
      while i < |args|
        invariant 0 <= i <= |args| <= |locals| && leaked == old(leaked)
        invariant Inv(OwnersAll(args[i..]))
        invariant Idle(heap, locals[i..])
        invariant Received(old(heap), Top(), args, 0) == Received(heap, Top(), args, i)
      {
        r := BindParam(args, i);
        if r.Stopped? {
          return;
        }
        i := i + 1;
      }
      assert args[i..] == [];
      ReceivedAll(heap, Top(), args);
      return Done(());
    }

    method BindParam(args: seq<Value>, i: nat) returns (r: Outcome<()>)
      requires frames != [] && i < |args| <= |Top().locals| && Inv(OwnersAll(args[i..])) && Idle(heap, Top().locals[i..])
      modifies `heap, `leaked
      ensures r.Done? ==> Received(old(heap), Top(), args, i) == Received(heap, Top(), args, i + 1)
      ensures r.Done? ==> Inv(OwnersAll(args[i + 1..])) && Idle(heap, Top().locals[i + 1..]) && leaked == old(leaked)
      ensures r.Stopped? ==> Inv(multiset{}) && !r.why.MemoryFault? && Received(old(heap), Top(), args, i) == Stopped(r.why)
    {
      hide Sound, Apart, StaticsOk, Named, NeedsDrop, Owning;
      var frame := frames[|frames| - 1];
      assert LocalsOk(heap, frame.locals, frame.body.locals);
      hide FramesOk, LocalsOk;
      var v, rest := args[i], args[i + 1..];
      assert args[i..][1..] == rest;
      assert OwnersAll(args[i..]) == OwnersAll(rest) + Owners(v);
      var needs := NeedsDrop(frame.body.locals[i]);
      if !needs && Owning(v) {
        assert multiset{} + OwnersAll(args[i..]) == OwnersAll(args[i..]);
        AbandonAll(args[i..], multiset{});
        return Stopped(Promise("value of the wrong type"));
      }
      ghost var todo := frame.locals[i..];
      assert frame.locals[i] == todo[0] && todo[0] in todo;
      ghost var h := heap;
      SetLocal(i, v, needs, OwnersAll(rest));
      IdleRest(heap, h, frames, frame.locals, i);
      return Done(());
    }

    /** Calls a function: a frame is pushed, run and popped, whatever happens. */
    method InFrame(name: string, args: seq<Value>) returns (r: Outcome<Value>)
      requires Inv(OwnersAll(args)) && executed <= budget
      modifies this
      ensures Invoked(program, Bounds(), old(depth), old(Now()), old(executed), name, args)
              == if r.Done? then Done((Now(), executed, r.value)) else Stopped(r.why)
      ensures frames == old(frames) && old(executed) <= executed
      ensures r.Done? ==> Inv(Owners(r.value)) && executed <= budget && name in program
      ensures r.Done? && !NeedsDrop(program[name].returnTy) ==> Owners(r.value) == multiset{}
      ensures r.Done? && Tidy(program) ==> leaked == old(leaked)
      ensures r.Stopped? ==> Inv(multiset{}) && !r.why.MemoryFault?
      decreases budget + 1 - executed, 4, 0
    {
      hide Sound, Apart, FramesOk, StaticsOk, Keeps, Persists;
      assert multiset{} + OwnersAll(args) == OwnersAll(args);
      if name !in program {
        AbandonAll(args, multiset{});
        return Stopped(Fault("no body to evaluate at compile time"));
      }
      if depth >= maxDepth {
        AbandonAll(args, multiset{});
        return Stopped(Fault("exceeded the comptime call-depth limit"));
      }
      var body := program[name];
      PushFrame(body, OwnersAll(args));
      r := RunFrame(args);
      PopFrame(if r.Done? then Owners(r.value) else multiset{}, r.Done?);
    }

    /** A call, nested or not: it computes what the semantics says, keeps the
        invariant, leaves alone whatever its arguments do not lead to, and conserves
        what they do. */
    method Invoke(name: string, args: seq<Value>) returns (r: Outcome<Value>)
      requires Inv(OwnersAll(args)) && executed <= budget
      modifies this
      ensures Invoked(program, Bounds(), old(depth), old(Now()), old(executed), name, args)
              == if r.Done? then Done((Now(), executed, r.value)) else Stopped(r.why)
      ensures r.Done? ==> C.Spares(old(heap), heap, args)
      ensures r.Done? && Tidy(program) ==> C.Conserves(old(heap), heap, args, r.value)
      ensures frames == old(frames) && old(executed) <= executed
      ensures r.Done? ==> Inv(Owners(r.value)) && executed <= budget && name in program
      ensures r.Done? && !NeedsDrop(program[name].returnTy) ==> Owners(r.value) == multiset{}
      ensures r.Done? && Tidy(program) ==> leaked == old(leaked)
      ensures r.Stopped? ==> Inv(multiset{}) && !r.why.MemoryFault?
      decreases budget + 1 - executed, 4, 1
    {
      hide Sound, Apart, FramesOk, StaticsOk, Named, Tidy, Invoked, C.Spares, C.Conserves, C.NoStorageMade, NeedsDrop;
      r := InFrame(name, args);
      if r.Done? {
        C.CallSpares(program, Bounds(), old(depth), old(Now()), old(executed), name, args);
        StorageOfFrames(old(heap), heap, frames);
        if Tidy(program) {
          C.CallConserves(old(heap), heap, leaked, args, r.value);
        }
      }
    }

    method PushFrame(body: Body, ghost flight: multiset<Handle>)
      requires Inv(flight) && depth < maxDepth
      modifies `heap, `frames, `depth
      ensures Inv(flight) && |frames| == |old(frames)| + 1 && frames[..|old(frames)|] == old(frames)
      ensures heap == old(heap) + Fresh(body.locals) && Top() == NewFrame(old(heap), body) && depth == old(depth) + 1
      ensures Idle(heap, Top().locals)
    {
      hide Sound, Holds, Fresh, Named, FramesOk, StaticsOk;
      var locals: seq<nat> := [];
      ghost var h := heap;
      HoldsSelf(h);
      AllFresh(h, body);
      var i := 0;
      while i < |body.locals|
        invariant 0 <= i <= |body.locals| && |locals| == i && frames == old(frames) && depth == old(depth)
        invariant heap == h + Fresh(body.locals)[..i] && locals == NewFrame(h, body).locals[..i]
        invariant Sound(heap, {}, leaked + flight) && Holds(heap, h)
        invariant Named(heap, frames, locals)
      {
        var b := Storage(Zero(body.locals[i]), false);
        AllocPlain(heap, leaked + flight, b);
        HoldsAppend(heap, h, b);
        NamedAppend(heap, frames, locals, b);
        NextFresh(h, body, i);
        heap := heap + [b];
        locals := locals + [|heap|];
        i := i + 1;
      }
      FramesKeep(heap, h, frames, statics);
      FramesPush(heap, h, frames, Frame(body, locals));
      NamedPush(heap, frames, Frame(body, locals));
      frames := frames + [Frame(body, locals)];
      depth := depth + 1;
    }

    /** Pops the newest frame and gives its storage back; what its locals still
        own, after a run that stopped early, is lost. */
    method PopFrame(ghost flight: multiset<Handle>, ghost done: bool)
      requires Inv(flight) && frames != [] && (done ==> Idle(heap, Top().locals))
      modifies `heap, `frames, `depth, `leaked
      ensures Inv(flight) && frames == old(frames)[..|old(frames)| - 1]
      ensures FreedAll(old(heap), old(Top()).locals) == Done(heap)
      ensures done ==> leaked == old(leaked)
    {
      hide Sound, Named;
      var locals := frames[|frames| - 1].locals;
      ghost var before := frames;
      assert LocalsOk(heap, locals, frames[|frames| - 1].body.locals);
      depth := depth - 1;
      frames := frames[..|frames| - 1];
      FramesPop(heap, before);
      NamedPop(heap, before);
      hide Apart, FramesOk, StaticsOk, FreedAll, Free;
      FreeLocals(flight, before, locals, done);
    }

    method FreeLocals(ghost flight: multiset<Handle>, ghost before: seq<Frame>, locals: seq<nat>, ghost done: bool)
      requires before != [] && Apart(before) && locals == before[|before| - 1].locals && frames == before[..|before| - 1]
      requires Sound(heap, {}, leaked + flight) && FramesOk(heap, frames) && StaticsOk(heap, statics) && Named(heap, frames, locals)
      requires forall l :: 0 <= l < |locals| ==> 0 < locals[l] <= |heap| && heap[locals[l] - 1].Storage?
      requires done ==> Idle(heap, locals)
      modifies `heap, `leaked
      ensures Sound(heap, {}, leaked + flight) && FramesOk(heap, frames) && StaticsOk(heap, statics) && Named(heap, frames, [])
      ensures FreedAll(old(heap), locals) == Done(heap)
      ensures done ==> leaked == old(leaked)
    {
      hide Sound, Named, Apart, FramesOk, StaticsOk, FreedAll, Free;
      assert locals[0..] == locals;
      assert done ==> forall l :: 0 <= l < |locals| ==> locals[l] in locals && !heap[locals[l] - 1].owned;
      hide Idle;
      var i := 0;
      while i < |locals|
        invariant 0 <= i <= |locals|
        invariant Sound(heap, {}, leaked + flight) && FramesOk(heap, frames) && StaticsOk(heap, statics)
        invariant Named(heap, frames, locals[i..])
        invariant FreedAll(old(heap), locals) == FreedAll(heap, locals[i..])
        invariant forall l :: i <= l < |locals| ==> 0 < locals[l] <= |heap| && heap[locals[l] - 1].Storage?
        invariant done ==> leaked == old(leaked) && forall l :: i <= l < |locals| ==> !heap[locals[l] - 1].owned
      {
        ghost var h := heap;
        FreeNext(flight, before, locals, i, done);
        FreedNext(h, heap, locals, i);
        i := i + 1;
      }
      assert locals[i..] == [];
      FreedNone(heap);
    }

    method FreeNext(ghost flight: multiset<Handle>, ghost before: seq<Frame>, locals: seq<nat>, i: nat, ghost done: bool)
      requires before != [] && Apart(before) && locals == before[|before| - 1].locals && i < |locals|
      requires Sound(heap, {}, leaked + flight) && FramesOk(heap, frames) && StaticsOk(heap, statics)
      requires Named(heap, frames, locals[i..]) && frames == before[..|before| - 1]
      requires forall l :: i <= l < |locals| ==> 0 < locals[l] <= |heap| && heap[locals[l] - 1].Storage?
      requires done ==> !heap[locals[i] - 1].owned
      modifies `heap, `leaked
      ensures Sound(heap, {}, leaked + flight) && FramesOk(heap, frames) && StaticsOk(heap, statics)
      ensures Named(heap, frames, locals[i + 1..])
      ensures Free(old(heap), locals[i]) == Ok(heap)
      ensures |heap| == |old(heap)| && forall l :: i < l < |locals| ==> heap[locals[l] - 1] == old(heap)[locals[l] - 1]
      ensures done ==> leaked == old(leaked)
    {
      hide Sound, Named, FramesOk, StaticsOk, Apart;
      var a := locals[i];
      FreeLocal(heap, leaked + flight, a);
      ghost var c := Content(heap[a - 1]);
      assert leaked + flight + c == leaked + c + flight;
      assert done ==> leaked + c == leaked;
      PoppedApart(before, i);
      ghost var h := heap;
      assert locals[i..][0] == a && locals[i..][1..] == locals[i + 1..];
      NamedFree(heap, frames, locals[i..]);
      var r := FreeBlock(a);
      FramesFree(heap, h, frames, statics, a);
      leaked := leaked + c;
    }

    // ---------------------------------------------------------------
    // a whole evaluation
    // ---------------------------------------------------------------

    /** Evaluates `entry` when nothing is live but what the arguments own. The
        outcome is what the semantics says; whatever the program does, no access
        to freed memory happens, the limits hold and every frame is gone. After a
        success nothing that no cell keeps alive has leaked: each live block is
        owned by the result, directly or through a slice. */
    method Evaluate(entry: string, args: seq<Value>) returns (r: Outcome<Value>)
      requires Inv(OwnersAll(args)) && frames == [] && executed == 0 && leaked == multiset{}
      modifies this
      ensures Invoked(program, Bounds(), 0, old(Now()), 0, entry, args) == if r.Done? then Done((Now(), executed, r.value)) else Stopped(r.why)
      ensures frames == [] && depth == 0 && executed <= budget + 1
      ensures r.Done? ==> executed <= budget
      ensures r.Stopped? ==> !r.why.MemoryFault?
      ensures r.Done? ==> Inv(Owners(r.value))
      ensures r.Done? ==> (Sound(heap, {}, Owners(r.value)) <==> leaked == multiset{})
      ensures r.Done? && Tidy(program) ==> Sound(heap, {}, Owners(r.value))
      ensures r.Done? && Tidy(program) && (forall i :: 0 <= i < |heap| ==> !heap[i].CellBox?) ==> AllOwnedBy(heap, r.value)
    {
      hide Sound, Tidy, Apart, FramesOk, StaticsOk;
      r := Invoke(entry, args);
      if r.Done? {
        NoLeak(heap, leaked, Owners(r.value));
      }
      if r.Done? && Tidy(program) {
        assert multiset{} + Owners(r.value) == Owners(r.value);
        NothingPinned(heap);
        if forall i :: 0 <= i < |heap| ==> !heap[i].CellBox? {
          ResultOwnsAll(heap, r.value);
        }
      }
    }
  }
}
