/** The shared-cell protocol both native backends emit: a spin lock and an
    atomic count per cell, run by any number of threads in any interleaving.

    A step is one access to shared memory: a compare-and-swap, an atomic add or
    subtract, a copy of the cell's value in either direction, or a release. */
module CellProtocol {

  datatype Option<+T> = None | Some(value: T)

  /** A value held by a cell or by a thread: its identity, what it says, and the
      cells its storage holds handles on. */
  datatype Val = Val(id: nat, payload: int, parts: seq<nat>)

  /** A cell that has lost its last handle keeps count 0 until it is released;
      what it held is by then in the hands of the thread that drops it. */
  datatype Cell = Cell(count: nat, locked: bool, val: Val) | Released

  /** Where a thread is inside `get` or `set`. */
  datatype Pc =
    | Idle
    | GetSpin(c: nat)
    | GetLocked(c: nat)
    | GetCloning(c: nat, copy: Val, done: nat)
    | SetSpin(c: nat, new_: Val)
    | SetLocked(c: nat, new_: Val)
    | SetSaved(c: nat, new_: Val, old_: Val)
    | SetStored(c: nat, old_: Val)

  /** Drop glue still to be run. */
  datatype Task = DropParts(parts: seq<nat>) | DropVal(v: Val) | Free(cell: nat)

  datatype Thread = Thread(pc: Pc, handles: multiset<nat>, vals: seq<Val>, todo: seq<Task>)

  datatype State = State(cells: seq<Cell>, threads: seq<Thread>, nextId: nat, dropped: multiset<nat>)

  datatype Action =
    | Make(payload: int, parts: seq<nat>)
    | Rotate
    | New
    | Clone(c: nat)
    | Give(c: nat, to: nat)
    | DropHandle(c: nat)
    | DropHeld
    | BeginGet(c: nat)
    | BeginSet(c: nat)
    | Go

  // ---------------------------------------------------------------
  // steps
  // ---------------------------------------------------------------

  predicate Live(s: State, c: nat) {
    c < |s.cells| && s.cells[c].Cell?
  }

  function WithThread(s: State, t: nat, th: Thread): State
    requires t < |s.threads|
  {
    s.(threads := s.threads[t := th])
  }

  function WithCell(s: State, c: nat, cell: Cell): State
    requires c < |s.cells|
  {
    s.(cells := s.cells[c := cell])
  }

  /** What a thread does between operations. It touches a cell only while it
      holds a handle on it. */
  function Start(s: State, t: nat, a: Action): Option<State>
    requires t < |s.threads| && s.threads[t].pc.Idle? && s.threads[t].todo == []
  {
    var th := s.threads[t];
    match a
    case Make(payload, parts) =>
      if !(multiset(parts) <= th.handles) then None
      else
        var v := Val(s.nextId, payload, parts);
        Some(WithThread(s, t, th.(handles := th.handles - multiset(parts), vals := [v] + th.vals)).(nextId := s.nextId + 1))
    case Rotate =>
      if th.vals == [] then None else Some(WithThread(s, t, th.(vals := th.vals[1..] + [th.vals[0]])))
    case New =>
      if th.vals == [] then None
      else
        var c := |s.cells|;
        Some(WithThread(s, t, th.(handles := th.handles + multiset{c}, vals := th.vals[1..]))
             .(cells := s.cells + [Cell(1, false, th.vals[0])]))
    case Clone(c) =>
      if c !in th.handles || !Live(s, c) then None
      else Some(WithCell(WithThread(s, t, th.(handles := th.handles + multiset{c})), c, s.cells[c].(count := s.cells[c].count + 1)))
    case Give(c, to) =>
      if c !in th.handles || to >= |s.threads| || to == t then None
      else
        var other := s.threads[to];
        Some(WithThread(WithThread(s, t, th.(handles := th.handles - multiset{c})), to, other.(handles := other.handles + multiset{c})))
    case DropHandle(c) =>
      if c !in th.handles then None
      else Some(WithThread(s, t, th.(handles := th.handles - multiset{c}, todo := [DropParts([c])])))
    case DropHeld =>
      if th.vals == [] then None
      else Some(WithThread(s, t, th.(vals := th.vals[1..], todo := [DropVal(th.vals[0])])))
    case BeginGet(c) =>
      if c !in th.handles then None else Some(WithThread(s, t, th.(pc := GetSpin(c))))
    case BeginSet(c) =>
      if c !in th.handles || th.vals == [] then None
      else Some(WithThread(s, t, th.(pc := SetSpin(c, th.vals[0]), vals := th.vals[1..])))
    case Go => None
  }

  /** The next step of the drop glue. */
  function RunTask(s: State, t: nat): Option<State>
    requires t < |s.threads| && s.threads[t].todo != []
  {
    var th := s.threads[t];
    var rest := th.todo[1..];
    match th.todo[0]
    case DropVal(v) =>
      Some(WithThread(s, t, th.(todo := [DropParts(v.parts)] + rest)).(dropped := s.dropped + multiset{v.id}))
    case Free(c) =>
      if !Live(s, c) then None else Some(WithCell(WithThread(s, t, th.(todo := rest)), c, Released))
    case DropParts(parts) =>
      if parts == [] then Some(WithThread(s, t, th.(todo := rest)))
      else if !Live(s, parts[0]) || s.cells[parts[0]].count == 0 then None
      else
        var c := parts[0];
        var cell := s.cells[c];
        var more := [DropParts(parts[1..])] + rest;
        var work := if cell.count == 1 then [DropVal(cell.val), Free(c)] + more else more;
        Some(WithCell(WithThread(s, t, th.(todo := work)), c, cell.(count := cell.count - 1)))
  }

  /** The next step of `get` or `set`. A spinning thread whose compare-and-swap
      fails stays where it is. */
  function RunOp(s: State, t: nat): Option<State>
    requires t < |s.threads| && !s.threads[t].pc.Idle?
  {
    var th := s.threads[t];
    var c := th.pc.c;
    if !Live(s, c) then None
    else
      var cell := s.cells[c];
      match th.pc
      case GetSpin(_) =>
        if cell.locked then Some(s)
        else Some(WithCell(WithThread(s, t, th.(pc := GetLocked(c))), c, cell.(locked := true)))
      case GetLocked(_) => Some(WithThread(s, t, th.(pc := GetCloning(c, cell.val, 0))))
      case GetCloning(_, copy, done) =>
        if done < |copy.parts| then
          var p := copy.parts[done];
          if !Live(s, p) then None
          else Some(WithCell(WithThread(s, t, th.(pc := GetCloning(c, copy, done + 1))), p, s.cells[p].(count := s.cells[p].count + 1)))
        else
          var v := Val(s.nextId, copy.payload, copy.parts);
          Some(WithCell(WithThread(s, t, th.(pc := Idle, vals := [v] + th.vals)), c, cell.(locked := false)).(nextId := s.nextId + 1))
      case SetSpin(_, v) =>
        if cell.locked then Some(s)
        else Some(WithCell(WithThread(s, t, th.(pc := SetLocked(c, v))), c, cell.(locked := true)))
      case SetLocked(_, v) => Some(WithThread(s, t, th.(pc := SetSaved(c, v, cell.val))))
      case SetSaved(_, v, old_) => Some(WithCell(WithThread(s, t, th.(pc := SetStored(c, old_))), c, cell.(val := v)))
      case SetStored(_, old_) =>
        Some(WithCell(WithThread(s, t, th.(pc := Idle, todo := [DropVal(old_)])), c, cell.(locked := false)))
      case Idle => None
  }

  /** One step of thread `t`. */
  function Step(s: State, t: nat, a: Action): Option<State> {
    if t >= |s.threads| then None
    else if !s.threads[t].pc.Idle? then RunOp(s, t)
    else if s.threads[t].todo != [] then RunTask(s, t)
    else Start(s, t, a)
  }

  // ---------------------------------------------------------------
  // what is where
  // ---------------------------------------------------------------

  /** The things that are counted: handles on a cell, places where a value is,
      threads inside a cell's locked section, pending releases of a cell. */
  datatype Tag = Handle(c: nat) | Value(id: nat) | Lock(c: nat) | Release(c: nat)

  function B(b: bool): nat {
    if b then 1 else 0
  }

  function InVal(v: Val, tag: Tag): nat {
    match tag
    case Handle(c) => multiset(v.parts)[c]
    case Value(id) => B(v.id == id)
    case _ => 0
  }

  function InVals(vs: seq<Val>, tag: Tag): nat {
    if vs == [] then 0 else InVal(vs[0], tag) + InVals(vs[1..], tag)
  }

  function InTask(k: Task, tag: Tag): nat {
    match k
    case DropVal(v) => InVal(v, tag)
    case DropParts(ps) => if tag.Handle? then multiset(ps)[tag.c] else 0
    case Free(c) => B(tag == Release(c))
  }

  function InTasks(ks: seq<Task>, tag: Tag): nat {
    if ks == [] then 0 else InTask(ks[0], tag) + InTasks(ks[1..], tag)
  }

  /** Inside the locked section of `c`. */
  predicate Inside(pc: Pc, c: nat) {
    !pc.Idle? && !pc.GetSpin? && !pc.SetSpin? && pc.c == c
  }

  function InPc(pc: Pc, tag: Tag): nat {
    if tag.Lock? then B(Inside(pc, tag.c))
    else match pc
      case GetCloning(_, copy, done) =>
        if tag.Handle? && done <= |copy.parts| then multiset(copy.parts[..done])[tag.c] else 0
      case SetSpin(_, v) => InVal(v, tag)
      case SetLocked(_, v) => InVal(v, tag)
      case SetSaved(_, v, _) => InVal(v, tag)
      case SetStored(_, v) => InVal(v, tag)
      case _ => 0
  }

  function In(th: Thread, tag: Tag): nat {
    InPc(th.pc, tag) + InVals(th.vals, tag) + InTasks(th.todo, tag) + (if tag.Handle? then th.handles[tag.c] else 0)
  }

  function InCell(cell: Cell, tag: Tag): nat {
    if cell.Cell? && cell.count > 0 then InVal(cell.val, tag) else 0
  }

  function Sum(ths: seq<Thread>, tag: Tag): nat {
    if ths == [] then 0 else Sum(ths[..|ths| - 1], tag) + In(ths[|ths| - 1], tag)
  }

  function SumCells(cells: seq<Cell>, tag: Tag): nat {
    if cells == [] then 0 else SumCells(cells[..|cells| - 1], tag) + InCell(cells[|cells| - 1], tag)
  }

  function CellAt(s: State, c: nat): Cell {
    if c < |s.cells| then s.cells[c] else Released
  }

  /** How many there must be. */
  function Want(s: State, tag: Tag): int {
    match tag
    case Handle(c) => if CellAt(s, c).Cell? then CellAt(s, c).count else 0
    case Lock(c) => if CellAt(s, c).Cell? then B(CellAt(s, c).locked) else 0
    case Release(c) => if CellAt(s, c).Cell? then B(CellAt(s, c).count == 0) else 0
    case Value(id) => B(id < s.nextId) - s.dropped[id]
  }

  /** A thread using a cell holds a handle on it, and a copy taken under the
      lock is what the cell holds. */
  ghost predicate PcOk(s: State, th: Thread) {
    && (!th.pc.Idle? ==> th.pc.c in th.handles && th.todo == [])
    && (th.pc.GetCloning? ==> th.pc.done <= |th.pc.copy.parts| && Live(s, th.pc.c) && s.cells[th.pc.c].val == th.pc.copy)
    && (th.pc.SetSaved? ==> Live(s, th.pc.c) && s.cells[th.pc.c].val == th.pc.old_)
  }

  ghost predicate Tallied(s: State) {
    forall tag: Tag :: Sum(s.threads, tag) + SumCells(s.cells, tag) == Want(s, tag)
  }

  ghost predicate Inv(s: State) {
    && Tallied(s)
    && forall t :: 0 <= t < |s.threads| ==> PcOk(s, s.threads[t])
  }

  // ---------------------------------------------------------------
  // sums
  // ---------------------------------------------------------------

  lemma {:induction false} SumUpdate(ths: seq<Thread>, t: nat, th: Thread, tag: Tag)
    requires t < |ths|
    ensures Sum(ths[t := th], tag) + In(ths[t], tag) == Sum(ths, tag) + In(th, tag)
  {
    hide In;
    var n := |ths| - 1;
    if t == n {
      assert ths[t := th][..n] == ths[..n];
    } else {
      assert ths[t := th][..n] == ths[..n][t := th];
      SumUpdate(ths[..n], t, th, tag);
    }
  }

  lemma {:induction false} SumCellsUpdate(cells: seq<Cell>, c: nat, cell: Cell, tag: Tag)
    requires c < |cells|
    ensures SumCells(cells[c := cell], tag) + InCell(cells[c], tag) == SumCells(cells, tag) + InCell(cell, tag)
  {
    hide InCell;
    var n := |cells| - 1;
    if c == n {
      assert cells[c := cell][..n] == cells[..n];
    } else {
      assert cells[c := cell][..n] == cells[..n][c := cell];
      SumCellsUpdate(cells[..n], c, cell, tag);
    }
  }

  lemma {:induction false} SumAt(ths: seq<Thread>, t: nat, tag: Tag)
    requires t < |ths|
    ensures In(ths[t], tag) <= Sum(ths, tag)
  {
    hide In;
    if t < |ths| - 1 {
      SumAt(ths[..|ths| - 1], t, tag);
    }
  }

  lemma {:induction false} SumTwo(ths: seq<Thread>, t: nat, u: nat, tag: Tag)
    requires t < u < |ths|
    ensures In(ths[t], tag) + In(ths[u], tag) <= Sum(ths, tag)
  {
    hide In;
    var n := |ths| - 1;
    if u < n {
      SumTwo(ths[..n], t, u, tag);
    } else {
      SumAt(ths[..n], t, tag);
    }
  }

  lemma {:induction false} SumCellsAt(cells: seq<Cell>, c: nat, tag: Tag)
    requires c < |cells|
    ensures InCell(cells[c], tag) <= SumCells(cells, tag)
  {
    hide InCell;
    if c < |cells| - 1 {
      SumCellsAt(cells[..|cells| - 1], c, tag);
    }
  }

  lemma {:induction false} InValsConcat(a: seq<Val>, b: seq<Val>, tag: Tag)
    ensures InVals(a + b, tag) == InVals(a, tag) + InVals(b, tag)
  {
    hide InVal;
    if a == [] {
      assert a + b == b;
    } else {
      assert (a + b)[1..] == a[1..] + b;
      InValsConcat(a[1..], b, tag);
    }
  }

  lemma InValsCons(v: Val, vs: seq<Val>, tag: Tag)
    ensures InVals([v] + vs, tag) == InVal(v, tag) + InVals(vs, tag)
  {
    assert ([v] + vs)[1..] == vs;
  }

  lemma InTasksCons(k: Task, ks: seq<Task>, tag: Tag)
    ensures InTasks([k] + ks, tag) == InTask(k, tag) + InTasks(ks, tag)
  {
    assert ([k] + ks)[1..] == ks;
  }

  lemma PartsCons(ps: seq<nat>, c: nat)
    requires ps != []
    ensures multiset(ps)[c] == multiset(ps[1..])[c] + B(ps[0] == c)
  {
    assert ps == [ps[0]] + ps[1..];
  }

  /** A handle that somebody has means a live cell with a positive count. */
  lemma HandleLive(s: State, t: nat, c: nat)
    requires Tallied(s) && t < |s.threads| && In(s.threads[t], Handle(c)) > 0
    ensures Live(s, c) && s.cells[c].count > 0
  {
    hide In;
    SumAt(s.threads, t, Handle(c));
    assert Sum(s.threads, Handle(c)) + SumCells(s.cells, Handle(c)) == Want(s, Handle(c));
  }

  /** No two threads are inside the locked section of one cell. */
  lemma MutualExclusion(s: State, t: nat, u: nat, c: nat)
    requires Inv(s) && t < |s.threads| && u < |s.threads|
    requires Inside(s.threads[t].pc, c) && Inside(s.threads[u].pc, c)
    ensures t == u
  {
    hide Sum, SumCells;
    var tag := Lock(c);
    assert In(s.threads[t], tag) >= 1 && In(s.threads[u], tag) >= 1;
    assert Sum(s.threads, tag) + SumCells(s.cells, tag) == Want(s, tag);
    if t < u {
      SumTwo(s.threads, t, u, tag);
    } else if u < t {
      SumTwo(s.threads, u, t, tag);
    }
  }

  /** Replacing one thread and one cell keeps the tally if the change in them
      matches the change in what is wanted. */
  lemma TallyUpdate(s: State, s': State, t: nat, th: Thread, c: nat, cell: Cell, tag: Tag)
    requires Tallied(s) && t < |s.threads| && c < |s.cells|
    requires s'.threads == s.threads[t := th] && s'.cells == s.cells[c := cell]
    requires In(th, tag) + InCell(cell, tag) + Want(s, tag) == In(s.threads[t], tag) + InCell(s.cells[c], tag) + Want(s', tag)
    ensures Sum(s'.threads, tag) + SumCells(s'.cells, tag) == Want(s', tag)
  {
    hide In, InCell, Want;
    SumUpdate(s.threads, t, th, tag);
    SumCellsUpdate(s.cells, c, cell, tag);
    assert Sum(s.threads, tag) + SumCells(s.cells, tag) == Want(s, tag);
  }

  lemma TallyThread(s: State, s': State, t: nat, th: Thread, tag: Tag)
    requires Tallied(s) && t < |s.threads|
    requires s'.threads == s.threads[t := th] && s'.cells == s.cells
    requires In(th, tag) + Want(s, tag) == In(s.threads[t], tag) + Want(s', tag)
    ensures Sum(s'.threads, tag) + SumCells(s'.cells, tag) == Want(s', tag)
  {
    hide In, Want;
    SumUpdate(s.threads, t, th, tag);
    assert Sum(s.threads, tag) + SumCells(s.cells, tag) == Want(s, tag);
  }

  // ---------------------------------------------------------------
  // every step keeps the invariant
  // ---------------------------------------------------------------

  /** Threads that did not move stay well placed, as long as the cells they
      use keep their values. */
  lemma OthersOk(s: State, s': State, t: nat, th: Thread)
    requires Inv(s) && t < |s.threads| && s'.threads == s.threads[t := th] && PcOk(s', th)
    requires forall u :: 0 <= u < |s.threads| && u != t && !s.threads[u].pc.Idle? && Inside(s.threads[u].pc, s.threads[u].pc.c) ==>
      SameVal(s, s', s.threads[u].pc.c)
    ensures forall u :: 0 <= u < |s'.threads| ==> PcOk(s', s'.threads[u])
  {
    hide Tallied;
    forall u | 0 <= u < |s'.threads| ensures PcOk(s', s'.threads[u]) {
      if u != t {
        assert PcOk(s, s.threads[u]);
        assert s'.threads[u] == s.threads[u];
      }
    }
  }

  ghost predicate SameVal(s: State, s': State, c: nat) {
    Live(s, c) ==> Live(s', c) && s'.cells[c].val == s.cells[c].val
  }

  lemma {:induction false} SumWitness(ths: seq<Thread>, tag: Tag) returns (t: nat)
    requires Sum(ths, tag) > 0
    ensures t < |ths| && In(ths[t], tag) > 0
  {
    hide In;
    var n := |ths| - 1;
    if In(ths[n], tag) > 0 {
      t := n;
    } else {
      t := SumWitness(ths[..n], tag);
    }
  }

  lemma {:induction false} NoLocksInCells(cells: seq<Cell>, tag: Tag)
    requires tag.Lock? || tag.Release?
    ensures SumCells(cells, tag) == 0
  {
    if cells != [] {
      NoLocksInCells(cells[..|cells| - 1], tag);
    }
  }

  /** A locked cell has somebody inside, who holds a handle on it. */
  lemma LockedInUse(s: State, c: nat) returns (t: nat)
    requires Inv(s) && Live(s, c) && s.cells[c].locked
    ensures t < |s.threads| && Inside(s.threads[t].pc, c) && s.cells[c].count > 0
  {
    NoLocksInCells(s.cells, Lock(c));
    NothingElse(s, c);
    t := SumWitness(s.threads, Lock(c));
    InsideOnly(s.threads[t], c);
    assert PcOk(s, s.threads[t]);
    HandleLive(s, t, c);
  }

  lemma NothingElse(s: State, c: nat)
    requires Tallied(s)
    ensures Sum(s.threads, Lock(c)) + SumCells(s.cells, Lock(c)) == Want(s, Lock(c))
  {
  }

  lemma {:induction false} NoLockVals(vs: seq<Val>, tag: Tag)
    requires tag.Lock? || tag.Release?
    ensures InVals(vs, tag) == 0
  {
    if vs != [] {
      NoLockVals(vs[1..], tag);
    }
  }

  lemma {:induction false} NoLockTasks(ks: seq<Task>, c: nat)
    ensures InTasks(ks, Lock(c)) == 0
  {
    if ks != [] {
      NoLockTasks(ks[1..], c);
    }
  }

  lemma InsideOnly(th: Thread, c: nat)
    ensures In(th, Lock(c)) == B(Inside(th.pc, c))
  {
    NoLockVals(th.vals, Lock(c));
    NoLockTasks(th.todo, c);
  }

  // ----- get and set

  /** Taking the lock, and the steps inside the section that touch no count. */
  lemma MoveInside(s: State, s': State, t: nat, pc: Pc, cell: Cell)
    requires Inv(s) && t < |s.threads| && !s.threads[t].pc.Idle? && Live(s, s.threads[t].pc.c)
    requires var c := s.threads[t].pc.c; s' == WithCell(WithThread(s, t, s.threads[t].(pc := pc)), c, cell)
    requires !pc.Idle? && pc.c == s.threads[t].pc.c && cell.Cell? && cell.count == s.cells[pc.c].count
    requires forall tag: Tag :: InPc(pc, tag) + InCell(cell, tag) + Want(s, tag) == InPc(s.threads[t].pc, tag) + InCell(s.cells[pc.c], tag) + Want(s', tag)
    requires PcOk(s', s.threads[t].(pc := pc))
    requires cell.val == s.cells[pc.c].val || Inside(s.threads[t].pc, pc.c)
    ensures Inv(s')
  {
    var th := s.threads[t].(pc := pc);
    forall tag: Tag ensures Sum(s'.threads, tag) + SumCells(s'.cells, tag) == Want(s', tag) {
      hide Sum, SumCells, InPc, InCell, Want;
      TallyUpdate(s, s', t, th, pc.c, cell, tag);
    }
    forall u | 0 <= u < |s.threads| && u != t && !s.threads[u].pc.Idle? && Inside(s.threads[u].pc, s.threads[u].pc.c)
      ensures SameVal(s, s', s.threads[u].pc.c)
    {
      if s.threads[u].pc.c == pc.c && cell.val != s.cells[pc.c].val {
        MutualExclusion(s, t, u, pc.c);
      }
    }
    OthersOk(s, s', t, th);
  }

  /** Taking the lock. */
  lemma AcquireInv(s: State, t: nat)
    requires Inv(s) && t < |s.threads| && (s.threads[t].pc.GetSpin? || s.threads[t].pc.SetSpin?)
    requires Live(s, s.threads[t].pc.c)
    ensures RunOp(s, t).Some? && Inv(RunOp(s, t).value)
  {
    hide Tallied, Sum, SumCells, InVal, InVals, InTasks;
    var th := s.threads[t];
    var c := th.pc.c;
    assert PcOk(s, th);
    if !s.cells[c].locked {
      MoveInside(s, RunOp(s, t).value, t, if th.pc.GetSpin? then GetLocked(c) else SetLocked(c, th.pc.new_), s.cells[c].(locked := true));
    }
  }

  /** Reading the cell's value under the lock. */
  lemma ReadInv(s: State, t: nat)
    requires Inv(s) && t < |s.threads| && (s.threads[t].pc.GetLocked? || s.threads[t].pc.SetLocked?)
    requires Live(s, s.threads[t].pc.c)
    ensures RunOp(s, t).Some? && Inv(RunOp(s, t).value)
  {
    hide Tallied, Sum, SumCells, InVal, InVals, InTasks;
    var th := s.threads[t];
    var c := th.pc.c;
    var cell := s.cells[c];
    assert PcOk(s, th);
    assert s.cells[c := cell] == s.cells;
    MoveInside(s, RunOp(s, t).value, t, if th.pc.GetLocked? then GetCloning(c, cell.val, 0) else SetSaved(c, th.pc.new_, cell.val), cell);
  }

  /** Storing over the saved value: the two change places. */
  lemma StoreInv(s: State, t: nat)
    requires Inv(s) && t < |s.threads| && s.threads[t].pc.SetSaved? && Live(s, s.threads[t].pc.c)
    requires s.cells[s.threads[t].pc.c].count > 0
    ensures RunOp(s, t).Some? && Inv(RunOp(s, t).value)
  {
    hide Tallied, Sum, SumCells, InVals, InTasks;
    var th := s.threads[t];
    var c := th.pc.c;
    assert PcOk(s, th);
    MoveInside(s, RunOp(s, t).value, t, SetStored(c, th.pc.old_), s.cells[c].(val := th.pc.new_));
  }

  lemma OpInv(s: State, t: nat)
    requires Inv(s) && t < |s.threads| && !s.threads[t].pc.Idle?
    ensures RunOp(s, t).Some? && Inv(RunOp(s, t).value)
  {
    UserLive(s, t);
    hide Inv, Live, PcOk;
    match s.threads[t].pc
    case GetSpin(_) => AcquireInv(s, t);
    case SetSpin(_, _) => AcquireInv(s, t);
    case GetLocked(_) => ReadInv(s, t);
    case SetLocked(_, _) => ReadInv(s, t);
    case SetSaved(_, _, _) => StoreInv(s, t);
    case GetCloning(_, copy, done) =>
      if done < |copy.parts| {
        CloneStepInv(s, t);
      } else {
        GetUnlockInv(s, t);
      }
    case SetStored(_, _) => SetUnlockInv(s, t);
  }

  /** A thread in the middle of `get` or `set` keeps its cell alive. */
  lemma UserLive(s: State, t: nat)
    requires Inv(s) && t < |s.threads| && !s.threads[t].pc.Idle?
    ensures Live(s, s.threads[t].pc.c) && s.cells[s.threads[t].pc.c].count > 0
    ensures s.threads[t].pc.GetCloning? ==> s.threads[t].pc.done <= |s.threads[t].pc.copy.parts|
  {
    hide Tallied, InPc, InVals, InTasks;
    assert PcOk(s, s.threads[t]);
    HandleLive(s, t, s.threads[t].pc.c);
  }

  /** The thread inside is the one the lock word speaks of. */
  lemma InsideLocked(s: State, t: nat, c: nat)
    requires Inv(s) && t < |s.threads| && Inside(s.threads[t].pc, c) && Live(s, c)
    ensures s.cells[c].locked
  {
    hide Sum, SumCells;
    InsideOnly(s.threads[t], c);
    SumAt(s.threads, t, Lock(c));
    NothingElse(s, c);
  }

  lemma SetUnlockInv(s: State, t: nat)
    requires Inv(s) && t < |s.threads| && s.threads[t].pc.SetStored? && Live(s, s.threads[t].pc.c)
    ensures RunOp(s, t).Some? && Inv(RunOp(s, t).value)
  {
    hide Sum, SumCells;
    var th := s.threads[t];
    var c := th.pc.c;
    var v := th.pc.old_;
    assert PcOk(s, th);
    InsideLocked(s, t, c);
    var th' := th.(pc := Idle, todo := [DropVal(v)]);
    var cell' := s.cells[c].(locked := false);
    var s' := RunOp(s, t).value;
    forall tag: Tag ensures Sum(s'.threads, tag) + SumCells(s'.cells, tag) == Want(s', tag) {
      InTasksCons(DropVal(v), [], tag);
      assert [DropVal(v)] + [] == [DropVal(v)];
      TallyUpdate(s, s', t, th', c, cell', tag);
    }
    OthersOk(s, s', t, th');
  }

  lemma GetUnlockInv(s: State, t: nat)
    requires Inv(s) && t < |s.threads| && s.threads[t].pc.GetCloning? && Live(s, s.threads[t].pc.c)
    requires s.threads[t].pc.done == |s.threads[t].pc.copy.parts|
    ensures RunOp(s, t).Some? && Inv(RunOp(s, t).value)
  {
    hide Sum, SumCells;
    var th := s.threads[t];
    var c := th.pc.c;
    var copy := th.pc.copy;
    assert PcOk(s, th);
    InsideLocked(s, t, c);
    var v := Val(s.nextId, copy.payload, copy.parts);
    var th' := th.(pc := Idle, vals := [v] + th.vals);
    var cell' := s.cells[c].(locked := false);
    var s' := RunOp(s, t).value;
    assert copy.parts[..th.pc.done] == copy.parts;
    NeverDroppedEarly(s, s.nextId);
    forall tag: Tag ensures Sum(s'.threads, tag) + SumCells(s'.cells, tag) == Want(s', tag) {
      InValsCons(v, th.vals, tag);
      TallyUpdate(s, s', t, th', c, cell', tag);
    }
    OthersOk(s, s', t, th');
  }

  /** Identities that have not been given out have not been dropped. */
  lemma NeverDroppedEarly(s: State, id: nat)
    requires Tallied(s)
    ensures s.dropped[id] <= B(id < s.nextId)
  {
    assert Sum(s.threads, Value(id)) + SumCells(s.cells, Value(id)) == Want(s, Value(id));
  }

  lemma CopiedMore(c: nat, copy: Val, done: nat, tag: Tag)
    requires done < |copy.parts|
    ensures InPc(GetCloning(c, copy, done + 1), tag) == InPc(GetCloning(c, copy, done), tag) + B(tag == Handle(copy.parts[done]))
  {
    assert copy.parts[..done + 1] == copy.parts[..done] + [copy.parts[done]];
  }

  lemma CountUp(s: State, s': State, p: nat, tag: Tag)
    requires Live(s, p) && s.cells[p].count > 0
    requires s'.cells == s.cells[p := s.cells[p].(count := s.cells[p].count + 1)] && s'.nextId == s.nextId && s'.dropped == s.dropped
    ensures Want(s', tag) == Want(s, tag) + B(tag == Handle(p))
    ensures InCell(s'.cells[p], tag) == InCell(s.cells[p], tag)
  {
  }

  /** While the clone glue runs, the parts of the copy are kept alive by the
      cell, which cannot change under the lock. */
  lemma CloneStepInv(s: State, t: nat)
    requires Inv(s) && t < |s.threads| && s.threads[t].pc.GetCloning? && Live(s, s.threads[t].pc.c)
    requires s.threads[t].pc.done < |s.threads[t].pc.copy.parts| && s.cells[s.threads[t].pc.c].count > 0
    ensures RunOp(s, t).Some? && Inv(RunOp(s, t).value)
  {
    hide Sum, SumCells;
    var th := s.threads[t];
    var c, copy, done := th.pc.c, th.pc.copy, th.pc.done;
    var p := copy.parts[done];
    assert PcOk(s, th);
    assert p in multiset(copy.parts);
    SumCellsAt(s.cells, c, Handle(p));
    assert InCell(s.cells[c], Handle(p)) > 0;
    assert Sum(s.threads, Handle(p)) + SumCells(s.cells, Handle(p)) == Want(s, Handle(p));
    var pc' := GetCloning(c, copy, done + 1);
    var th' := th.(pc := pc');
    var cell' := s.cells[p].(count := s.cells[p].count + 1);
    var s' := RunOp(s, t).value;
    forall tag: Tag ensures In(th', tag) + InCell(cell', tag) + Want(s, tag) == In(th, tag) + InCell(s.cells[p], tag) + Want(s', tag) {
      hide Tallied, InVals, InTasks, InPc, InCell;
      CopiedMore(c, copy, done, tag);
      CountUp(s, s', p, tag);
    }
    hide Tallied, In, InCell, Want;
    KeepCell(s, s', t, th', p, cell');
  }

  // ----- drop glue

  /** A step of an idle thread that changes no cell. */
  lemma KeepThread(s: State, s': State, t: nat, th: Thread)
    requires Inv(s) && t < |s.threads| && th.pc.Idle?
    requires s'.threads == s.threads[t := th] && s'.cells == s.cells
    requires forall tag: Tag :: In(th, tag) + Want(s, tag) == In(s.threads[t], tag) + Want(s', tag)
    ensures Inv(s')
  {
    forall tag: Tag ensures Sum(s'.threads, tag) + SumCells(s'.cells, tag) == Want(s', tag) {
      hide In, Want, Sum, SumCells;
      TallyThread(s, s', t, th, tag);
    }
    hide Tallied, In, Want;
    OthersOk(s, s', t, th);
  }

  /** A step that changes one cell, and not under another thread's lock. */
  lemma KeepCell(s: State, s': State, t: nat, th: Thread, c: nat, cell: Cell)
    requires Inv(s) && t < |s.threads| && c < |s.cells| && PcOk(s', th)
    requires s'.threads == s.threads[t := th] && s'.cells == s.cells[c := cell]
    requires forall tag: Tag :: In(th, tag) + InCell(cell, tag) + Want(s, tag) == In(s.threads[t], tag) + InCell(s.cells[c], tag) + Want(s', tag)
    requires SameVal(s, s', c) || forall u :: 0 <= u < |s.threads| ==> !Inside(s.threads[u].pc, c)
    ensures Inv(s')
  {
    forall tag: Tag ensures Sum(s'.threads, tag) + SumCells(s'.cells, tag) == Want(s', tag) {
      hide In, InCell, Want, Sum, SumCells;
      TallyUpdate(s, s', t, th, c, cell, tag);
    }
    hide Tallied, In, InCell, Want;
    OthersOk(s, s', t, th);
  }

  lemma DropValInv(s: State, t: nat)
    requires Inv(s) && t < |s.threads| && s.threads[t].pc.Idle? && s.threads[t].todo != [] && s.threads[t].todo[0].DropVal?
    ensures RunTask(s, t).Some? && Inv(RunTask(s, t).value)
  {
    hide Tallied, InPc, InVals;
    var th := s.threads[t];
    var v, rest := th.todo[0].v, th.todo[1..];
    var th' := th.(todo := [DropParts(v.parts)] + rest);
    var s' := RunTask(s, t).value;
    forall tag: Tag ensures In(th', tag) + Want(s, tag) == In(th, tag) + Want(s', tag) {
      InTasksCons(DropParts(v.parts), rest, tag);
    }
    hide In, Want, InTask, InTasks;
    KeepThread(s, s', t, th');
  }

  lemma DropDoneInv(s: State, t: nat)
    requires Inv(s) && t < |s.threads| && s.threads[t].pc.Idle? && s.threads[t].todo != [] && s.threads[t].todo[0] == DropParts([])
    ensures RunTask(s, t).Some? && Inv(RunTask(s, t).value)
  {
    hide Tallied, InPc, InVals, Want;
    var th := s.threads[t];
    var th' := th.(todo := th.todo[1..]);
    var s' := RunTask(s, t).value;
    forall tag: Tag ensures In(th', tag) + Want(s, tag) == In(th, tag) + Want(s', tag) {
      assert Want(s, tag) == Want(s', tag) by { SameWant(s, s', tag); }
    }
    KeepThread(s, s', t, th');
  }

  lemma SameWant(s: State, s': State, tag: Tag)
    requires s'.cells == s.cells && s'.nextId == s.nextId && s'.dropped == s.dropped
    ensures Want(s, tag) == Want(s', tag)
  {
  }

  /** A pending release means a live cell with no handles and nobody inside. */
  lemma ReleasePending(s: State, t: nat, c: nat)
    requires Inv(s) && t < |s.threads| && In(s.threads[t], Release(c)) > 0
    ensures Live(s, c) && s.cells[c].count == 0 && !s.cells[c].locked
    ensures forall u :: 0 <= u < |s.threads| ==> !Inside(s.threads[u].pc, c)
  {
    hide In, Sum, SumCells;
    SumAt(s.threads, t, Release(c));
    assert Sum(s.threads, Release(c)) + SumCells(s.cells, Release(c)) == Want(s, Release(c));
    if s.cells[c].locked {
      var u := LockedInUse(s, c);
    }
    forall u | 0 <= u < |s.threads| ensures !Inside(s.threads[u].pc, c) {
      if Inside(s.threads[u].pc, c) {
        InsideLocked(s, u, c);
      }
    }
  }

  lemma FreeInv(s: State, t: nat)
    requires Inv(s) && t < |s.threads| && s.threads[t].pc.Idle? && s.threads[t].todo != [] && s.threads[t].todo[0].Free?
    ensures RunTask(s, t).Some? && Inv(RunTask(s, t).value)
  {
    hide Tallied, InPc, InVals;
    var th := s.threads[t];
    var c := th.todo[0].cell;
    assert InTask(th.todo[0], Release(c)) == 1;
    ReleasePending(s, t, c);
    var th' := th.(todo := th.todo[1..]);
    var s' := RunTask(s, t).value;
    forall tag: Tag ensures In(th', tag) + InCell(Released, tag) + Want(s, tag) == In(th, tag) + InCell(s.cells[c], tag) + Want(s', tag) {
    }
    hide In, Want, InTask, InTasks, InCell;
    KeepCell(s, s', t, th', c, Released);
  }

  /** The work a thread has after it dropped one handle on `c`. */
  function AfterDrop(c: nat, cell: Cell, more: seq<Task>): seq<Task>
    requires cell.Cell?
  {
    if cell.count == 1 then [DropVal(cell.val), Free(c)] + more else more
  }

  lemma AfterDropIn(c: nat, cell: Cell, more: seq<Task>, tag: Tag)
    requires cell.Cell? && cell.count > 0
    ensures InTasks(AfterDrop(c, cell, more), tag) + InCell(cell.(count := cell.count - 1), tag)
            == InTasks(more, tag) + InCell(cell, tag) + B(tag == Release(c) && cell.count == 1)
  {
    if cell.count == 1 {
      assert AfterDrop(c, cell, more) == [DropVal(cell.val)] + ([Free(c)] + more);
      InTasksCons(DropVal(cell.val), [Free(c)] + more, tag);
      InTasksCons(Free(c), more, tag);
    }
  }

  lemma DropPartInv(s: State, t: nat)
    requires Inv(s) && t < |s.threads| && s.threads[t].pc.Idle? && s.threads[t].todo != []
    requires s.threads[t].todo[0].DropParts? && s.threads[t].todo[0].parts != []
    ensures RunTask(s, t).Some? && Inv(RunTask(s, t).value)
  {
    hide Tallied, InPc, InVals;
    var th := s.threads[t];
    var parts, rest := th.todo[0].parts, th.todo[1..];
    var c := parts[0];
    assert c in multiset(parts);
    HandleLive(s, t, c);
    var cell := s.cells[c];
    var more := [DropParts(parts[1..])] + rest;
    var th' := th.(todo := AfterDrop(c, cell, more));
    var cell' := cell.(count := cell.count - 1);
    var s' := RunTask(s, t).value;
    forall tag: Tag ensures In(th', tag) + InCell(cell', tag) + Want(s, tag) == In(th, tag) + InCell(cell, tag) + Want(s', tag) {
      InTasksCons(DropParts(parts[1..]), rest, tag);
      AfterDropIn(c, cell, more, tag);
      if tag.Handle? {
        PartsCons(parts, tag.c);
      }
      hide InTasks, InCell, AfterDrop;
    }
    hide In, Want, InTask, InTasks, InCell;
    KeepCell(s, s', t, th', c, cell');
  }

  lemma TaskInv(s: State, t: nat)
    requires Inv(s) && t < |s.threads| && s.threads[t].pc.Idle? && s.threads[t].todo != []
    ensures RunTask(s, t).Some? && Inv(RunTask(s, t).value)
  {
    hide Inv, RunTask;
    match s.threads[t].todo[0]
    case DropVal(_) => DropValInv(s, t);
    case Free(_) => FreeInv(s, t);
    case DropParts(parts) =>
      if parts == [] {
        DropDoneInv(s, t);
      } else {
        DropPartInv(s, t);
      }
  }

  // ----- between operations

  lemma MakeInv(s: State, t: nat, payload: int, parts: seq<nat>)
    requires Inv(s) && t < |s.threads| && s.threads[t].pc.Idle? && s.threads[t].todo == []
    requires Start(s, t, Make(payload, parts)).Some?
    ensures Inv(Start(s, t, Make(payload, parts)).value)
  {
    var s' := Start(s, t, Make(payload, parts)).value;
    var th, v := s.threads[t], Val(s.nextId, payload, parts);
    var th' := th.(handles := th.handles - multiset(parts), vals := [v] + th.vals);
    NeverDroppedEarly(s, s.nextId);
    hide Tallied, InPc;
    forall tag: Tag ensures In(th', tag) + Want(s, tag) == In(th, tag) + Want(s', tag) {
      InValsCons(v, th.vals, tag);
    }
    hide In, Want;
    KeepThread(s, s', t, th');
  }

  lemma RotateInv(s: State, t: nat)
    requires Inv(s) && t < |s.threads| && s.threads[t].pc.Idle? && s.threads[t].todo == []
    requires Start(s, t, Rotate).Some?
    ensures Inv(Start(s, t, Rotate).value)
  {
    hide Tallied, InPc, InTasks, InVal;
    var s' := Start(s, t, Rotate).value;
    var th := s.threads[t];
    var v, vs := th.vals[0], th.vals[1..];
    var th' := th.(vals := vs + [v]);
    forall tag: Tag ensures In(th', tag) + Want(s, tag) == In(th, tag) + Want(s', tag) {
      InValsConcat(vs, [v], tag);
      InValsCons(v, [], tag);
      assert [v] + [] == [v];
      SameWant(s, s', tag);
    }
    hide In, Want;
    KeepThread(s, s', t, th');
  }

  lemma SumCellsPush(cells: seq<Cell>, cell: Cell, tag: Tag)
    ensures SumCells(cells + [cell], tag) == SumCells(cells, tag) + InCell(cell, tag)
  {
    assert (cells + [cell])[..|cells|] == cells;
  }

  /** A new cell: its value leaves the thread, which gets the one handle. */
  lemma NewIn(s: State, s': State, t: nat, th: Thread, tag: Tag)
    requires t < |s.threads| && s.threads[t].vals != []
    requires th == s.threads[t].(handles := s.threads[t].handles + multiset{|s.cells|}, vals := s.threads[t].vals[1..])
    requires s'.cells == s.cells + [Cell(1, false, s.threads[t].vals[0])] && s'.nextId == s.nextId && s'.dropped == s.dropped
    ensures In(s.threads[t], tag) + Want(s', tag) == In(th, tag) + InCell(Cell(1, false, s.threads[t].vals[0]), tag) + Want(s, tag)
  {
    hide InPc, InTasks;
    assert forall c: nat :: c < |s.cells| ==> CellAt(s', c) == CellAt(s, c);
  }

  lemma NewInv(s: State, t: nat)
    requires Inv(s) && t < |s.threads| && s.threads[t].pc.Idle? && s.threads[t].todo == []
    requires Start(s, t, New).Some?
    ensures Inv(Start(s, t, New).value)
  {
    var s' := Start(s, t, New).value;
    var th, n := s.threads[t], |s.cells|;
    var cell := Cell(1, false, th.vals[0]);
    var th' := th.(handles := th.handles + multiset{n}, vals := th.vals[1..]);
    forall tag: Tag ensures Sum(s'.threads, tag) + SumCells(s'.cells, tag) == Want(s', tag) {
      assert Sum(s.threads, tag) + SumCells(s.cells, tag) == Want(s, tag);
      hide Sum, SumCells, In, InCell, Want, Tallied;
      SumUpdate(s.threads, t, th', tag);
      SumCellsPush(s.cells, cell, tag);
      NewIn(s, s', t, th', tag);
    }
    hide Tallied, In, InCell, Want;
    OthersOk(s, s', t, th');
  }

  lemma CloneInv(s: State, t: nat, c: nat)
    requires Inv(s) && t < |s.threads| && s.threads[t].pc.Idle? && s.threads[t].todo == []
    requires c in s.threads[t].handles
    ensures Start(s, t, Clone(c)).Some? && Inv(Start(s, t, Clone(c)).value)
  {
    hide Tallied, InPc, InVals, InTasks;
    HandleLive(s, t, c);
    var s' := Start(s, t, Clone(c)).value;
    var th := s.threads[t];
    var th' := th.(handles := th.handles + multiset{c});
    var cell' := s.cells[c].(count := s.cells[c].count + 1);
    forall tag: Tag ensures In(th', tag) + InCell(cell', tag) + Want(s, tag) == In(th, tag) + InCell(s.cells[c], tag) + Want(s', tag) {
      hide InVal;
    }
    hide In, InCell, Want;
    KeepCell(s, s', t, th', c, cell');
  }

  lemma HandleMoved(a: Thread, b: Thread, c: nat, tag: Tag)
    requires c in a.handles
    ensures In(a.(handles := a.handles - multiset{c}), tag) + In(b.(handles := b.handles + multiset{c}), tag) == In(a, tag) + In(b, tag)
  {
    hide InPc, InVals, InTasks;
  }

  lemma GiveInv(s: State, t: nat, c: nat, to: nat)
    requires Inv(s) && t < |s.threads| && s.threads[t].pc.Idle? && s.threads[t].todo == []
    requires Start(s, t, Give(c, to)).Some?
    ensures Inv(Start(s, t, Give(c, to)).value)
  {
    var s' := Start(s, t, Give(c, to)).value;
    var th, other := s.threads[t], s.threads[to];
    var th' := th.(handles := th.handles - multiset{c});
    var other' := other.(handles := other.handles + multiset{c});
    forall tag: Tag ensures Sum(s'.threads, tag) + SumCells(s'.cells, tag) == Want(s', tag) {
      assert Sum(s.threads, tag) + SumCells(s.cells, tag) == Want(s, tag);
      SameWant(s, s', tag);
      HandleMoved(th, other, c, tag);
      hide Sum, SumCells, In, Tallied, Want;
      SumUpdate(s.threads, t, th', tag);
      SumUpdate(s.threads[t := th'], to, other', tag);
    }
    hide Tallied, In, Want;
    forall u | 0 <= u < |s'.threads| ensures PcOk(s', s'.threads[u]) {
      assert PcOk(s, s.threads[u]);
    }
  }

  lemma DropHandleInv(s: State, t: nat, c: nat)
    requires Inv(s) && t < |s.threads| && s.threads[t].pc.Idle? && s.threads[t].todo == []
    requires Start(s, t, DropHandle(c)).Some?
    ensures Inv(Start(s, t, DropHandle(c)).value)
  {
    hide Tallied, InPc, InVals;
    var s' := Start(s, t, DropHandle(c)).value;
    var th := s.threads[t];
    var th' := th.(handles := th.handles - multiset{c}, todo := [DropParts([c])]);
    forall tag: Tag ensures In(th', tag) + Want(s, tag) == In(th, tag) + Want(s', tag) {
      InTasksCons(DropParts([c]), [], tag);
      assert [DropParts([c])] + [] == [DropParts([c])];
      SameWant(s, s', tag);
    }
    hide In, Want;
    KeepThread(s, s', t, th');
  }

  lemma DropHeldInv(s: State, t: nat)
    requires Inv(s) && t < |s.threads| && s.threads[t].pc.Idle? && s.threads[t].todo == []
    requires Start(s, t, DropHeld).Some?
    ensures Inv(Start(s, t, DropHeld).value)
  {
    hide Tallied, InPc, InVal;
    var s' := Start(s, t, DropHeld).value;
    var th := s.threads[t];
    var v := th.vals[0];
    var th' := th.(vals := th.vals[1..], todo := [DropVal(v)]);
    forall tag: Tag ensures In(th', tag) + Want(s, tag) == In(th, tag) + Want(s', tag) {
      InTasksCons(DropVal(v), [], tag);
      assert [DropVal(v)] + [] == [DropVal(v)];
      SameWant(s, s', tag);
    }
    hide In, Want;
    KeepThread(s, s', t, th');
  }

  lemma BeginInv(s: State, s': State, t: nat, th': Thread)
    requires Inv(s) && t < |s.threads| && s.threads[t].pc.Idle? && s.threads[t].todo == []
    requires s' == WithThread(s, t, th') && (th'.pc.GetSpin? || th'.pc.SetSpin?) && th'.pc.c in s.threads[t].handles
    requires th'.pc.GetSpin? ==> th' == s.threads[t].(pc := th'.pc)
    requires th'.pc.SetSpin? ==>
      s.threads[t].vals != [] && th'.pc.new_ == s.threads[t].vals[0] && th' == s.threads[t].(pc := th'.pc, vals := s.threads[t].vals[1..])
    ensures Inv(s')
  {
    var th := s.threads[t];
    forall tag: Tag ensures Sum(s'.threads, tag) + SumCells(s'.cells, tag) == Want(s', tag) {
      SameWant(s, s', tag);
      hide Want, InTasks, Sum, SumCells;
      assert tag.Lock? ==> InVals(th.vals, tag) == InVals(th'.vals, tag) by {
        if tag.Lock? {
          NoLockVals(th.vals, tag);
          NoLockVals(th'.vals, tag);
        }
      }
      TallyThread(s, s', t, th', tag);
    }
    assert Tallied(s');
    hide Tallied;
    OthersOk(s, s', t, th');
  }

  lemma StartInv(s: State, t: nat, a: Action)
    requires Inv(s) && t < |s.threads| && s.threads[t].pc.Idle? && s.threads[t].todo == []
    requires Start(s, t, a).Some?
    ensures Inv(Start(s, t, a).value)
  {
    hide Inv;
    match a
    case Make(payload, parts) => MakeInv(s, t, payload, parts);
    case Rotate => RotateInv(s, t);
    case New => NewInv(s, t);
    case Clone(c) => CloneInv(s, t, c);
    case Give(c, to) => GiveInv(s, t, c, to);
    case DropHandle(c) => DropHandleInv(s, t, c);
    case DropHeld => DropHeldInv(s, t);
    case BeginGet(c) => BeginInv(s, Start(s, t, a).value, t, s.threads[t].(pc := GetSpin(c)));
    case BeginSet(c) =>
      BeginInv(s, Start(s, t, a).value, t, s.threads[t].(pc := SetSpin(c, s.threads[t].vals[0]), vals := s.threads[t].vals[1..]));
  }

  /** Whatever a thread does next, the invariant holds afterwards. */
  lemma StepInv(s: State, t: nat, a: Action)
    requires Inv(s) && Step(s, t, a).Some?
    ensures Inv(Step(s, t, a).value)
  {
    hide Inv;
    if !s.threads[t].pc.Idle? {
      OpInv(s, t);
    } else if s.threads[t].todo != [] {
      TaskInv(s, t);
    } else {
      StartInv(s, t, a);
    }
  }
}
