/** What the shared-cell protocol guarantees over whole runs: any number of
    threads, any interleaving, any length. */
module CellRuns {
  import opened CellProtocol

  /** Thread `t` takes a step; `a` says what it does if it is between operations. */
  datatype Event = Event(t: nat, a: Action)

  ghost predicate Initial(s: State) {
    && s.cells == [] && s.nextId == 0 && s.dropped == multiset{}
    && forall t :: 0 <= t < |s.threads| ==> s.threads[t] == Thread(Idle, multiset{}, [], [])
  }

  function Run(s: State, events: seq<Event>): Option<State>
    decreases |events|
  {
    if events == [] then Some(s)
    else match Step(s, events[0].t, events[0].a)
      case None => None
      case Some(s') => Run(s', events[1..])
  }

  ghost predicate Reachable(s: State) {
    exists start: State, events: seq<Event> :: Initial(start) && Run(start, events) == Some(s)
  }

  // ---------------------------------------------------------------
  // the invariant in every reachable state
  // ---------------------------------------------------------------

  lemma {:induction false} EmptyTally(ths: seq<Thread>, tag: Tag)
    requires forall t :: 0 <= t < |ths| ==> In(ths[t], tag) == 0
    ensures Sum(ths, tag) == 0
  {
    hide In;
    if ths != [] {
      EmptyTally(ths[..|ths| - 1], tag);
    }
  }

  lemma InitialInv(s: State)
    requires Initial(s)
    ensures Inv(s)
  {
    forall tag: Tag ensures Sum(s.threads, tag) + SumCells(s.cells, tag) == Want(s, tag) {
      EmptyTally(s.threads, tag);
    }
  }

  lemma {:induction false} RunInv(s: State, events: seq<Event>)
    requires Inv(s) && Run(s, events).Some?
    ensures Inv(Run(s, events).value)
    decreases |events|
  {
    hide Inv, Step;
    if events != [] {
      StepInv(s, events[0].t, events[0].a);
      RunInv(Step(s, events[0].t, events[0].a).value, events[1..]);
    }
  }

  /** The invariant holds in every reachable state, and at most one thread is
      between lock and unlock of any one cell. */
  lemma ReachableInv(s: State)
    requires Reachable(s)
    ensures Inv(s)
    ensures forall t: nat, u: nat, c: nat :: t < |s.threads| && u < |s.threads| && Inside(s.threads[t].pc, c) && Inside(s.threads[u].pc, c) ==> t == u
  {
    var start: State, events: seq<Event> :| Initial(start) && Run(start, events) == Some(s);
    InitialInv(start);
    RunInv(start, events);
    forall t: nat, u: nat, c: nat | t < |s.threads| && u < |s.threads| && Inside(s.threads[t].pc, c) && Inside(s.threads[u].pc, c)
      ensures t == u
    {
      MutualExclusion(s, t, u, c);
    }
  }

  // ---------------------------------------------------------------
  // counts and releases
  // ---------------------------------------------------------------

  /** Handles on `c` anywhere: owned by a thread, inside a value a thread has,
      in drop work a thread still has to do, or inside a value in a cell. */
  function Handles(s: State, c: nat): nat {
    Sum(s.threads, Handle(c)) + SumCells(s.cells, Handle(c))
  }

  /** The stored count is the number of handles; a cell that is gone has none,
      and one without handles is about to be released by exactly one thread. */
  lemma CountIsHandles(s: State, c: nat)
    requires Reachable(s)
    ensures Live(s, c) ==> s.cells[c].count == Handles(s, c)
    ensures !Live(s, c) ==> Handles(s, c) == 0
    ensures Sum(s.threads, Release(c)) == B(Live(s, c) && Handles(s, c) == 0)
    ensures forall t :: 0 <= t < |s.threads| && !s.threads[t].pc.Idle? && s.threads[t].pc.c == c ==> Live(s, c) && Handles(s, c) > 0
  {
    ReachableInv(s);
    hide Sum, SumCells;
    assert Sum(s.threads, Handle(c)) + SumCells(s.cells, Handle(c)) == Want(s, Handle(c));
    assert Sum(s.threads, Release(c)) + SumCells(s.cells, Release(c)) == Want(s, Release(c));
    NoLocksInCells(s.cells, Release(c));
    forall t | 0 <= t < |s.threads| && !s.threads[t].pc.Idle? && s.threads[t].pc.c == c ensures Live(s, c) && Handles(s, c) > 0 {
      UserLive(s, t);
    }
  }

  /** Once it has begun an operation, a thread can always take its next step:
      no step ever needs a cell that was released. */
  lemma NeverStuck(s: State, t: nat, a: Action)
    requires Reachable(s) && t < |s.threads| && (!s.threads[t].pc.Idle? || s.threads[t].todo != [])
    ensures Step(s, t, a).Some?
  {
    ReachableInv(s);
    hide Inv;
    if !s.threads[t].pc.Idle? {
      OpInv(s, t);
    } else {
      TaskInv(s, t);
    }
  }

  /** What one step of `t` may do to one cell. */
  ghost predicate Allowed(s: State, s': State, t: nat, c: nat)
    requires c < |s.cells| && c < |s'.cells| && t < |s.threads| && t < |s'.threads|
  {
    var a, b := s.cells[c], s'.cells[c];
    && (a.Released? ==> b.Released?)
    && (a.Cell? && b.Released? ==> a.count == 0 && s.threads[t].pc.Idle? && s.threads[t].todo != [] && s.threads[t].todo[0] == Free(c))
    && (a.Cell? && b.Cell? && a.val != b.val ==> s.threads[t].pc == SetSaved(c, b.val, a.val) && s'.threads[t].pc == SetStored(c, a.val))
    && (a.Cell? && b.Cell? && a.count == 0 ==> b.count == 0)
    && (a.Cell? && b.Cell? && a.count > 0 && b.count == 0 ==>
          a.count == 1 && b.val == a.val && |s'.threads[t].todo| >= 2 && s'.threads[t].todo[..2] == [DropVal(a.val), Free(c)])
  }

  lemma OpAllowed(s: State, t: nat, c: nat)
    requires Inv(s) && t < |s.threads| && !s.threads[t].pc.Idle? && RunOp(s, t).Some? && c < |s.cells|
    ensures c < |RunOp(s, t).value.cells| && t < |RunOp(s, t).value.threads| && Allowed(s, RunOp(s, t).value, t, c)
  {
    hide Tallied;
    UserLive(s, t);
    assert PcOk(s, s.threads[t]);
    var pc := s.threads[t].pc;
    if pc.GetCloning? && pc.done < |pc.copy.parts| {
      PartLive(s, t);
    }
  }

  /** The clone glue reaches only cells somebody holds. */
  lemma PartLive(s: State, t: nat)
    requires Inv(s) && t < |s.threads| && s.threads[t].pc.GetCloning? && s.threads[t].pc.done < |s.threads[t].pc.copy.parts|
    ensures var p := s.threads[t].pc.copy.parts[s.threads[t].pc.done]; Live(s, p) && s.cells[p].count > 0
  {
    hide Sum, SumCells;
    UserLive(s, t);
    var pc := s.threads[t].pc;
    var p := pc.copy.parts[pc.done];
    assert PcOk(s, s.threads[t]);
    assert p in multiset(pc.copy.parts);
    SumCellsAt(s.cells, pc.c, Handle(p));
    assert Sum(s.threads, Handle(p)) + SumCells(s.cells, Handle(p)) == Want(s, Handle(p));
  }

  lemma TaskAllowed(s: State, t: nat, c: nat)
    requires Inv(s) && t < |s.threads| && s.threads[t].pc.Idle? && s.threads[t].todo != [] && RunTask(s, t).Some? && c < |s.cells|
    ensures c < |RunTask(s, t).value.cells| && t < |RunTask(s, t).value.threads| && Allowed(s, RunTask(s, t).value, t, c)
  {
    hide Tallied, InPc, InVals;
    var k := s.threads[t].todo[0];
    if k == Free(c) {
      assert InTask(k, Release(c)) == 1;
      ReleasePending(s, t, c);
    }
  }

  lemma StartAllowed(s: State, t: nat, a: Action, c: nat)
    requires Inv(s) && t < |s.threads| && s.threads[t].pc.Idle? && s.threads[t].todo == [] && Start(s, t, a).Some? && c < |s.cells|
    ensures c < |Start(s, t, a).value.cells| && t < |Start(s, t, a).value.threads| && Allowed(s, Start(s, t, a).value, t, c)
  {
    hide Tallied, InPc, InVals, InTasks;
    if a.Clone? {
      HandleLive(s, t, a.c);
    }
  }

  /** A step releases a cell only if its count is 0, never brings one back and
      never raises a count from 0; it changes a cell's value only in the locked
      section of `set`, and the thread that takes the last handle away is the
      one that drops the value and releases the cell. */
  lemma StepAllowed(s: State, t: nat, a: Action, c: nat)
    requires Inv(s) && Step(s, t, a).Some? && c < |s.cells|
    ensures |Step(s, t, a).value.threads| == |s.threads| > t
    ensures c < |Step(s, t, a).value.cells| && Allowed(s, Step(s, t, a).value, t, c)
  {
    hide Inv, Allowed;
    if !s.threads[t].pc.Idle? {
      OpAllowed(s, t, c);
    } else if s.threads[t].todo != [] {
      TaskAllowed(s, t, c);
    } else {
      StartAllowed(s, t, a, c);
    }
  }

  /** A released cell stays released, and a cell without handles gets none. */
  lemma {:induction false} ReleasedForGood(s: State, events: seq<Event>, c: nat)
    requires Inv(s) && Run(s, events).Some? && c < |s.cells|
    ensures c < |Run(s, events).value.cells|
    ensures s.cells[c].Released? ==> Run(s, events).value.cells[c].Released?
    ensures !Live(s, c) || s.cells[c].count == 0 ==> var s' := Run(s, events).value; !Live(s', c) || s'.cells[c].count == 0
    decreases |events|
  {
    hide Inv, Step;
    if events != [] {
      var s1 := Step(s, events[0].t, events[0].a).value;
      StepAllowed(s, events[0].t, events[0].a, c);
      StepInv(s, events[0].t, events[0].a);
      ReleasedForGood(s1, events[1..], c);
    }
  }

  // ---------------------------------------------------------------
  // values
  // ---------------------------------------------------------------

  /** Places where the value with identity `id` is: with a thread, in the drop
      work of one, or in a cell. */
  function PlacesOf(s: State, id: nat): nat {
    Sum(s.threads, Value(id)) + SumCells(s.cells, Value(id))
  }

  /** Every value made so far is in exactly one place or was dropped, once. */
  lemma DroppedOnce(s: State, id: nat)
    requires Reachable(s)
    ensures PlacesOf(s, id) + s.dropped[id] == B(id < s.nextId)
  {
    ReachableInv(s);
    assert Sum(s.threads, Value(id)) + SumCells(s.cells, Value(id)) == Want(s, Value(id));
  }

  /** A value leaves a cell in two ways only, and the thread that makes it leave
      is the one that has to drop it: the `set` that stored over it, or the
      drop of the last handle. */
  lemma WhoDrops(s: State, t: nat, a: Action, c: nat)
    requires Inv(s) && Step(s, t, a).Some? && Live(s, c) && s.cells[c].count > 0
    ensures var s' := Step(s, t, a).value;
      && Live(s', c)
      && (s'.cells[c].val != s.cells[c].val ==>
            s'.threads[t].pc == SetStored(c, s.cells[c].val) && s'.cells[c].count > 0)
      && (s'.cells[c].count == 0 ==>
            |s'.threads[t].todo| >= 2 && s'.threads[t].todo[..2] == [DropVal(s.cells[c].val), Free(c)])
  {
    StepAllowed(s, t, a, c);
  }

  /** A cell below one of higher rank, when values may hold handles on cells. */
  ghost predicate Ranked(s: State, rank: nat -> nat) {
    forall c, p :: 0 <= c < |s.cells| && s.cells[c].Cell? && p in s.cells[c].val.parts ==> rank(p) < rank(c)
  }

  ghost predicate AllDone(s: State) {
    forall t :: 0 <= t < |s.threads| ==> s.threads[t] == Thread(Idle, multiset{}, [], [])
  }

  lemma {:induction false} CellWitness(cells: seq<Cell>, tag: Tag) returns (c: nat)
    requires SumCells(cells, tag) > 0
    ensures c < |cells| && InCell(cells[c], tag) > 0
  {
    hide InCell;
    var n := |cells| - 1;
    if InCell(cells[n], tag) > 0 {
      c := n;
    } else {
      c := CellWitness(cells[..n], tag);
    }
  }

  function MaxRank(n: nat, rank: nat -> nat): (m: nat)
    ensures forall c: nat :: c < n ==> rank(c) <= m
  {
    if n == 0 then 0
    else
      var m := MaxRank(n - 1, rank);
      if rank(n - 1) > m then rank(n - 1) else m
  }

  lemma {:induction false} HeldFromAbove(s: State, rank: nat -> nat, c: nat)
    requires Inv(s) && AllDone(s) && Ranked(s, rank) && Live(s, c)
    ensures s.cells[c].count == 0
    decreases MaxRank(|s.cells|, rank) - rank(c)
  {
    if s.cells[c].count > 0 {
      EmptyTally(s.threads, Handle(c));
      assert Sum(s.threads, Handle(c)) + SumCells(s.cells, Handle(c)) == Want(s, Handle(c));
      var above := CellWitness(s.cells, Handle(c));
      assert InVal(s.cells[above].val, Handle(c)) > 0;
      HeldFromAbove(s, rank, above);
    }
  }

  /** Unless cells hold handles on each other in a cycle, nothing is left when
      every thread has let go of everything: all cells were released and every
      value was dropped exactly once. */
  lemma NothingLeft(s: State, rank: nat -> nat)
    requires Reachable(s) && AllDone(s) && Ranked(s, rank)
    ensures forall c :: 0 <= c < |s.cells| ==> s.cells[c].Released?
    ensures forall id: nat :: id < s.nextId ==> s.dropped[id] == 1
  {
    ReachableInv(s);
    forall c | 0 <= c < |s.cells| ensures s.cells[c].Released? {
      assert Sum(s.threads, Release(c)) + SumCells(s.cells, Release(c)) == Want(s, Release(c));
      EmptyTally(s.threads, Release(c));
      NoLocksInCells(s.cells, Release(c));
      if s.cells[c].Cell? {
        HeldFromAbove(s, rank, c);
      }
    }
    forall id: nat | id < s.nextId ensures s.dropped[id] == 1 {
      EmptyTally(s.threads, Value(id));
      AllReleased(s.cells, Value(id));
      DroppedOnce(s, id);
    }
  }

  lemma {:induction false} AllReleased(cells: seq<Cell>, tag: Tag)
    requires forall c :: 0 <= c < |cells| ==> cells[c].Released?
    ensures SumCells(cells, tag) == 0
  {
    if cells != [] {
      AllReleased(cells[..|cells| - 1], tag);
    }
  }

  // ---------------------------------------------------------------
  // get and set are atomic
  // ---------------------------------------------------------------

  /** The value a `get` returns says what the cell says when it unlocks, is a
      value of its own, and was not taken from something already dropped. */
  lemma GetReturnsCurrent(s: State, t: nat, a: Action)
    requires Reachable(s) && t < |s.threads| && s.threads[t].pc.GetCloning?
    requires Step(s, t, a).Some? && Step(s, t, a).value.threads[t].pc.Idle?
    ensures var s', c := Step(s, t, a).value, s.threads[t].pc.c;
      && Live(s, c) && s.dropped[s.cells[c].val.id] == 0 && PlacesOf(s, s.cells[c].val.id) == 1
      && Live(s', c) && s'.cells[c].val == s.cells[c].val && !s'.cells[c].locked
      && s'.threads[t].vals != []
      && s'.threads[t].vals[0].payload == s.cells[c].val.payload && s'.threads[t].vals[0].parts == s.cells[c].val.parts
      && PlacesOf(s, s'.threads[t].vals[0].id) == 0 && s.dropped[s'.threads[t].vals[0].id] == 0
  {
    ReachableInv(s);
    var c := s.threads[t].pc.c;
    UserLive(s, t);
    assert PcOk(s, s.threads[t]);
    var id := s.cells[c].val.id;
    hide Sum, SumCells;
    assert InCell(s.cells[c], Value(id)) == 1;
    SumCellsAt(s.cells, c, Value(id));
    DroppedOnce(s, id);
    DroppedOnce(s, s.nextId);
  }

  lemma OpKeepsOthers(s: State, u: nat, t: nat)
    requires u < |s.threads| && t < |s.threads| && t != u && !s.threads[u].pc.Idle? && RunOp(s, u).Some?
    ensures var s' := RunOp(s, u).value; t < |s'.threads| && s'.threads[t].pc == s.threads[t].pc
  {
  }

  /** While `t` is inside, no step of another thread moves it or changes the
      cell's value. */
  lemma OtherKeeps(s: State, u: nat, a: Action, t: nat)
    requires Inv(s) && t < |s.threads| && t != u && Step(s, u, a).Some? && !s.threads[t].pc.Idle?
    requires Inside(s.threads[t].pc, s.threads[t].pc.c)
    ensures var s', c := Step(s, u, a).value, s.threads[t].pc.c;
      && t < |s'.threads| && s'.threads[t].pc == s.threads[t].pc
      && Live(s, c) && Live(s', c) && s'.cells[c].val == s.cells[c].val
  {
    hide Tallied;
    var c := s.threads[t].pc.c;
    UserLive(s, t);
    StepAllowed(s, u, a, c);
    if Inside(s.threads[u].pc, c) {
      MutualExclusion(s, t, u, c);
    }
    hide Inv, Allowed;
    if !s.threads[u].pc.Idle? {
      OpKeepsOthers(s, u, t);
    }
  }

  /** Steps a thread inside a locked section still needs to unlock. */
  function Left(s: State, t: nat): nat
    requires t < |s.threads|
  {
    match s.threads[t].pc
    case GetLocked(c) => (if Live(s, c) then |s.cells[c].val.parts| else 0) + 2
    case GetCloning(_, copy, done) => (if done <= |copy.parts| then |copy.parts| - done else 0) + 1
    case SetLocked(_, _) => 3
    case SetSaved(_, _, _) => 2
    case SetStored(_, _) => 1
    case _ => 0
  }

  /** The thread inside needs no other thread: each of its steps brings it one
      nearer to the unlock, and the last one unlocks. */
  lemma HolderSteps(s: State, t: nat, a: Action)
    requires Inv(s) && t < |s.threads| && !s.threads[t].pc.Idle? && Inside(s.threads[t].pc, s.threads[t].pc.c)
    ensures Step(s, t, a).Some?
    ensures var s', c := Step(s, t, a).value, s.threads[t].pc.c;
      && t < |s'.threads|
      && if Left(s, t) == 1 then s'.threads[t].pc.Idle? && Live(s', c) && !s'.cells[c].locked
         else !s'.threads[t].pc.Idle? && s'.threads[t].pc.c == c && Inside(s'.threads[t].pc, c) && Left(s', t) == Left(s, t) - 1
  {
    OpInv(s, t);
    UserLive(s, t);
    hide Tallied;
    assert PcOk(s, s.threads[t]);
  }

  function StepsOf(events: seq<Event>, t: nat): nat {
    if events == [] then 0 else B(events[0].t == t) + StepsOf(events[1..], t)
  }

  /** No lock is held for ever: however the other threads are scheduled, among
      any events that give the thread inside as many steps as it has left, the
      cell is unlocked. A spinning thread therefore never waits for a thread that
      waits itself. */
  lemma {:induction false} HolderUnlocks(s: State, events: seq<Event>, t: nat) returns (k: nat, now: State)
    requires Inv(s) && t < |s.threads| && !s.threads[t].pc.Idle? && Inside(s.threads[t].pc, s.threads[t].pc.c)
    requires Run(s, events).Some? && StepsOf(events, t) >= Left(s, t)
    ensures k <= |events| && Run(s, events[..k]) == Some(now)
    ensures t < |now.threads| && now.threads[t].pc.Idle?
    ensures Live(now, s.threads[t].pc.c) && !now.cells[s.threads[t].pc.c].locked
    decreases |events|
  {
    hide Inv, Step;
    var e := events[0];
    var s1 := Step(s, e.t, e.a).value;
    StepInv(s, e.t, e.a);
    if e.t == t {
      HolderSteps(s, t, e.a);
    } else {
      OtherKeeps(s, e.t, e.a, t);
    }
    if e.t == t && Left(s, t) == 1 {
      k, now := 1, s1;
      assert events[..1][0] == e && events[..1][1..] == [];
      assert Run(s1, []) == Some(s1);
    } else {
      k, now := HolderUnlocks(s1, events[1..], t);
      k := k + 1;
      assert events[..k][1..] == events[1..][..k - 1];
      assert events[..k][0] == e;
    }
  }

  /** A thread that finds a cell locked waits for another thread, which is not
      itself waiting; one that finds it unlocked gets in at once. */
  lemma SpinnerWaitsForWorker(s: State, t: nat, a: Action) returns (u: nat)
    requires Reachable(s) && t < |s.threads| && (s.threads[t].pc.GetSpin? || s.threads[t].pc.SetSpin?)
    ensures Step(s, t, a).Some? && Live(s, s.threads[t].pc.c)
    ensures s.cells[s.threads[t].pc.c].locked ==>
      && u < |s.threads| && u != t && Inside(s.threads[u].pc, s.threads[t].pc.c) && Left(s, u) > 0
      && Step(s, u, a).Some?
    ensures !s.cells[s.threads[t].pc.c].locked ==>
      t < |Step(s, t, a).value.threads| && Inside(Step(s, t, a).value.threads[t].pc, s.threads[t].pc.c)
  {
    ReachableInv(s);
    UserLive(s, t);
    NeverStuck(s, t, a);
    u := t;
    hide Inv;
    if s.cells[s.threads[t].pc.c].locked {
      u := LockedInUse(s, s.threads[t].pc.c);
      HolderSteps(s, u, a);
    }
  }
}
