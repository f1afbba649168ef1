/** What cells and threads say: a value keeps its payload and its parts from when
    it is made until it is dropped, wherever it goes, and a cell holds what was put
    into it. */
module CellValues {
  import opened CellProtocol
  import opened CellRuns

  // ---------------------------------------------------------------
  // where a value is
  // ---------------------------------------------------------------

  /** The value a thread in `set` has in its hands. */
  predicate Carries(pc: Pc, v: Val) {
    match pc
    case SetSpin(_, w) => w == v
    case SetLocked(_, w) => w == v
    case SetSaved(_, w, _) => w == v
    case SetStored(_, w) => w == v
    case _ => false
  }

  predicate With(th: Thread, v: Val) {
    v in th.vals || DropVal(v) in th.todo || Carries(th.pc, v)
  }

  /** A cell, a thread or its drop work has the value. */
  ghost predicate Occurs(s: State, v: Val) {
    || (exists c :: 0 <= c < |s.cells| && s.cells[c].Cell? && s.cells[c].count > 0 && s.cells[c].val == v)
    || (exists t :: 0 <= t < |s.threads| && With(s.threads[t], v))
  }

  lemma {:induction false} ValsCount(vs: seq<Val>, v: Val)
    ensures v in vs ==> InVals(vs, Value(v.id)) >= 1
  {
    if vs != [] {
      ValsCount(vs[1..], v);
    }
  }

  lemma {:induction false} TasksCount(ks: seq<Task>, v: Val)
    ensures DropVal(v) in ks ==> InTasks(ks, Value(v.id)) >= 1
  {
    if ks != [] {
      TasksCount(ks[1..], v);
    }
  }

  lemma {:induction false} OneOfVals(vs: seq<Val>, v: Val, w: Val)
    requires v in vs && w in vs && v.id == w.id && InVals(vs, Value(v.id)) <= 1
    ensures v == w
  {
    ValsCount(vs[1..], v);
    ValsCount(vs[1..], w);
    if v in vs[1..] && w in vs[1..] {
      OneOfVals(vs[1..], v, w);
    }
  }

  lemma {:induction false} OneOfTasks(ks: seq<Task>, v: Val, w: Val)
    requires DropVal(v) in ks && DropVal(w) in ks && v.id == w.id && InTasks(ks, Value(v.id)) <= 1
    ensures v == w
  {
    TasksCount(ks[1..], v);
    TasksCount(ks[1..], w);
    if DropVal(v) in ks[1..] && DropVal(w) in ks[1..] {
      OneOfTasks(ks[1..], v, w);
    }
  }

  lemma WithCount(th: Thread, v: Val)
    requires With(th, v)
    ensures In(th, Value(v.id)) >= 1
  {
    ValsCount(th.vals, v);
    TasksCount(th.todo, v);
  }

  lemma OneWith(th: Thread, v: Val, w: Val)
    requires With(th, v) && With(th, w) && v.id == w.id && In(th, Value(v.id)) <= 1
    ensures v == w
  {
    ValsCount(th.vals, v);
    ValsCount(th.vals, w);
    TasksCount(th.todo, v);
    TasksCount(th.todo, w);
    hide InVals, InTasks;
    if v in th.vals && w in th.vals {
      OneOfVals(th.vals, v, w);
    } else if DropVal(v) in th.todo && DropVal(w) in th.todo {
      OneOfTasks(th.todo, v, w);
    }
  }

  lemma {:induction false} SumCellsTwo(cells: seq<Cell>, c: nat, d: nat, tag: Tag)
    requires c < d < |cells|
    ensures InCell(cells[c], tag) + InCell(cells[d], tag) <= SumCells(cells, tag)
  {
    hide InCell;
    var n := |cells| - 1;
    if d < n {
      SumCellsTwo(cells[..n], c, d, tag);
    } else {
      SumCellsAt(cells[..n], c, tag);
    }
  }

  /** Nothing has two values of one identity. */
  lemma SameIdentity(s: State, v: Val, w: Val)
    requires Inv(s) && Occurs(s, v) && Occurs(s, w) && v.id == w.id
    ensures v == w && v.id < s.nextId
  {
    var tag := Value(v.id);
    hide Sum, SumCells, With, In, Carries;
    assert Sum(s.threads, tag) + SumCells(s.cells, tag) == Want(s, tag);
    if c :| 0 <= c < |s.cells| && s.cells[c].Cell? && s.cells[c].count > 0 && s.cells[c].val == v {
      SumCellsAt(s.cells, c, tag);
      if d :| 0 <= d < |s.cells| && s.cells[d].Cell? && s.cells[d].count > 0 && s.cells[d].val == w {
        if c < d {
          SumCellsTwo(s.cells, c, d, tag);
        } else if d < c {
          SumCellsTwo(s.cells, d, c, tag);
        }
      } else {
        var u :| 0 <= u < |s.threads| && With(s.threads[u], w);
        WithCount(s.threads[u], w);
        SumAt(s.threads, u, tag);
      }
    } else {
      var t :| 0 <= t < |s.threads| && With(s.threads[t], v);
      WithCount(s.threads[t], v);
      SumAt(s.threads, t, tag);
      if d :| 0 <= d < |s.cells| && s.cells[d].Cell? && s.cells[d].count > 0 && s.cells[d].val == w {
        SumCellsAt(s.cells, d, tag);
      } else {
        var u :| 0 <= u < |s.threads| && With(s.threads[u], w);
        WithCount(s.threads[u], w);
        if t < u {
          SumTwo(s.threads, t, u, tag);
        } else if u < t {
          SumTwo(s.threads, u, t, tag);
        } else {
          OneWith(s.threads[t], v, w);
        }
      }
    }
  }

  // ---------------------------------------------------------------
  // one step
  // ---------------------------------------------------------------

  /** A value that a step makes: as asked, or as the cell it was cloned from. */
  ghost predicate Made(s: State, t: nat, a: Action, v: Val)
    requires t < |s.threads|
  {
    var pc := s.threads[t].pc;
    && v.id == s.nextId
    && if pc.GetCloning? then Live(s, pc.c) && v.payload == s.cells[pc.c].val.payload && v.parts == s.cells[pc.c].val.parts
       else pc.Idle? && a == Make(v.payload, v.parts)
  }

  lemma WithIn(s: State, t: nat, v: Val)
    requires t < |s.threads| && With(s.threads[t], v)
    ensures Occurs(s, v)
  {
  }

  lemma CellIn(s: State, c: nat)
    requires Live(s, c) && s.cells[c].count > 0
    ensures Occurs(s, s.cells[c].val)
  {
  }

  /** What is in a place after a step was somewhere before it, or the step made it. */
  lemma OpOccurs(s: State, t: nat, a: Action, v: Val)
    requires Inv(s) && t < |s.threads| && !s.threads[t].pc.Idle? && RunOp(s, t).Some? && Occurs(RunOp(s, t).value, v)
    ensures Occurs(s, v) || Made(s, t, a, v)
  {
    var s' := RunOp(s, t).value;
    UserLive(s, t);
    assert PcOk(s, s.threads[t]);
    hide Tallied;
    if c :| 0 <= c < |s'.cells| && s'.cells[c].Cell? && s'.cells[c].count > 0 && s'.cells[c].val == v {
      if s.threads[t].pc.SetSaved? && c == s.threads[t].pc.c {
        WithIn(s, t, v);
      } else {
        var pc := s.threads[t].pc;
        if pc.GetCloning? && pc.done < |pc.copy.parts| {
          PartLive(s, t);
        }
        CellIn(s, c);
      }
    } else {
      var u :| 0 <= u < |s'.threads| && With(s'.threads[u], v);
      if u != t {
        WithIn(s, u, v);
      } else if s.threads[t].pc.SetSaved? && v == s.threads[t].pc.old_ {
        CellIn(s, s.threads[t].pc.c);
      } else if s.threads[t].pc.GetCloning? && v !in s.threads[t].vals {
        assert s'.threads[t].pc.Idle? && v == s'.threads[t].vals[0];
      } else {
        assert With(s.threads[t], v);
      }
    }
  }

  lemma TaskOccurs(s: State, t: nat, v: Val)
    requires Inv(s) && t < |s.threads| && s.threads[t].pc.Idle? && s.threads[t].todo != [] && RunTask(s, t).Some? && Occurs(RunTask(s, t).value, v)
    ensures Occurs(s, v)
  {
    var s', todo := RunTask(s, t).value, s.threads[t].todo;
    hide Inv;
    if c :| 0 <= c < |s'.cells| && s'.cells[c].Cell? && s'.cells[c].count > 0 && s'.cells[c].val == v {
      CellIn(s, c);
    } else {
      var u :| 0 <= u < |s'.threads| && With(s'.threads[u], v);
      if u != t || With(s.threads[t], v) {
        WithIn(s, u, v);
      } else {
        assert forall k :: k in todo[1..] ==> k in todo;
        assert todo[0].DropParts? && todo[0].parts != [] && v == s.cells[todo[0].parts[0]].val;
        CellIn(s, todo[0].parts[0]);
      }
    }
  }

  lemma StartWith(s: State, t: nat, a: Action, u: nat, v: Val)
    requires t < |s.threads| && s.threads[t].pc.Idle? && s.threads[t].todo == [] && Start(s, t, a).Some?
    requires u < |Start(s, t, a).value.threads| && With(Start(s, t, a).value.threads[u], v)
    ensures u < |s.threads| && (With(s.threads[u], v) || Made(s, t, a, v))
  {
    var th := s.threads[t];
    if u == t && th.vals != [] {
      assert th.vals == [th.vals[0]] + th.vals[1..];
    }
  }

  lemma StartCell(s: State, t: nat, a: Action, c: nat)
    requires t < |s.threads| && s.threads[t].pc.Idle? && s.threads[t].todo == [] && Start(s, t, a).Some?
    requires a.Clone? ==> Live(s, a.c) && s.cells[a.c].count > 0
    requires var s' := Start(s, t, a).value; Live(s', c) && s'.cells[c].count > 0
    ensures var v := Start(s, t, a).value.cells[c].val;
      if c < |s.cells| then Live(s, c) && s.cells[c].count > 0 && s.cells[c].val == v else v in s.threads[t].vals
  {
  }

  lemma StartOccurs(s: State, t: nat, a: Action, v: Val)
    requires Inv(s) && t < |s.threads| && s.threads[t].pc.Idle? && s.threads[t].todo == [] && Start(s, t, a).Some? && Occurs(Start(s, t, a).value, v)
    ensures Occurs(s, v) || Made(s, t, a, v)
  {
    var s' := Start(s, t, a).value;
    if a.Clone? {
      HandleLive(s, t, a.c);
    }
    hide Inv, Start, Made;
    if c :| 0 <= c < |s'.cells| && s'.cells[c].Cell? && s'.cells[c].count > 0 && s'.cells[c].val == v {
      StartCell(s, t, a, c);
      if c < |s.cells| {
        CellIn(s, c);
      } else {
        WithIn(s, t, v);
      }
    } else {
      var u :| 0 <= u < |s'.threads| && With(s'.threads[u], v);
      StartWith(s, t, a, u, v);
      if With(s.threads[u], v) {
        WithIn(s, u, v);
      }
    }
  }

  /** What is somewhere after a step was somewhere before it, the very same, or the
      step made it: as it was asked to, or as what the cell says that it clones. */
  lemma StepOccurs(s: State, t: nat, a: Action, v: Val)
    requires Inv(s) && Step(s, t, a).Some? && Occurs(Step(s, t, a).value, v)
    ensures t < |s.threads| && (Occurs(s, v) || Made(s, t, a, v))
  {
    hide Inv, Occurs, Made;
    if !s.threads[t].pc.Idle? {
      OpOccurs(s, t, a, v);
    } else if s.threads[t].todo != [] {
      TaskOccurs(s, t, v);
    } else {
      StartOccurs(s, t, a, v);
    }
  }

  // ---------------------------------------------------------------
  // whole runs
  // ---------------------------------------------------------------

  lemma StepIds(s: State, t: nat, a: Action)
    requires Step(s, t, a).Some?
    ensures s.nextId <= Step(s, t, a).value.nextId
  {
  }

  lemma {:induction false} CameFrom(s: State, events: seq<Event>, v: Val)
    requires Inv(s) && Run(s, events).Some? && Occurs(Run(s, events).value, v) && v.id < s.nextId
    ensures Occurs(s, v)
    decreases |events|
  {
    hide Inv, Occurs, Step;
    if events != [] {
      var e := events[0];
      StepInv(s, e.t, e.a);
      StepIds(s, e.t, e.a);
      CameFrom(Step(s, e.t, e.a).value, events[1..], v);
      StepOccurs(s, e.t, e.a, v);
    }
  }

  /** An identity keeps what it says and the handles it holds: whatever happens in
      between, a later value of the same identity is the very same value. */
  lemma SaidForGood(s: State, events: seq<Event>, v: Val, w: Val)
    requires Reachable(s) && Run(s, events).Some? && Occurs(s, v) && Occurs(Run(s, events).value, w) && w.id == v.id
    ensures w == v
  {
    ReachableInv(s);
    hide Inv, Occurs;
    SameIdentity(s, v, v);
    CameFrom(s, events, w);
    SameIdentity(s, v, w);
  }

  // ---------------------------------------------------------------
  // what a cell holds
  // ---------------------------------------------------------------

  /** A new cell holds the value it was made from, with one handle, and it is the
      maker's. */
  lemma NewHolds(s: State, t: nat)
    requires t < |s.threads| && s.threads[t].pc.Idle? && s.threads[t].todo == [] && Step(s, t, New).Some?
    ensures s.threads[t].vals != []
    ensures var s', c := Step(s, t, New).value, |s.cells|;
      && s'.cells == s.cells + [Cell(1, false, s.threads[t].vals[0])]
      && s'.threads[t].handles == s.threads[t].handles + multiset{c} && s'.threads[t].vals == s.threads[t].vals[1..]
  {
  }

  /** In the middle of storing `v` in `c`. */
  predicate Storing(s: State, t: nat, c: nat, v: Val) {
    && t < |s.threads|
    && match s.threads[t].pc
       case SetSpin(d, w) => d == c && w == v
       case SetLocked(d, w) => d == c && w == v
       case SetSaved(d, w, _) => d == c && w == v
       case SetStored(d, _) => d == c && Live(s, c) && s.cells[c].val == v
       case _ => false
  }

  /** Until `t` is between operations again, and then no further. */
  ghost predicate UntilIdle(s: State, events: seq<Event>, t: nat)
    decreases |events|
  {
    && events != []
    && Step(s, events[0].t, events[0].a).Some?
    && var s' := Step(s, events[0].t, events[0].a).value;
      t < |s'.threads| && if |events| == 1 then s'.threads[t].pc.Idle? else !s'.threads[t].pc.Idle? && UntilIdle(s', events[1..], t)
  }

  lemma StoringStep(s: State, u: nat, a: Action, t: nat, c: nat, v: Val)
    requires Inv(s) && Storing(s, t, c, v) && Step(s, u, a).Some?
    ensures var s' := Step(s, u, a).value;
      && t < |s'.threads|
      && if s'.threads[t].pc.Idle? then Live(s', c) && s'.cells[c].val == v && !s'.cells[c].locked else Storing(s', t, c, v)
  {
    if u == t {
      UserLive(s, t);
    } else if s.threads[t].pc.SetSpin? {
      hide Inv;
      StepPc(s, u, a, t);
    } else {
      OtherKeeps(s, u, a, t);
    }
  }

  lemma StepPc(s: State, u: nat, a: Action, t: nat)
    requires t < |s.threads| && u != t && Step(s, u, a).Some?
    ensures var s' := Step(s, u, a).value; t < |s'.threads| && s'.threads[t].pc == s.threads[t].pc
  {
  }

  lemma {:induction false} StoringRun(s: State, events: seq<Event>, t: nat, c: nat, v: Val)
    requires Inv(s) && Storing(s, t, c, v) && UntilIdle(s, events, t)
    ensures Run(s, events).Some?
    ensures var now := Run(s, events).value; Live(now, c) && now.cells[c].val == v && !now.cells[c].locked
    decreases |events|
  {
    hide Inv, Step, Storing;
    var e := events[0];
    var s' := Step(s, e.t, e.a).value;
    StoringStep(s, e.t, e.a, t, c, v);
    StepInv(s, e.t, e.a);
    if |events| == 1 {
      assert events[1..] == [];
      assert Run(s', []) == Some(s');
    } else {
      StoringRun(s', events[1..], t, c, v);
    }
  }

  /** `set`: however the other threads are scheduled meanwhile, when the thread that
      began to set `c` is done, the cell is unlocked and holds exactly the value the
      thread set it to. */
  lemma SetStores(s: State, t: nat, c: nat, events: seq<Event>)
    requires Reachable(s) && t < |s.threads| && s.threads[t].pc.Idle? && s.threads[t].todo == [] && Step(s, t, BeginSet(c)).Some?
    requires UntilIdle(Step(s, t, BeginSet(c)).value, events, t)
    ensures s.threads[t].vals != [] && Run(Step(s, t, BeginSet(c)).value, events).Some?
    ensures var now := Run(Step(s, t, BeginSet(c)).value, events).value;
      Live(now, c) && now.cells[c].val == s.threads[t].vals[0] && !now.cells[c].locked
  {
    ReachableInv(s);
    StepInv(s, t, BeginSet(c));
    hide Inv, UntilIdle;
    var s1 := Step(s, t, BeginSet(c)).value;
    assert Storing(s1, t, c, s.threads[t].vals[0]);
    hide Storing, Step;
    StoringRun(s1, events, t, c, s.threads[t].vals[0]);
  }
}
