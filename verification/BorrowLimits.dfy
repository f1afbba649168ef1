/** What a drop list says, the checker's whole-function result, and bodies
    outside the claims that show why the conditions are there. */
module MoveLimits {
  import opened Borrow
  import opened MoveSoundness
  import opened OwnershipChecker
  import PathAnalysis
  import MoveGaps
  import opened PathSoundness

  // ---------------------------------------------------------------
  // drop lists
  // ---------------------------------------------------------------

  /** A drop list has the live locals and nothing else, as often as declared. */
  lemma {:induction false} DueContents(order: seq<Local>, live: set<Local>, x: Local)
    ensures multiset(Due(order, live))[x] == if x in live then multiset(order)[x] else 0
  {
    if order != [] {
      var n := |order| - 1;
      DueContents(order[..n], live, x);
      assert order == order[..n] + [order[n]];
    }
  }

  /** With one declaration per local, every live local is listed exactly once. */
  lemma DueOnce(order: seq<Local>, live: set<Local>, x: Local)
    requires forall i, j :: 0 <= i < j < |order| ==> order[i] != order[j]
    requires live <= (set y | y in order)
    ensures multiset(Due(order, live))[x] == if x in live then 1 else 0
  {
    DueContents(order, live, x);
    OccursOnce(order, x);
  }

  lemma {:induction false} OccursOnce(order: seq<Local>, x: Local)
    requires forall i, j :: 0 <= i < j < |order| ==> order[i] != order[j]
    ensures multiset(order)[x] == if x in order then 1 else 0
  {
    if order != [] {
      var n := |order| - 1;
      OccursOnce(order[..n], x);
      assert order == order[..n] + [order[n]];
    }
  }

  /** What is listed later was declared earlier. */
  lemma {:induction false} DueReversed(order: seq<Local>, live: set<Local>, p: nat, q: nat) returns (i: nat, j: nat)
    requires p < q < |Due(order, live)|
    ensures j < i < |order| && Due(order, live)[p] == order[i] && Due(order, live)[q] == order[j]
  {
    var n := |order| - 1;
    var first := order[n] in live;
    if first && p == 0 {
      i := n;
      j := DuePlace(order[..n], live, q - 1);
    } else {
      var k := if first then 1 else 0;
      i, j := DueReversed(order[..n], live, p - k, q - k);
    }
  }

  lemma {:induction false} DuePlace(order: seq<Local>, live: set<Local>, p: nat) returns (i: nat)
    requires p < |Due(order, live)|
    ensures i < |order| && Due(order, live)[p] == order[i]
  {
    var n := |order| - 1;
    if order[n] in live {
      if p == 0 {
        i := n;
      } else {
        i := DuePlace(order[..n], live, p - 1);
      }
    } else {
      i := DuePlace(order[..n], live, p);
    }
  }

  // ---------------------------------------------------------------
  // a whole function
  // ---------------------------------------------------------------

  /** Checks a function body. If nothing is reported and the body is regular, no
      run of it uses a moved local, and its drop plan is exact. */
  method CheckFunction(params: seq<Local>, body: Expr) returns (accepted: bool, planned: Expr)
    ensures accepted <==> Accepted(body, params)
    ensures planned == Planned(body, params)
    ensures accepted && Regular(body, false, Params(params), false) ==>
      forall choices: seq<nat> :: !Exec(planned, false, false, choices, Start(params)).UsedMoved?
    ensures accepted && Regular(body, false, Params(params), true) ==>
      forall choices: seq<nat> ::
        var r := Exec(planned, false, true, choices, Start(params)); !r.UsedMoved? && !r.WrongDrops?
  {
    var reporter := new Reporter();
    var state := new OwnershipState(State([], true));
    state.PushScope();
    state.DefinePattern(params);
    planned := state.VisitExpr(body, false, reporter);
    accepted := reporter.errors == 0;
    hide Exec, Regular, Visit, VisitStmts, VisitArgs, VisitArms;
    if accepted {
      AcceptedRuns(body, params);
    }
  }

  lemma AcceptedRuns(body: Expr, params: seq<Local>)
    requires Accepted(body, params)
    ensures Regular(body, false, Params(params), false) ==>
      forall choices: seq<nat> :: !Exec(Planned(body, params), false, false, choices, Start(params)).UsedMoved?
    ensures Regular(body, false, Params(params), true) ==>
      forall choices: seq<nat> ::
        var r := Exec(Planned(body, params), false, true, choices, Start(params)); !r.UsedMoved? && !r.WrongDrops?
  {
    hide Accepted, Planned, Exec, Regular;
    forall choices: seq<nat> | Regular(body, false, Params(params), false)
      ensures !Exec(Planned(body, params), false, false, choices, Start(params)).UsedMoved?
    {
      MovesAreSound(body, params, choices);
    }
    forall choices: seq<nat> | Regular(body, false, Params(params), true)
      ensures var r := Exec(Planned(body, params), false, true, choices, Start(params)); !r.UsedMoved? && !r.WrongDrops?
    {
      DropPlanIsExact(body, params, choices);
    }
  }

  // ---------------------------------------------------------------
  // outside the claims
  // ---------------------------------------------------------------

  const Nop: Expr := Block(Tail(Lit), [])

  function Consume(x: Local): Expr {
    Apply(Arg(Var(x), true, NoArgs), false)
  }

  /** The scope of one local, as the analysis and as a run see it. */
  function Seen(x: Local, moved: bool, count: nat): State {
    State([Scope(map[x := Binding(moved, count)], [x])], true)
  }

  function Held(x: Local, gone: bool): seq<Scope<bool>> {
    [Scope(map[x := gone], [x])]
  }

  lemma ConsumeVisit(x: Local)
    requires !x.copy
    ensures Visit(Consume(x), false, Seen(x, false, 0)) == Out(Consume(x), Seen(x, true, 1), true)
  {
    var s := Seen(x, false, 0);
    assert Visit(Var(x), true, s) == Mention(x, true, s);
    assert s.scopes[0].vars[x := Binding(true, 1)] == map[x := Binding(true, 1)];
    assert VisitArgs(NoArgs, Seen(x, true, 1)) == Out(NoArgs, Seen(x, true, 1), true);
    assert VisitArgs(Arg(Var(x), true, NoArgs), s) == Out(Arg(Var(x), true, NoArgs), Seen(x, true, 1), true);
  }

  lemma ConsumeExec(x: Local, take: bool, strict: bool, choices: seq<nat>, gone: bool)
    requires !x.copy
    ensures Exec(Consume(x), take, strict, choices, Held(x, gone)) == if gone then UsedMoved else Next(Held(x, true), choices)
  {
    var c := Held(x, gone);
    assert Exec(Var(x), true, strict, choices, c) == Use(x, true, choices, c);
    assert c[0].vars[x := true] == map[x := true];
    assert Put(c, 0, x, true) == Held(x, true);
    assert ExecArgs(NoArgs, strict, choices, Held(x, true)) == Next(Held(x, true), choices);
    assert ExecArgs(Arg(Var(x), true, NoArgs), strict, choices, c) == if gone then UsedMoved else Next(Held(x, true), choices);
  }

  lemma NopVisit(take: bool, s: State)
    requires s.reachable
    ensures Visit(Nop, take, s) == Out(Nop, s, true)
  {
    var p := Push(s);
    assert Visit(Lit, take, p) == Out(Lit, p, true);
    assert VisitStmts(Tail(Lit), take, p) == Out(Tail(Lit), p, true);
    assert p.scopes[..|s.scopes|] == s.scopes;
    assert Due([], Live(Scope(map[], []))) == [];
  }

  lemma NopExec(take: bool, strict: bool, choices: seq<nat>, c: seq<Scope<bool>>)
    ensures Exec(Nop, take, strict, choices, c) == Next(c, choices)
  {
    var d := c + [Scope(map[], [])];
    assert Exec(Lit, take, strict, choices, d) == Next(d, choices);
    assert ExecStmts(Tail(Lit), take, strict, choices, d) == Next(d, choices);
    assert d[..|c|] == c;
    assert Due([], Owned(Scope(map[], []))) == [];
  }

  lemma OneParam(x: Local)
    ensures Params([x]) == Seen(x, false, 0) && Start([x]) == Held(x, false)
  {
    assert Define<Binding>([Scope(map[x := Fresh], [x])], [], Fresh) == [Scope(map[x := Fresh], [x])];
    assert Define<bool>([Scope(map[x := false], [x])], [], false) == [Scope(map[x := false], [x])];
    var a: seq<Scope<Binding>>, c: seq<Scope<bool>> := [Scope(map[], [])], [Scope(map[], [])];
    assert [x][1..] == [] && [] + [x] == [x];
    assert a[0 := Scope(map[x := Fresh], [x])] == [Scope(map[x := Fresh], [x])];
    assert c[0 := Scope(map[x := false], [x])] == [Scope(map[x := false], [x])];
  }

  /** A `while` condition is checked once: one that moves a local is accepted,
      and the second time round the local is gone. */
  lemma WhileConditionMoves(x: Local)
    requires !x.copy
    ensures var body := While(Consume(x), Nop);
      Accepted(body, [x]) && Exec(Planned(body, [x]), false, false, [1], Start([x])) == UsedMoved
  {
    var body := While(Consume(x), Nop);
    OneParam(x);
    ConsumeVisit(x);
    NopVisit(false, Seen(x, true, 1));
    assert Visit(body, false, Seen(x, false, 0)) == Out(body, Seen(x, true, 1), true);
    ConsumeExec(x, false, false, [1], false);
    assert [1][1..] == [];
    NopExec(false, false, [], Held(x, true));
    ConsumeExec(x, false, false, [], true);
    assert Exec(body, false, false, [], Held(x, true)) == UsedMoved;
  }

  /** Every arm is checked from the state before the first guard: a guard that
      moves a local and fails leaves it gone for the next arm. */
  lemma GuardMoves(x: Local)
    requires !x.copy
    ensures var body := Match(Lit, true, Arm([], Consume(x), Lit, Arm([], Lit, Consume(x), NoArms)));
      Accepted(body, [x]) && Exec(Planned(body, [x]), false, false, [1, 0, 1, 1], Start([x])) == UsedMoved
  {
    hide Exec, Visit;
    OneParam(x);
    GuardMovesVisit(x);
    GuardMovesExec(x);
  }

  lemma GuardMovesVisit(x: Local)
    requires !x.copy
    ensures var body := Match(Lit, true, Arm([], Consume(x), Lit, Arm([], Lit, Consume(x), NoArms)));
      Visit(body, false, Seen(x, false, 0)).ok && Visit(body, false, Seen(x, false, 0)).node == body
  {
    var second := Arm([], Lit, Consume(x), NoArms);
    var arms := Arm([], Consume(x), Lit, second);
    var body := Match(Lit, true, arms);
    var s, m := Seen(x, false, 0), Seen(x, true, 1);
    ConsumeInner(x);
    assert Visit(Lit, false, s) == Out(Lit, s, true) && Visit(Lit, false, Push(s)) == Out(Lit, Push(s), true);
    assert Visit(Lit, false, Push(m)) == Out(Lit, Push(m), true);
    assert Bound(s, []) == Push(s);
    assert Push(m).scopes[..1] == m.scopes;
    assert Pop(Push(m)) == m;
    assert VisitArms(NoArms, false, s) == (NoArms, [], true);
    assert [m] + [] == [m];
    assert VisitArms(second, false, s) == (second, [m], true);
    assert VisitArms(arms, false, s) == (arms, [m] + [m], true);
    assert Agree(s, [m] + [m]);
  }

  lemma GuardMovesExec(x: Local)
    requires !x.copy
    ensures var body := Match(Lit, true, Arm([], Consume(x), Lit, Arm([], Lit, Consume(x), NoArms)));
      Exec(body, false, false, [1, 0, 1, 1], Held(x, false)) == UsedMoved
  {
    var second := Arm([], Lit, Consume(x), NoArms);
    var arms := Arm([], Consume(x), Lit, second);
    var c, d := Held(x, false), Held(x, true);
    assert Exec(Lit, false, false, [1, 0, 1, 1], c) == Next(c, [1, 0, 1, 1]);
    assert Enter(c, []) == c + [Scope(map[], [])] && Enter(d, []) == d + [Scope(map[], [])];
    ConsumeInnerExec(x, [0, 1, 1], false);
    ConsumeInnerExec(x, [], true);
    assert [1, 0, 1, 1][1..] == [0, 1, 1] && [0, 1, 1][1..] == [1, 1] && [1, 1][1..] == [1] && [1][1..] == [];
    assert (d + [Scope(map[], [])])[..|c|] == d;
    assert Exec(Lit, false, false, [1], Enter(d, [])) == Next(Enter(d, []), [1]);
    assert ExecArms(second, false, false, [1, 1], d) == UsedMoved;
    assert ExecArms(arms, false, false, [1, 0, 1, 1], c) == UsedMoved;
  }

  lemma ConsumeInner(x: Local)
    requires !x.copy
    ensures Visit(Consume(x), false, Push(Seen(x, false, 0))) == Out(Consume(x), Push(Seen(x, true, 1)), true)
  {
    var s, m := Push(Seen(x, false, 0)), Push(Seen(x, true, 1));
    InnerFind(s.scopes, x);
    assert s.scopes[0].vars[x := Binding(true, 1)] == map[x := Binding(true, 1)];
    assert Put(s.scopes, 0, x, Binding(true, 1)) == m.scopes;
    assert Visit(Var(x), true, s) == Out(Var(x), m, true);
    assert VisitArgs(NoArgs, m) == Out(NoArgs, m, true);
    assert VisitArgs(Arg(Var(x), true, NoArgs), s) == Out(Arg(Var(x), true, NoArgs), m, true);
  }

  lemma InnerFind<T>(scopes: seq<Scope<T>>, x: Local)
    requires |scopes| == 2 && x in scopes[0].vars && x !in scopes[1].vars
    ensures Find(scopes, x) == Some(0)
  {
    assert scopes[..1][0] == scopes[0];
    assert Find(scopes[..1], x) == Some(0);
  }

  lemma ConsumeInnerExec(x: Local, choices: seq<nat>, gone: bool)
    requires !x.copy
    ensures Exec(Consume(x), false, false, choices, Held(x, gone) + [Scope(map[], [])])
            == if gone then UsedMoved else Next(Held(x, true) + [Scope(map[], [])], choices)
  {
    var c, d := Held(x, gone) + [Scope(map[], [])], Held(x, true) + [Scope(map[], [])];
    InnerFind(c, x);
    assert c[0].vars[x := true] == map[x := true];
    assert Put(c, 0, x, true) == d;
    assert Exec(Var(x), true, false, choices, c) == Use(x, true, choices, c);
    assert ExecArgs(NoArgs, false, choices, d) == Next(d, choices);
  }

  /** An arm that gives `x` a value on one of two ways through it. */
  function Refills(x: Local): Arms {
    Arm([], Lit, If(Lit, Assign(x, Lit), Lit), NoArms)
  }

  function MovesAndRefills(x: Local): Expr {
    Match(Lit, true, Arm([], Consume(x), Assign(x, Lit), Refills(x)))
  }

  /** What the checker reports of later arms, started from where a guard leaves
      things, is not the condition for guards: here it reports branches that
      disagree, although no run uses a moved local. */
  lemma DisagreementIsNoUse(x: Local)
    requires !x.copy
    ensures Accepted(MovesAndRefills(x), [x]) && !VisitArms(Refills(x), false, Seen(x, true, 1)).2
    ensures forall choices: seq<nat> :: !Exec(Planned(MovesAndRefills(x), [x]), false, false, choices, Start([x])).UsedMoved?
  {
    hide Exec, Visit, VisitArms;
    OneParam(x);
    RefillsVisit(x);
    RefillsDisagree(x);
    RefillsTrace(x);
    MoveGaps.MovesExactly(MovesAndRefills(x), [x]);
  }

  lemma AssignInner(x: Local, take: bool, moved: bool, count: nat)
    ensures Visit(Assign(x, Lit), take, Push(Seen(x, moved, count))) == Out(Assign(x, Lit), Push(Seen(x, false, count)), true)
  {
    var s, r := Push(Seen(x, moved, count)), Push(Seen(x, false, count));
    InnerFind(s.scopes, x);
    assert Visit(Lit, true, s) == Out(Lit, s, true);
    assert s.scopes[0].vars[x := Binding(false, count)] == map[x := Binding(false, count)];
    assert Put(s.scopes, 0, x, Binding(false, count)) == r.scopes;
  }

  /** Branches that change nothing merge to what was before. */
  lemma MergeSame(s: State)
    requires s.reachable
    ensures Merge(s, [s, s]) == s && Agree(s, [s, s])
  {
    var both := [s, s];
    assert s in both;
    assert both[1..] == [s] && [s][1..] == [];
    forall i, x | 0 <= i < |s.scopes| && x in s.scopes[i].vars
      ensures MergedBinding(s.scopes[i].vars[x], both, i, x) == s.scopes[i].vars[x] && (AllMoved(both, i, x) || NoneMoved(both, i, x))
    {
      assert MaxCount([], i, x) == 0;
      assert MaxCount([s], i, x) == CountIn(s, i, x);
      assert MaxCount(both, i, x) == CountIn(s, i, x);
      assert AllMoved(both, i, x) <==> MovedIn(s, i, x);
      assert NoneMoved(both, i, x) <==> !MovedIn(s, i, x);
    }
    forall i | 0 <= i < |s.scopes| ensures MergedScope(s.scopes[i], both, i) == s.scopes[i] {
      assert MergedScope(s.scopes[i], both, i).vars == s.scopes[i].vars;
    }
  }

  lemma RefillsVisit(x: Local)
    requires !x.copy
    ensures Visit(MovesAndRefills(x), false, Seen(x, false, 0)).ok && Visit(MovesAndRefills(x), false, Seen(x, false, 0)).node == MovesAndRefills(x)
  {
    var second := Refills(x);
    var arms := Arm([], Consume(x), Assign(x, Lit), second);
    var s, r := Seen(x, false, 0), Seen(x, false, 1);
    var p := Push(s);
    ConsumeInner(x);
    AssignInner(x, false, true, 1);
    AssignInner(x, false, false, 0);
    MergeSame(p);
    assert Visit(Lit, true, s) == Out(Lit, s, true) && Visit(Lit, false, s) == Out(Lit, s, true) && Visit(Lit, false, p) == Out(Lit, p, true);
    assert Bound(s, []) == p;
    assert Visit(second.body, false, p) == Out(second.body, p, true);
    assert Pop(p) == s && Pop(Push(r)) == r;
    assert VisitArms(NoArms, false, s) == (NoArms, [], true);
    assert [s] + [] == [s];
    assert VisitArms(second, false, s) == (second, [s], true);
    assert VisitArms(arms, false, s) == (arms, [r] + [s], true);
    assert forall b :: b in [r] + [s] ==> b == r || b == s;
    assert Agree(s, [r] + [s]);
  }

  lemma RefillsDisagree(x: Local)
    ensures !VisitArms(Refills(x), false, Seen(x, true, 1)).2
  {
    var arms, m := Refills(x), Seen(x, true, 1);
    var p, q := Push(m), Push(Seen(x, false, 1));
    AssignInner(x, false, true, 1);
    assert Bound(m, []) == p;
    assert Visit(Lit, false, p) == Out(Lit, p, true);
    assert p in [q, p] && q in [q, p];
    assert MovedIn(p, 0, x) && !MovedIn(q, 0, x);
    assert !AllMoved([q, p], 0, x) && !NoneMoved([q, p], 0, x);
    assert !Agree(p, [q, p]);
    assert !Visit(arms.body, false, p).ok;
  }

  lemma RefillsTrace(x: Local)
    requires !x.copy
    ensures PathAnalysis.Trace(MovesAndRefills(x), false, false, MoveGaps.Only(Held(x, false))).ok
  {
    var a := MoveGaps.Only(Held(x, false));
    var arms := Arm([], Consume(x), Assign(x, Lit), Refills(x));
    NotGoneInside(x);
    MatchTrace(arms, a);
    hide PathAnalysis.Trace, PathAnalysis.TraceArms, PathAnalysis.EnterPaths, PathAnalysis.Join, PathAnalysis.MayBeGone, PathAnalysis.Alike;
    var start := PathAnalysis.EnterPaths(a, []);
    ConsumeTrace(x, start);
    var g := PathAnalysis.Trace(Consume(x), false, false, start);
    AssignTrace(x, g.state);
    ShapeLength(start, g.state);
    RefillsFine(x, PathAnalysis.Join(a, PathAnalysis.PopPaths(g.state)));
    TraceArm(arms, false, false, a);
  }

  lemma MatchTrace(arms: Arms, a: PathAnalysis.Paths)
    ensures PathAnalysis.TraceArms(arms, false, false, a).ok ==> PathAnalysis.Trace(Match(Lit, true, arms), false, false, a).ok
  {
    hide PathAnalysis.TraceArms;
    assert PathAnalysis.Trace(Lit, false, false, a) == PathAnalysis.Traced(a, true);
  }

  lemma NotGoneInside(x: Local)
    ensures MoveGaps.Only(Held(x, false)).reached
    ensures !PathAnalysis.MayBeGone(x, PathAnalysis.EnterPaths(MoveGaps.Only(Held(x, false)), []))
  {
    var a := MoveGaps.Only(Held(x, false));
    var start := PathAnalysis.EnterPaths(a, []);
    assert start.scopes == a.scopes + [Scope(map[], [])];
    InnerFind(start.scopes, x);
  }

  lemma ConsumeTrace(x: Local, a: PathAnalysis.Paths)
    requires !PathAnalysis.MayBeGone(x, a)
    ensures PathAnalysis.Trace(Consume(x), false, false, a).ok
  {
    assert PathAnalysis.Trace(Var(x), true, false, a).ok;
    assert PathAnalysis.TraceArgs(NoArgs, false, PathAnalysis.Trace(Var(x), true, false, a).state).ok;
    assert PathAnalysis.TraceArgs(Arg(Var(x), true, NoArgs), false, a).ok;
  }

  lemma AssignTrace(x: Local, a: PathAnalysis.Paths)
    ensures PathAnalysis.Trace(Assign(x, Lit), false, false, a).ok
  {
    assert PathAnalysis.Trace(Lit, true, false, a).ok;
  }

  lemma RefillsFine(x: Local, a: PathAnalysis.Paths)
    ensures PathAnalysis.TraceArms(Refills(x), false, false, a).ok
  {
    var start := PathAnalysis.EnterPaths(a, []);
    assert PathAnalysis.Trace(Lit, false, false, start) == PathAnalysis.Traced(start, true);
    AssignTrace(x, start);
    assert PathAnalysis.Trace(If(Lit, Assign(x, Lit), Lit), false, false, start).ok;
    assert PathAnalysis.TraceArms(NoArms, false, false, PathAnalysis.Join(a, PathAnalysis.PopPaths(start))).ok;
  }

  /** A loop leaves the state as it was before: a local moved before a loop that
      assigns it is taken to be moved after it, and is not dropped. */
  lemma LoopAssignsOuter(x: Local)
    requires !x.copy
    ensures var body := Block(Let([x], false, Lit, Do(Consume(x), false, Do(While(Lit, Assign(x, Lit)), true, Tail(Lit)))), []);
      Accepted(body, []) && Exec(Planned(body, []), false, true, [1, 0], Start([])) == WrongDrops
  {
    var last := Do(While(Lit, Assign(x, Lit)), true, Tail(Lit));
    var stmts := Do(Consume(x), false, last);
    var all := Let([x], false, Lit, stmts);
    var body := Block(all, []);
    assert Params([]) == State([Scope(map[], [])], true) && Start([]) == [Scope(map[], [])];
    LoopAssignsVisit(x);
    LoopAssignsExec(x);
  }

  /** Where the condition of a loop itself gives back a local moved before, more is
      live after the body than before, and yet every run is as the checker says. */
  lemma ConditionAssigns(x: Local, choices: seq<nat>, gone: bool)
    requires !x.copy
    ensures var s, e := Seen(x, true, 1), While(Assign(x, Lit), Lit);
      && Visit(e, false, s) == Out(e, Seen(x, false, 1), true)
      && Visit(e.body_, false, Visit(e.cond, false, s).state).state == Seen(x, false, 1) && !Kept(s, Seen(x, false, 1))
    ensures var r := Exec(While(Assign(x, Lit), Lit), false, false, choices, Held(x, gone));
      !Wrong(r) && (r.Next? ==> Covers(true, r.scopes, Seen(x, false, 1).scopes))
  {
    ConditionAssignsVisit(x);
    ConditionAssignsExec(x, choices, gone);
  }

  lemma ConditionAssignsVisit(x: Local)
    ensures var s, e := Seen(x, true, 1), While(Assign(x, Lit), Lit);
      && Visit(e, false, s) == Out(e, Seen(x, false, 1), true)
      && Visit(e.body_, false, Visit(e.cond, false, s).state).state == Seen(x, false, 1) && !Kept(s, Seen(x, false, 1))
  {
    var s, l := Seen(x, true, 1), Seen(x, false, 1);
    assert Visit(Lit, true, s) == Out(Lit, s, true) && Visit(Lit, false, l) == Out(Lit, l, true);
    assert s.scopes[0].vars[x := Binding(false, 1)] == map[x := Binding(false, 1)];
    assert Put(s.scopes, 0, x, Binding(false, 1)) == l.scopes;
    assert Visit(Assign(x, Lit), false, s) == Out(Assign(x, Lit), l, true);
    assert s.scopes[0].vars[x].moved && !MovedIn(l, 0, x);
  }

  lemma {:induction false} ConditionAssignsExec(x: Local, choices: seq<nat>, gone: bool)
    requires !x.copy
    ensures var r := Exec(While(Assign(x, Lit), Lit), false, false, choices, Held(x, gone));
      !Wrong(r) && (r.Next? ==> Covers(true, r.scopes, Seen(x, false, 1).scopes))
    decreases |choices|
  {
    var c, d := Held(x, gone), Held(x, false);
    assert c[0].vars[x := false] == map[x := false] && Put(c, 0, x, false) == d;
    assert Exec(Lit, true, false, choices, c) == Next(c, choices);
    assert Exec(Assign(x, Lit), false, false, choices, c) == Next(d, choices);
    assert CoversScope(true, d[0], Seen(x, false, 1).scopes[0]);
    if choices != [] && choices[0] != 0 {
      assert Exec(Lit, false, false, choices[1..], d) == Next(d, choices[1..]);
      ConditionAssignsExec(x, choices[1..], false);
    }
  }

  function Under(s: State): State {
    s.(scopes := [Scope(map[], [])] + s.scopes)
  }

  function UnderRun(c: seq<Scope<bool>>): seq<Scope<bool>> {
    [Scope(map[], [])] + c
  }

  lemma RefillVisit(x: Local)
    ensures var m, loop := Under(Seen(x, true, 1)), While(Lit, Assign(x, Lit)); Visit(loop, false, m) == Out(loop, m, true)
  {
    var m, l := Under(Seen(x, true, 1)), Under(Seen(x, false, 1));
    assert Visit(Lit, false, m) == Out(Lit, m, true) && Visit(Lit, true, m) == Out(Lit, m, true);
    assert m.scopes[1].vars[x := Binding(false, 1)] == map[x := Binding(false, 1)];
    assert Put(m.scopes, 1, x, Binding(false, 1)) == l.scopes;
    assert Visit(Assign(x, Lit), false, m) == Out(Assign(x, Lit), l, true);
    assert LoopOk(m, l);
  }

  lemma LoopAssignsVisit(x: Local)
    requires !x.copy
    ensures var body := Block(Let([x], false, Lit, Do(Consume(x), false, Do(While(Lit, Assign(x, Lit)), true, Tail(Lit)))), []);
      var r := Visit(body, false, State([Scope(map[], [])], true)); r.ok && r.node == body
  {
    var last := Do(While(Lit, Assign(x, Lit)), true, Tail(Lit));
    var stmts := Do(Consume(x), false, last);
    var all := Let([x], false, Lit, stmts);
    var start := Push(State([Scope(map[], [])], true));
    var s, m := Under(Seen(x, false, 0)), Under(Seen(x, true, 1));
    assert Visit(Lit, true, start) == Out(Lit, start, true);
    assert Visit(Lit, false, m) == Out(Lit, m, true);
    assert Define(start.scopes, [x], Fresh) == s.scopes by {
      var next := start.scopes[1 := Scope(map[x := Fresh], [x])];
      assert next == s.scopes;
      assert [x][1..] == [] && [] + [x] == [x];
      assert Define(next, [], Fresh) == next;
    }
    assert s.scopes[1].vars[x := Binding(true, 1)] == map[x := Binding(true, 1)];
    assert Put(s.scopes, 1, x, Binding(true, 1)) == m.scopes;
    assert Visit(Var(x), true, s) == Out(Var(x), m, true);
    assert VisitArgs(NoArgs, m) == Out(NoArgs, m, true);
    assert VisitArgs(Arg(Var(x), true, NoArgs), s) == Out(Arg(Var(x), true, NoArgs), m, true);
    assert Visit(Consume(x), true, s) == Out(Consume(x), m, true);
    RefillVisit(x);
    assert VisitStmts(Tail(Lit), false, m) == Out(Tail(Lit), m, true);
    assert VisitStmts(last, false, m) == Out(last, m, true);
    assert VisitStmts(stmts, false, s) == Out(stmts, m, true);
    assert VisitStmts(all, false, start) == Out(all, m, true);
    assert Live(m.scopes[1]) == {};
    assert Due([x], {}) == [] by {
      assert Due([], {}) == [];
      assert [x][..0] == [];
    }
  }

  lemma RefillExec(x: Local)
    ensures Exec(While(Lit, Assign(x, Lit)), false, true, [1, 0], UnderRun(Held(x, true))) == Next(UnderRun(Held(x, false)), [])
  {
    var loop := While(Lit, Assign(x, Lit));
    var c, d := UnderRun(Held(x, false)), UnderRun(Held(x, true));
    assert d[1].vars[x := false] == map[x := false] && Put(d, 1, x, false) == c;
    var two := [1, 0];
    assert two[1..] == [0] && [0][1..] == [];
    assert Exec(Lit, false, true, two, d) == Next(d, two) && Exec(Lit, true, true, [0], d) == Next(d, [0]);
    assert Exec(Assign(x, Lit), false, true, [0], d) == Next(c, [0]);
    assert Exec(Lit, false, true, [0], c) == Next(c, [0]);
    assert Exec(loop, false, true, [0], c) == Next(c, []);
  }

  lemma LoopAssignsExec(x: Local)
    requires !x.copy
    ensures var body := Block(Let([x], false, Lit, Do(Consume(x), false, Do(While(Lit, Assign(x, Lit)), true, Tail(Lit)))), []);
      Exec(body, false, true, [1, 0], [Scope(map[], [])]) == WrongDrops
  {
    var loop := While(Lit, Assign(x, Lit));
    var last := Do(loop, true, Tail(Lit));
    var stmts := Do(Consume(x), false, last);
    var all := Let([x], false, Lit, stmts);
    var start := [Scope(map[], [])] + [Scope(map[], [])];
    var c, d := UnderRun(Held(x, false)), UnderRun(Held(x, true));
    assert Define(start, [x], false) == c by {
      var next := start[1 := Scope(map[x := false], [x])];
      assert next == c;
      assert [x][1..] == [] && [] + [x] == [x];
      assert Define(next, [], false) == next;
    }
    assert c[1].vars[x := true] == map[x := true] && Put(c, 1, x, true) == d;
    var two := [1, 0];
    assert Exec(Lit, true, true, two, start) == Next(start, two);
    assert Exec(Var(x), true, true, two, c) == Use(x, true, two, c);
    assert ExecArgs(NoArgs, true, two, d) == Next(d, two);
    assert ExecArgs(Arg(Var(x), true, NoArgs), true, two, c) == Next(d, two);
    assert Exec(Consume(x), true, true, two, c) == Next(d, two);
    RefillExec(x);
    assert Exec(Lit, false, true, [], c) == Next(c, []);
    assert ExecStmts(Tail(Lit), false, true, [], c) == Next(c, []);
    assert ExecStmts(last, false, true, two, d) == Next(c, []);
    assert ExecStmts(stmts, false, true, two, c) == Next(c, []);
    assert ExecStmts(all, false, true, two, start) == Next(c, []);
    assert x in Owned(c[1]);
    assert Due([x], Owned(c[1])) != [];
  }
}
