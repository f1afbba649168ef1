/** The checker does not report too much: what it reports as a use of a moved local
    is one in some run, and code that moves nothing is accepted. */
module MoveReports {
  import opened Borrow
  import opened MoveSoundness
  import opened PassingRuns
  import opened WhileConditions

  // ---------------------------------------------------------------
  // the other reports, and code that nothing gets to
  // ---------------------------------------------------------------

  /** Branches agree, loops leave nothing outer moved, and every part that is looked
      at can be got to. Then the only thing left to report is a use. */
  predicate Quiet(e: Expr, take: bool, s: State) {
    match e
    case Lit => true
    case Var(_) => true
    case Block(body, _) => QuietStmts(body, take, Push(s))
    case If(cond, thn, els) =>
      var c := Visit(cond, false, s).state;
      && Quiet(cond, false, s) && Ends(cond) && c.reachable
      && Quiet(thn, take, c) && Quiet(els, take, c) && Agree(c, [Visit(thn, take, c).state, Visit(els, take, c).state])
    case Match(scrutinee, copy, arms) =>
      var c := Visit(scrutinee, !copy, s).state;
      && Quiet(scrutinee, !copy, s) && Ends(scrutinee) && c.reachable
      && QuietArms(arms, take, c) && Agree(c, VisitArms(arms, take, c).1)
    case Loop(body) => Quiet(body, false, s) && LoopOk(s, Visit(body, false, s).state)
    case While(cond, body) =>
      var c := Visit(cond, false, s).state;
      && Quiet(cond, false, s) && Ends(cond) && c.reachable
      && Quiet(body, false, c) && LoopOk(c, Visit(body, false, c).state)
    case Return(value, _) => Quiet(value, true, s)
    case Assign(_, value) => Quiet(value, true, s)
    case Apply(args, _) => QuietArgs(args, s)
  }

  predicate QuietStmts(st: Stmts, take: bool, s: State)
    requires s.scopes != []
  {
    s.reachable ==>
      match st
      case Tail(tail) => Quiet(tail, take, s)
      case Let(binds, copy, value, rest) =>
        var v := Visit(value, !copy, s).state;
        Quiet(value, !copy, s) && (v.reachable ==> Ends(value)) && QuietStmts(rest, take, v.(scopes := Define(v.scopes, binds, Fresh)))
      case Do(e, copy, rest) =>
        var v := Visit(e, !copy, s).state;
        Quiet(e, !copy, s) && (v.reachable ==> Ends(e)) && QuietStmts(rest, take, v)
  }

  predicate QuietArgs(args: Args, s: State) {
    match args
    case NoArgs => true
    case Arg(e, taken, rest) =>
      var a := Visit(e, taken, s).state;
      Quiet(e, taken, s) && (rest.Arg? ==> Ends(e) && a.reachable) && QuietArgs(rest, a)
  }

  predicate QuietArms(arms: Arms, take: bool, s: State) {
    match arms
    case NoArms => true
    case Arm(binds, guard, body, rest) =>
      var start := Bound(s, binds);
      var g := Visit(guard, false, start).state;
      && Quiet(guard, false, start) && Ends(guard) && g.reachable
      && Quiet(body, take, g) && QuietArms(rest, take, s)
  }

  // ---------------------------------------------------------------
  // a report is a use in some run
  // ---------------------------------------------------------------

  lemma MovedIsGone(x: Local, take: bool, c: seq<Scope<bool>>, s: State)
    requires Covers(true, c, s.scopes) && !Mention(x, take, s).ok
    ensures Use(x, take, [], c) == UsedMoved
  {
    SameFind(true, c, s.scopes, x);
    var at := Find(s.scopes, x);
    assert CoversScope(true, c[at.value], s.scopes[at.value]);
  }

  /** In quiet code whatever is reported is the use of a moved local in some run. */
  lemma {:induction false} Real(e: Expr, take: bool, c: seq<Scope<bool>>, s: State) returns (choices: seq<nat>)
    requires s.reachable && Covers(true, c, s.scopes) && Quiet(e, take, s) && !Visit(e, take, s).ok
    ensures Exec(Visit(e, take, s).node, take, false, choices, c) == UsedMoved
    decreases e, 1
  {
    hide Covers, Mention, Use, Agree, LoopOk, Ends;
    match e
    case Var(x) =>
      MentionNode(x, take, s);
      MovedIsGone(x, take, c, s);
      choices := [];
    case Block(body, _) =>
      SoundPush(true, c, s);
      choices := RealStmts(body, take, c + [Scope(map[], [])], Push(s));
    case If(_, _, _) => choices := RealIf(e, take, c, s);
    case Match(_, _, _) => choices := RealMatch(e, take, c, s);
    case Loop(_) => choices := RealLoop(e, take, c, s);
    case While(_, _) => choices := RealWhile(e, take, c, s);
    case Return(value, _) => choices := Real(value, true, c, s);
    case Assign(_, value) => choices := Real(value, true, c, s);
    case Apply(args, _) => choices := RealArgs(args, c, s);
  }

  lemma {:induction false} RealIf(e: Expr, take: bool, c: seq<Scope<bool>>, s: State) returns (choices: seq<nat>)
    requires e.If? && s.reachable && Covers(true, c, s.scopes) && Quiet(e, take, s) && !Visit(e, take, s).ok
    ensures Exec(Visit(e, take, s).node, take, false, choices, c) == UsedMoved
    decreases e, 0
  {
    hide Covers, Agree, Ends, Passes, Leads, Merge;
    var k := Visit(e.cond, false, s);
    if !k.ok {
      choices := Real(e.cond, false, c, s);
    } else {
      var t, f := Visit(e.thn, take, k.state), Visit(e.els, take, k.state);
      var node := If(k.node, t.node, f.node);
      var way, c1 := Passable(e.cond, false, c, s);
      var yes := !t.ok;
      var chosen := if yes then e.thn else e.els;
      var more := Real(chosen, take, c1, k.state);
      LeadIf(node, yes, take, false, c, way, c1);
      LeadsOn(Whole(node, take), false, c, way + [if yes then 1 else 0], Whole(if yes then t.node else f.node, take), c1, more);
      choices := way + [if yes then 1 else 0] + more;
    }
  }

  lemma {:induction false} RealMatch(e: Expr, take: bool, c: seq<Scope<bool>>, s: State) returns (choices: seq<nat>)
    requires e.Match? && s.reachable && Covers(true, c, s.scopes) && Quiet(e, take, s) && !Visit(e, take, s).ok
    ensures Exec(Visit(e, take, s).node, take, false, choices, c) == UsedMoved
    decreases e, 0
  {
    hide Covers, Agree, Ends, Passes, Leads, Merge;
    var k := Visit(e.scrutinee, !e.copy, s);
    if !k.ok {
      choices := Real(e.scrutinee, !e.copy, c, s);
    } else {
      var node := Match(k.node, e.copy, VisitArms(e.arms, take, k.state).0);
      var way, c1 := Passable(e.scrutinee, !e.copy, c, s);
      var more := RealArms(e.arms, take, c1, k.state);
      LeadMatch(node, take, false, c, way, c1);
      LeadsOn(Whole(node, take), false, c, way, Cases(node.arms, take), c1, more);
      choices := way + more;
    }
  }

  lemma {:induction false} RealLoop(e: Expr, take: bool, c: seq<Scope<bool>>, s: State) returns (choices: seq<nat>)
    requires e.Loop? && s.reachable && Covers(true, c, s.scopes) && Quiet(e, take, s) && !Visit(e, take, s).ok
    ensures Exec(Visit(e, take, s).node, take, false, choices, c) == UsedMoved
    decreases e, 0
  {
    hide Covers, LoopOk;
    var more := Real(e.body_, false, c, s);
    choices := [0] + more;
    Front(0, more);
    RunLoop(Visit(e, take, s).node, take, false, choices, c);
  }

  lemma {:induction false} RealWhile(e: Expr, take: bool, c: seq<Scope<bool>>, s: State) returns (choices: seq<nat>)
    requires e.While? && s.reachable && Covers(true, c, s.scopes) && Quiet(e, take, s) && !Visit(e, take, s).ok
    ensures Exec(Visit(e, take, s).node, take, false, choices, c) == UsedMoved
    decreases e, 0
  {
    hide Covers, LoopOk, Ends, Passes;
    var k := Visit(e.cond, false, s);
    var node := Visit(e, take, s).node;
    if !k.ok {
      choices := Real(e.cond, false, c, s);
      RunLoop(node, take, false, choices, c);
    } else {
      var way, c1 := Passable(e.cond, false, c, s);
      var more := Real(e.body_, false, c1, k.state);
      choices := way + ([1] + more);
      Front(1, more);
      PassesOn(Whole(k.node, false), false, c, way, c1, [1] + more);
      RunLoop(node, take, false, choices, c);
    }
  }

  lemma {:induction false} RealStmts(st: Stmts, take: bool, c: seq<Scope<bool>>, s: State) returns (choices: seq<nat>)
    requires s.scopes != [] && s.reachable && Covers(true, c, s.scopes) && QuietStmts(st, take, s) && !VisitStmts(st, take, s).ok
    ensures c != [] && ExecStmts(VisitStmts(st, take, s).node, take, false, choices, c) == UsedMoved
    decreases st
  {
    CoversLength(true, c, s.scopes);
    hide Covers, Ends, Passes, Leads;
    match st
    case Tail(tail) => choices := Real(tail, take, c, s);
    case Let(binds, copy, value, rest) =>
      var v := Visit(value, !copy, s);
      if !v.ok {
        choices := Real(value, !copy, c, s);
      } else {
        var s1 := v.state.(scopes := Define(v.state.scopes, binds, Fresh));
        var node := Let(binds, copy, v.node, VisitStmts(rest, take, s1).node);
        var way, c1 := Passable(value, !copy, c, s);
        CoversLength(true, c1, v.state.scopes);
        SoundDefine(binds, true, c1, v.state.scopes);
        var more := RealStmts(rest, take, Define(c1, binds, false), s1);
        LeadLet(node, take, false, c, way, c1);
        LeadsOn(Rest(node, take), false, c, way, Rest(node.rest, take), Define(c1, binds, false), more);
        choices := way + more;
      }
    case Do(e, copy, rest) =>
      var v := Visit(e, !copy, s);
      if !v.ok {
        choices := Real(e, !copy, c, s);
      } else {
        var node := Do(v.node, copy, VisitStmts(rest, take, v.state).node);
        var way, c1 := Passable(e, !copy, c, s);
        CoversLength(true, c1, v.state.scopes);
        var more := RealStmts(rest, take, c1, v.state);
        LeadDo(node, take, false, c, way, c1);
        LeadsOn(Rest(node, take), false, c, way, Rest(node.rest, take), c1, more);
        choices := way + more;
      }
  }

  lemma {:induction false} RealArgs(args: Args, c: seq<Scope<bool>>, s: State) returns (choices: seq<nat>)
    requires s.reachable && Covers(true, c, s.scopes) && QuietArgs(args, s) && !VisitArgs(args, s).ok
    ensures ExecArgs(VisitArgs(args, s).node, false, choices, c) == UsedMoved
    decreases args
  {
    hide Covers, Ends, Passes, Leads;
    var Arg(e, taken, rest) := args;
    var v := Visit(e, taken, s);
    if !v.ok {
      choices := Real(e, taken, c, s);
    } else {
      var node := Arg(v.node, taken, VisitArgs(rest, v.state).node);
      var way, c1 := Passable(e, taken, c, s);
      var more := RealArgs(rest, c1, v.state);
      LeadArg(node, false, c, way, c1);
      LeadsOn(Operands(node), false, c, way, Operands(node.rest), c1, more);
      choices := way + more;
    }
  }

  lemma {:induction false} RealArms(arms: Arms, take: bool, c: seq<Scope<bool>>, s: State) returns (choices: seq<nat>)
    requires s.reachable && Covers(true, c, s.scopes) && QuietArms(arms, take, s) && !VisitArms(arms, take, s).2
    ensures ExecArms(VisitArms(arms, take, s).0, take, false, choices, c) == UsedMoved
    decreases arms
  {
    hide Covers, Ends, Passes, Leads, Bound, Enter;
    var Arm(binds, guard, body, rest) := arms;
    var start := Bound(s, binds);
    var g := Visit(guard, false, start);
    var b := Visit(body, take, g.state);
    var node := VisitArms(arms, take, s).0;
    SoundBound(binds, true, c, s);
    if !g.ok {
      var more := Real(guard, false, Enter(c, binds), start);
      Front(1, more);
      choices := [1] + more;
    } else if !b.ok {
      var way, c1 := Passable(guard, false, Enter(c, binds), start);
      var more := Real(body, take, c1, g.state);
      CoversLength(true, c, s.scopes);
      CoversLength(true, c1, g.state.scopes);
      PassesOn(Whole(g.node, false), false, Enter(c, binds), way, c1, [1] + more);
      choices := [1] + (way + ([1] + more));
      hide Exec, ExecArms;
      ArmStep(node, take, false, c, way + ([1] + more), c1, 1, more);
    } else {
      var more := RealArms(rest, take, c, s);
      choices := [0] + more;
      LeadSkip(node, take, false, c);
      LeadsOn(Cases(node, take), false, c, [0], Cases(node.rest, take), c, more);
    }
  }

  /** A body that is quiet and regular is accepted if and only if no run of it uses
      a moved local. */
  lemma AcceptedExactly(body: Expr, params: seq<Local>)
    requires Quiet(body, false, Params(params)) && Regular(body, false, Params(params), false)
    ensures Accepted(body, params) <==> forall choices: seq<nat> :: !Exec(Planned(body, params), false, false, choices, Start(params)).UsedMoved?
  {
    SoundDefine(params, true, [Scope(map[], [])], [Scope(map[], [])]);
    hide Exec, Quiet, Regular, Visit, Covers;
    if Accepted(body, params) {
      forall choices: seq<nat> ensures !Exec(Planned(body, params), false, false, choices, Start(params)).UsedMoved? {
        MovesAreSound(body, params, choices);
      }
    } else {
      var choices := Real(body, false, Start(params), Params(params));
      assert Exec(Planned(body, params), false, false, choices, Start(params)).UsedMoved?;
    }
  }

  // ---------------------------------------------------------------
  // code that moves nothing
  // ---------------------------------------------------------------

  predicate NothingMoved(s: State) {
    forall i, x :: 0 <= i < |s.scopes| && x in s.scopes[i].vars ==> !s.scopes[i].vars[x].moved
  }

  lemma StillNothing(s: State, s': State, f: Effects)
    requires NothingMoved(s) && AllEvolve(s.scopes, s'.scopes, f) && f.moves == {}
    ensures NothingMoved(s')
  {
    forall i, x | 0 <= i < |s'.scopes| && x in s'.scopes[i].vars ensures !s'.scopes[i].vars[x].moved {
      assert Evolves(s.scopes[i], s'.scopes[i], f);
      assert Shifts(x, s.scopes[i].vars[x], s'.scopes[i].vars[x], f);
    }
  }

  lemma VisitNothing(e: Expr, take: bool, s: State)
    requires NothingMoved(s) && Effect(e, take).moves == {}
    ensures NothingMoved(Visit(e, take, s).state)
  {
    hide Visit, Effect, AllEvolve, NothingMoved;
    Evolved(e, take, s);
    StillNothing(s, Visit(e, take, s).state, Effect(e, take));
  }

  lemma NothingAgrees(before: State, branches: seq<State>)
    requires forall b :: b in branches ==> NothingMoved(b)
    ensures Agree(before, branches)
  {
    forall i, x | 0 <= i < |before.scopes| && x in before.scopes[i].vars ensures NoneMoved(branches, i, x) {
      forall b | b in branches && b.reachable ensures !MovedIn(b, i, x) {
      }
    }
  }

  lemma NothingLoops(before: State, after: State)
    requires NothingMoved(after)
    ensures LoopOk(before, after)
  {
  }

  lemma {:induction false} NothingDefined(binds: seq<Local>, s: State)
    requires s.scopes != [] && NothingMoved(s)
    ensures NothingMoved(s.(scopes := Define(s.scopes, binds, Fresh)))
    decreases |binds|
  {
    if binds != [] {
      var n, x := |s.scopes| - 1, binds[0];
      NothingDefined(binds[1..], s.(scopes := s.scopes[n := Scope(s.scopes[n].vars[x := Fresh], s.scopes[n].order + [x])]));
    }
  }

  lemma NothingPushed(s: State)
    requires NothingMoved(s)
    ensures NothingMoved(Push(s))
  {
  }

  lemma MentionLive(x: Local, take: bool, s: State)
    requires NothingMoved(s)
    ensures Mention(x, take, s).ok
  {
  }

  /** Code that takes no local but Copy ones is accepted where nothing is moved, however
      it branches and loops, whatever it reads, takes and assigns. */
  lemma {:induction false} NothingReported(e: Expr, take: bool, s: State)
    requires NothingMoved(s) && Effect(e, take).moves == {}
    ensures Visit(e, take, s).ok
    decreases e
  {
    hide NothingMoved, Agree, LoopOk, Mention, Merge;
    match e
    case Lit =>
    case Var(x) => MentionLive(x, take, s);
    case Block(body, _) =>
      NothingPushed(s);
      NothingReportedStmts(body, take, Push(s));
    case If(cond, thn, els) =>
      var c := Visit(cond, false, s).state;
      NothingReported(cond, false, s);
      VisitNothing(cond, false, s);
      NothingReported(thn, take, c);
      NothingReported(els, take, c);
      VisitNothing(thn, take, c);
      VisitNothing(els, take, c);
      NothingAgrees(c, [Visit(thn, take, c).state, Visit(els, take, c).state]);
    case Match(scrutinee, copy, arms) =>
      var c := Visit(scrutinee, !copy, s).state;
      NothingReported(scrutinee, !copy, s);
      VisitNothing(scrutinee, !copy, s);
      NothingReportedArms(arms, take, c);
      NothingAgrees(c, VisitArms(arms, take, c).1);
    case Loop(body) =>
      NothingReported(body, false, s);
      VisitNothing(body, false, s);
      NothingLoops(s, Visit(body, false, s).state);
    case While(cond, body) =>
      var c := Visit(cond, false, s).state;
      NothingReported(cond, false, s);
      VisitNothing(cond, false, s);
      NothingReported(body, false, c);
      VisitNothing(body, false, c);
      NothingLoops(c, Visit(body, false, c).state);
    case Return(value, _) => NothingReported(value, true, s);
    case Assign(_, value) => NothingReported(value, true, s);
    case Apply(args, _) => NothingReportedArgs(args, s);
  }

  lemma {:induction false} NothingReportedStmts(st: Stmts, take: bool, s: State)
    requires s.scopes != [] && NothingMoved(s) && EffectStmts(st, take).moves == {}
    ensures VisitStmts(st, take, s).ok
    decreases st
  {
    hide NothingMoved;
    if s.reachable {
      match st
      case Tail(tail) => NothingReported(tail, take, s);
      case Let(binds, copy, value, rest) =>
        var v := Visit(value, !copy, s).state;
        NothingReported(value, !copy, s);
        VisitNothing(value, !copy, s);
        NothingDefined(binds, v);
        NothingReportedStmts(rest, take, v.(scopes := Define(v.scopes, binds, Fresh)));
      case Do(e, copy, rest) =>
        NothingReported(e, !copy, s);
        VisitNothing(e, !copy, s);
        NothingReportedStmts(rest, take, Visit(e, !copy, s).state);
    }
  }

  lemma {:induction false} NothingReportedArgs(args: Args, s: State)
    requires NothingMoved(s) && EffectArgs(args).moves == {}
    ensures VisitArgs(args, s).ok
    decreases args
  {
    hide NothingMoved;
    match args
    case NoArgs =>
    case Arg(e, taken, rest) =>
      NothingReported(e, taken, s);
      VisitNothing(e, taken, s);
      NothingReportedArgs(rest, Visit(e, taken, s).state);
  }

  lemma {:induction false} NothingReportedArms(arms: Arms, take: bool, s: State)
    requires NothingMoved(s) && EffectArms(arms, take).moves == {}
    ensures VisitArms(arms, take, s).2 && forall b :: b in VisitArms(arms, take, s).1 ==> NothingMoved(b)
    decreases arms
  {
    hide NothingMoved, Bound;
    match arms
    case NoArms =>
    case Arm(binds, guard, body, rest) =>
      var start := Bound(s, binds);
      NothingBound(binds, s);
      NothingReported(guard, false, start);
      VisitNothing(guard, false, start);
      var g := Visit(guard, false, start).state;
      NothingReported(body, take, g);
      VisitNothing(body, take, g);
      NothingPopped(Visit(body, take, g).state);
      NothingReportedArms(rest, take, s);
  }

  lemma NothingBound(binds: seq<Local>, s: State)
    requires NothingMoved(s)
    ensures NothingMoved(Bound(s, binds))
  {
    NothingPushed(s);
    NothingDefined(binds, Push(s));
  }

  lemma NothingPopped(s: State)
    requires s.scopes != [] && NothingMoved(s)
    ensures NothingMoved(Pop(s))
  {
  }

  /** A body that takes no non-Copy local is accepted. */
  lemma PlainAccepted(body: Expr, params: seq<Local>)
    requires Effect(body, false).moves == {}
    ensures Accepted(body, params)
  {
    NothingDefined(params, State([Scope(map[], [])], true));
    NothingReported(body, false, Params(params));
  }
}
