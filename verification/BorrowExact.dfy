/** When the claims about moves and drops hold: a condition one can read off a
    body. */
module MoveExactness {
  import opened Borrow
  import opened MoveSoundness

  // ---------------------------------------------------------------
  // a condition on the text of a body
  // ---------------------------------------------------------------

  /** Conditions of loops and guards of arms move nothing declared outside them.
      With `exact`, they and loop bodies also assign nothing non-Copy that was
      declared outside. `env` holds the locals in scope. */
  predicate Fits(e: Expr, env: set<Local>, exact: bool) {
    match e
    case Lit => true
    case Var(_) => true
    case Block(body, _) => FitsStmts(body, env, exact)
    case If(cond, thn, els) => Fits(cond, env, exact) && Fits(thn, env, exact) && Fits(els, env, exact)
    case Match(scrutinee, _, arms) => Fits(scrutinee, env, exact) && FitsArms(arms, env, exact)
    case Loop(body) => Fits(body, env, exact) && (exact ==> Effect(body, false).assigns !! env)
    case While(cond, body) =>
      && Fits(cond, env, exact) && Fits(body, env, exact) && Calm(Effect(cond, false), env, exact)
      && (exact ==> Effect(body, false).assigns !! env)
    case Return(value, _) => Fits(value, env, exact)
    case Assign(_, value) => Fits(value, env, exact)
    case Apply(args, _) => FitsArgs(args, env, exact)
  }

  predicate Calm(f: Effects, env: set<Local>, exact: bool) {
    f.moves !! env && (exact ==> f.assigns !! env)
  }

  predicate FitsStmts(st: Stmts, env: set<Local>, exact: bool) {
    match st
    case Tail(tail) => Fits(tail, env, exact)
    case Let(binds, _, value, rest) => Fits(value, env, exact) && FitsStmts(rest, env + Names(binds), exact)
    case Do(e, _, rest) => Fits(e, env, exact) && FitsStmts(rest, env, exact)
  }

  predicate FitsArgs(args: Args, env: set<Local>, exact: bool) {
    match args
    case NoArgs => true
    case Arg(e, _, rest) => Fits(e, env, exact) && FitsArgs(rest, env, exact)
  }

  predicate FitsArms(arms: Arms, env: set<Local>, exact: bool) {
    match arms
    case NoArms => true
    case Arm(binds, guard, body, rest) =>
      && Fits(guard, env + Names(binds), exact) && Fits(body, env + Names(binds), exact)
      && Calm(Effect(guard, false), env, exact) && FitsArms(rest, env, exact)
  }

  /** In scope, with no Copy local marked as moved. */
  predicate Tidy(scopes: seq<Scope<Binding>>, env: set<Local>) {
    forall i, x :: 0 <= i < |scopes| && x in scopes[i].vars ==> x in env && (x.copy ==> !scopes[i].vars[x].moved)
  }

  lemma StillTidy(a: seq<Scope<Binding>>, b: seq<Scope<Binding>>, f: Effects, env: set<Local>)
    requires AllEvolve(a, b, f) && Tidy(a, env)
    ensures Tidy(b, env)
  {
    forall i, x | 0 <= i < |b| && x in b[i].vars ensures x in env && (x.copy ==> !b[i].vars[x].moved) {
      assert Evolves(a[i], b[i], f);
    }
  }

  lemma {:induction false} TidyDefine(binds: seq<Local>, a: seq<Scope<Binding>>, env: set<Local>)
    requires a != [] && Tidy(a, env)
    ensures Tidy(Define(a, binds, Fresh), env + Names(binds))
    decreases |binds|
  {
    if binds != [] {
      var n, x := |a| - 1, binds[0];
      TidyDefine(binds[1..], a[n := Scope(a[n].vars[x := Fresh], a[n].order + [x])], env + {x});
      assert env + {x} + Names(binds[1..]) == env + Names(binds);
    }
  }

  lemma TidyPush(s: State, env: set<Local>)
    requires Tidy(s.scopes, env)
    ensures Tidy(Push(s).scopes, env)
  {
  }

  /** After an expression, what is in scope is as tidy as before. */
  lemma VisitTidy(e: Expr, take: bool, s: State, env: set<Local>)
    requires Tidy(s.scopes, env)
    ensures Tidy(Visit(e, take, s).state.scopes, env)
  {
    hide Tidy, AllEvolve, Visit, Effect;
    Evolved(e, take, s);
    StillTidy(s.scopes, Visit(e, take, s).state.scopes, Effect(e, take), env);
  }

  lemma KeptIfNotAssigned(s: State, s': State, f: Effects, env: set<Local>)
    requires AllEvolve(s.scopes, s'.scopes, f) && Tidy(s.scopes, env) && f.assigns !! env
    ensures Kept(s, s')
  {
    forall i, x | 0 <= i < |s.scopes| && x in s.scopes[i].vars && s.scopes[i].vars[x].moved ensures MovedIn(s', i, x) {
      assert Evolves(s.scopes[i], s'.scopes[i], f);
      assert Shifts(x, s.scopes[i].vars[x], s'.scopes[i].vars[x], f);
    }
  }

  lemma ReturnsIfNotMoved(s: State, s': State, f: Effects, env: set<Local>)
    requires AllEvolve(s.scopes, s'.scopes, f) && Tidy(s.scopes, env) && f.moves !! env
    ensures Returns(s, s')
  {
    forall i, x | 0 <= i < |s.scopes| && x in s.scopes[i].vars && MovedIn(s', i, x) ensures s.scopes[i].vars[x].moved {
      assert Evolves(s.scopes[i], s'.scopes[i], f);
      assert Shifts(x, s.scopes[i].vars[x], s'.scopes[i].vars[x], f);
    }
  }

  /** A loop body without a diagnostic moves nothing that stays moved. */
  lemma LoopReturns(s: State, s': State, f: Effects)
    requires AllEvolve(s.scopes, s'.scopes, f) && LoopOk(s, s')
    ensures Returns(s, s')
  {
    forall i, x | 0 <= i < |s.scopes| && x in s.scopes[i].vars && MovedIn(s', i, x) ensures s.scopes[i].vars[x].moved {
      assert Evolves(s.scopes[i], s'.scopes[i], f);
      assert Shifts(x, s.scopes[i].vars[x], s'.scopes[i].vars[x], f);
      assert CountIn(s', i, x) == s'.scopes[i].vars[x].count;
    }
  }

  lemma ReturnsThen(a: State, b: State, c: State, f: Effects)
    requires Returns(a, b) && Returns(b, c) && AllEvolve(a.scopes, b.scopes, f) && (c.reachable ==> b.reachable)
    ensures Returns(a, c)
  {
    forall i, x | 0 <= i < |a.scopes| && x in a.scopes[i].vars && MovedIn(c, i, x) && c.reachable ensures a.scopes[i].vars[x].moved {
      assert Evolves(a.scopes[i], b.scopes[i], f);
      assert MovedIn(b, i, x);
    }
  }

  lemma WhileFits(cond: Expr, body: Expr, s: State, env: set<Local>, exact: bool)
    requires Tidy(s.scopes, env) && Calm(Effect(cond, false), env, exact) && (exact ==> Effect(body, false).assigns !! env)
    requires LoopOk(Visit(cond, false, s).state, Visit(body, false, Visit(cond, false, s).state).state)
    ensures var b := Visit(body, false, Visit(cond, false, s).state).state; Returns(s, b) && (exact ==> Kept(s, b))
  {
    hide Tidy, AllEvolve, Visit, Effect, LoopOk, Returns, Kept;
    var c := Visit(cond, false, s).state;
    var b := Visit(body, false, c).state;
    var f, g := Effect(cond, false), Effect(body, false);
    Evolved(cond, false, s);
    Evolved(body, false, c);
    ReturnsIfNotMoved(s, c, f, env);
    LoopReturns(c, b, g);
    ReturnsThen(s, c, b, f);
    Then(s.scopes, c.scopes, b.scopes, f, g, Both(f, g));
    if exact {
      KeptIfNotAssigned(s, b, Both(f, g), env);
    }
  }

  /** An accepted body that fits is regular. */
  lemma {:induction false} FitsRegular(e: Expr, take: bool, s: State, env: set<Local>, exact: bool)
    requires Fits(e, env, exact) && Tidy(s.scopes, env) && Visit(e, take, s).ok
    ensures Regular(e, take, s, exact)
    decreases e
  {
    hide Tidy, Kept, Returns, AllEvolve, LoopOk;
    match e
    case Lit =>
    case Var(_) =>
    case Block(body, _) =>
      TidyPush(s, env);
      FitsRegularStmts(body, take, Push(s), env, exact);
    case If(cond, thn, els) =>
      var c := Visit(cond, false, s).state;
      VisitTidy(cond, false, s, env);
      FitsRegular(cond, false, s, env, exact);
      FitsRegular(thn, take, c, env, exact);
      FitsRegular(els, take, c, env, exact);
    case Match(scrutinee, copy, arms) =>
      VisitTidy(scrutinee, !copy, s, env);
      FitsRegular(scrutinee, !copy, s, env, exact);
      FitsRegularArms(arms, take, Visit(scrutinee, !copy, s).state, env, exact);
    case Loop(body) =>
      FitsRegular(body, false, s, env, exact);
      Evolved(body, false, s);
      if exact {
        KeptIfNotAssigned(s, Visit(body, false, s).state, Effect(body, false), env);
      }
    case While(cond, body) =>
      VisitTidy(cond, false, s, env);
      FitsRegular(cond, false, s, env, exact);
      FitsRegular(body, false, Visit(cond, false, s).state, env, exact);
      WhileFits(cond, body, s, env, exact);
    case Return(value, _) => FitsRegular(value, true, s, env, exact);
    case Assign(_, value) => FitsRegular(value, true, s, env, exact);
    case Apply(args, _) => FitsRegularArgs(args, s, env, exact);
  }

  lemma {:induction false} FitsRegularStmts(st: Stmts, take: bool, s: State, env: set<Local>, exact: bool)
    requires s.scopes != [] && FitsStmts(st, env, exact) && Tidy(s.scopes, env) && VisitStmts(st, take, s).ok
    ensures RegularStmts(st, take, s, exact)
    decreases st
  {
    hide Tidy;
    if s.reachable {
      match st
      case Tail(tail) => FitsRegular(tail, take, s, env, exact);
      case Let(binds, copy, value, rest) =>
        var v := Visit(value, !copy, s).state;
        VisitTidy(value, !copy, s, env);
        FitsRegular(value, !copy, s, env, exact);
        TidyDefine(binds, v.scopes, env);
        FitsRegularStmts(rest, take, v.(scopes := Define(v.scopes, binds, Fresh)), env + Names(binds), exact);
      case Do(e, copy, rest) =>
        VisitTidy(e, !copy, s, env);
        FitsRegular(e, !copy, s, env, exact);
        FitsRegularStmts(rest, take, Visit(e, !copy, s).state, env, exact);
    }
  }

  lemma {:induction false} FitsRegularArgs(args: Args, s: State, env: set<Local>, exact: bool)
    requires FitsArgs(args, env, exact) && Tidy(s.scopes, env) && VisitArgs(args, s).ok
    ensures RegularArgs(args, s, exact)
    decreases args
  {
    hide Tidy;
    match args
    case NoArgs =>
    case Arg(e, taken, rest) =>
      VisitTidy(e, taken, s, env);
      FitsRegular(e, taken, s, env, exact);
      FitsRegularArgs(rest, Visit(e, taken, s).state, env, exact);
  }

  lemma {:induction false} FitsRegularArms(arms: Arms, take: bool, s: State, env: set<Local>, exact: bool)
    requires FitsArms(arms, env, exact) && Tidy(s.scopes, env) && VisitArms(arms, take, s).2
    ensures RegularArms(arms, take, s, exact)
    decreases arms
  {
    hide Tidy, Kept, Returns, AllEvolve;
    match arms
    case NoArms =>
    case Arm(binds, guard, body, rest) =>
      var start, inner, f := Bound(s, binds), env + Names(binds), Effect(guard, false);
      var g := Visit(guard, false, start).state;
      TidyPush(s, env);
      TidyDefine(binds, Push(s).scopes, env);
      VisitTidy(guard, false, start, inner);
      FitsRegular(guard, false, start, inner, exact);
      FitsRegular(body, take, g, inner, exact);
      Evolved(guard, false, start);
      Shorter(start.scopes, g.scopes, |s.scopes|, f);
      ReturnsIfNotMoved(s, Pop(g), f, env);
      if exact {
        KeptIfNotAssigned(s, Pop(g), f, env);
      }
      FitsRegularArms(rest, take, s, env, exact);
  }

  /** The two results for bodies one can recognise by their text. */
  lemma FittingBodies(body: Expr, params: seq<Local>, choices: seq<nat>)
    requires Accepted(body, params)
    ensures Fits(body, Names(params), false) ==> !Exec(Planned(body, params), false, false, choices, Start(params)).UsedMoved?
    ensures Fits(body, Names(params), true) ==>
      var r := Exec(Planned(body, params), false, true, choices, Start(params)); !r.UsedMoved? && !r.WrongDrops?
  {
    TidyDefine(params, [Scope(map[], [])], {});
    assert {} + Names(params) == Names(params);
    hide Exec, Visit, Fits, Regular;
    if Fits(body, Names(params), false) {
      FitsRegular(body, false, Params(params), Names(params), false);
      MovesAreSound(body, params, choices);
    }
    if Fits(body, Names(params), true) {
      FitsRegular(body, false, Params(params), Names(params), true);
      DropPlanIsExact(body, params, choices);
    }
  }
}
