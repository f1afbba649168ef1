/** Where the checker's answer is right, exactly: the condition for every body,
    for guards of match arms, and for the end of a block. */
module MoveGaps {
  import opened Borrow
  import opened MoveSoundness
  import opened PathAnalysis
  import opened PathSoundness
  import opened PathExactness
  import opened PassingRuns

  // ---------------------------------------------------------------
  // runs that do not look at the drop lists
  // ---------------------------------------------------------------

  /** A run that ignores drop lists never finds one wrong, and does what a strict
      run does up to the first wrong one. */
  predicate Looser(q: Result, r: Result) {
    !q.WrongDrops? && (r.WrongDrops? || q == r)
  }

  lemma {:induction false} Loosely(e: Expr, take: bool, choices: seq<nat>, c: seq<Scope<bool>>)
    ensures Looser(Exec(e, take, false, choices, c), Exec(e, take, true, choices, c))
    decreases |choices|, e, 1
  {
    hide Due, Owned, OwnedAll;
    match e
    case Lit =>
    case Var(_) =>
    case Block(body, _) => LooselyStmts(body, take, choices, c + [Scope(map[], [])]);
    case If(cond, thn, els) =>
      Loosely(cond, false, choices, c);
      var t := Exec(cond, false, false, choices, c);
      if t.Next? && t.rest != [] {
        Loosely(if t.rest[0] == 0 then els else thn, take, t.rest[1..], t.scopes);
      }
    case Match(scrutinee, copy, arms) =>
      Loosely(scrutinee, !copy, choices, c);
      var t := Exec(scrutinee, !copy, false, choices, c);
      if t.Next? {
        LooselyArms(arms, take, t.rest, t.scopes);
      }
    case Loop(_) => LooselyRound(e, take, choices, c);
    case While(_, _) => LooselyRound(e, take, choices, c);
    case Return(value, _) => Loosely(value, true, choices, c);
    case Assign(_, value) => Loosely(value, true, choices, c);
    case Apply(args, _) => LooselyArgs(args, choices, c);
  }

  lemma {:induction false} LooselyRound(e: Expr, take: bool, choices: seq<nat>, c: seq<Scope<bool>>)
    requires e.Loop? || e.While?
    ensures Looser(Exec(e, take, false, choices, c), Exec(e, take, true, choices, c))
    decreases |choices|, e, 0
  {
    if e.Loop? && choices != [] {
      Loosely(e.body_, false, choices[1..], c);
      var b := Exec(e.body_, false, false, choices[1..], c);
      if b.Next? {
        LooselyRound(e, take, b.rest, b.scopes);
      }
    } else if e.While? {
      Loosely(e.cond, false, choices, c);
      var t := Exec(e.cond, false, false, choices, c);
      if t.Next? && t.rest != [] {
        Loosely(e.body_, false, t.rest[1..], t.scopes);
        var b := Exec(e.body_, false, false, t.rest[1..], t.scopes);
        if b.Next? {
          LooselyRound(e, take, b.rest, b.scopes);
        }
      }
    }
  }

  lemma {:induction false} LooselyStmts(st: Stmts, take: bool, choices: seq<nat>, c: seq<Scope<bool>>)
    requires c != []
    ensures Looser(ExecStmts(st, take, false, choices, c), ExecStmts(st, take, true, choices, c))
    decreases |choices|, st
  {
    match st
    case Tail(tail) => Loosely(tail, take, choices, c);
    case Let(binds, copy, value, rest) =>
      Loosely(value, !copy, choices, c);
      var v := Exec(value, !copy, false, choices, c);
      if v.Next? {
        LooselyStmts(rest, take, v.rest, Define(v.scopes, binds, false));
      }
    case Do(e, copy, rest) =>
      Loosely(e, !copy, choices, c);
      var v := Exec(e, !copy, false, choices, c);
      if v.Next? {
        LooselyStmts(rest, take, v.rest, v.scopes);
      }
  }

  lemma {:induction false} LooselyArgs(args: Args, choices: seq<nat>, c: seq<Scope<bool>>)
    ensures Looser(ExecArgs(args, false, choices, c), ExecArgs(args, true, choices, c))
    decreases |choices|, args
  {
    match args
    case NoArgs =>
    case Arg(e, taken, rest) =>
      Loosely(e, taken, choices, c);
      var v := Exec(e, taken, false, choices, c);
      if v.Next? {
        LooselyArgs(rest, v.rest, v.scopes);
      }
  }

  lemma {:induction false} LooselyArms(arms: Arms, take: bool, choices: seq<nat>, c: seq<Scope<bool>>)
    ensures Looser(ExecArms(arms, take, false, choices, c), ExecArms(arms, take, true, choices, c))
    decreases |choices|, arms
  {
    hide Enter;
    if arms.Arm? && choices != [] {
      var Arm(binds, guard, body, rest) := arms;
      if choices[0] == 0 {
        LooselyArms(rest, take, choices[1..], c);
      } else {
        Loosely(guard, false, choices[1..], Enter(c, binds));
        var g := Exec(guard, false, false, choices[1..], Enter(c, binds));
        if g.Next? && g.rest != [] {
          if g.rest[0] == 0 {
            LooselyArms(rest, take, g.rest[1..], g.scopes[..|c|]);
          } else {
            Loosely(body, take, g.rest[1..], g.scopes);
          }
        }
      }
    }
  }

  // ---------------------------------------------------------------
  // every body
  // ---------------------------------------------------------------

  /** The one path of a run that has got somewhere. */
  function Only(c: seq<Scope<bool>>): Paths {
    Paths(seq(|c|, i requires 0 <= i < |c| => Scope(map x | x in c[i].vars :: if c[i].vars[x] then Moved else Added, c[i].order)), true)
  }

  lemma OnlyThat(c: seq<Scope<bool>>, p: Pick, env: set<Local>)
    ensures Among(c, Only(c)) && Filled(Only(c)) && Alike(c, Only(c).scopes)
    ensures Allowed(p, Only(c)) <==> Meets(c, p)
    ensures Apart(c, env) ==> Apart(Only(c).scopes, env)
  {
    var a := Only(c).scopes;
    forall i | 0 <= i < |c| ensures AmongScope(c[i], a[i]) {
      assert a[i].vars.Keys == c[i].vars.Keys;
    }
    AmongAlike(c, Only(c));
    if Apart(c, env) {
      StillApart(c, a, env);
    }
  }

  /** Some run has a fault. */
  ghost predicate Faulty(e: Expr, take: bool, strict: bool, c: seq<Scope<bool>>) {
    exists choices: seq<nat> :: Wrong(Exec(e, take, strict, choices, c))
  }

  /** Some run gets through with the demand met. */
  ghost predicate Reaches(e: Expr, take: bool, strict: bool, c: seq<Scope<bool>>, p: Pick) {
    exists choices: seq<nat> :: var r := Exec(e, take, strict, choices, c); r.Next? && Meets(r.scopes, p)
  }

  /** For every expression, accepted or not, with any drop lists in it: some run
      from `c` uses a moved local, or with `strict` leaves a scope with the wrong
      drops, if and only if following all paths finds it. If there is none, what
      runs leave behind is exactly what the paths say. */
  lemma PathsAreExact(e: Expr, take: bool, strict: bool, c: seq<Scope<bool>>, env: set<Local>)
    requires strict ==> Apart(c, env) && Named(e, env)
    ensures Faulty(e, take, strict, c) <==> !Trace(e, take, strict, Only(c)).ok
    ensures !Faulty(e, take, strict, c) ==>
      forall p :: Reaches(e, take, strict, c, p) <==> Allowed(p, Trace(e, take, strict, Only(c)).state)
  {
    var a := Only(c);
    hide Exec, Trace, Among, Alike, Apart, Only;
    OnlyThat(c, Any, env);
    if !Trace(e, take, strict, a).ok {
      FaultIsReal(e, take, strict, c, env);
    } else {
      forall choices: seq<nat> ensures !Wrong(Exec(e, take, strict, choices, c)) {
        Holds(e, take, strict, choices, a, c);
      }
      forall p ensures Reaches(e, take, strict, c, p) <==> Allowed(p, Trace(e, take, strict, a).state) {
        if Allowed(p, Trace(e, take, strict, a).state) {
          PathIsReal(e, take, strict, c, p, env);
        } else if Reaches(e, take, strict, c, p) {
          var choices: seq<nat> :| var r := Exec(e, take, strict, choices, c); r.Next? && Meets(r.scopes, p);
          Holds(e, take, strict, choices, a, c);
          AmongAllows(Exec(e, take, strict, choices, c).scopes, Trace(e, take, strict, a).state, p);
        }
      }
    }
  }

  lemma AmongAllows(c: seq<Scope<bool>>, a: Paths, p: Pick)
    requires Among(c, a) && Meets(c, p)
    ensures Allowed(p, a)
  {
    if p.At? {
      assert AmongScope(c[p.i], a.scopes[p.i]);
    }
  }

  lemma FaultIsReal(e: Expr, take: bool, strict: bool, c: seq<Scope<bool>>, env: set<Local>)
    requires !Trace(e, take, strict, Only(c)).ok && (strict ==> Apart(c, env) && Named(e, env))
    ensures Faulty(e, take, strict, c)
  {
    hide Exec, Trace, Among, Apart, Only, Allowed, Meets;
    OnlyThat(c, Any, env);
    var p := Attained(e, take, strict, Only(c), Fault, env);
    OnlyThat(c, p, env);
    assert Attains(Whole(e, take), strict, c, Fault);
    var choices :| Wrong(Run(Whole(e, take), strict, choices, c));
    assert Wrong(Exec(e, take, strict, choices, c));
  }

  lemma PathIsReal(e: Expr, take: bool, strict: bool, c: seq<Scope<bool>>, q: Pick, env: set<Local>)
    requires Trace(e, take, strict, Only(c)).ok && Allowed(q, Trace(e, take, strict, Only(c)).state) && (strict ==> Apart(c, env) && Named(e, env))
    ensures Reaches(e, take, strict, c, q)
  {
    hide Exec, Trace, Among, Apart, Only, Allowed, Meets;
    OnlyThat(c, Any, env);
    var p := Attained(e, take, strict, Only(c), Through(q), env);
    OnlyThat(c, p, env);
    var way, c' := Gets(e, take, strict, Only(c), c, p, q);
    assert Run(Whole(e, take), strict, way + [], c) == Next(c', []);
    assert Exec(e, take, strict, way + [], c) == Next(c', []);
  }

  /** No run of a body uses a moved local if and only if following all paths
      through it finds no use of a local that may be gone. */
  lemma MovesExactly(body: Expr, params: seq<Local>)
    ensures (forall choices: seq<nat> :: !Exec(Planned(body, params), false, false, choices, Start(params)).UsedMoved?)
      <==> Trace(Planned(body, params), false, false, Only(Start(params))).ok
  {
    UsesExactly(Planned(body, params), false, Start(params));
  }

  /** No run of a body uses a moved local or leaves a scope with drops that are
      not those due, if and only if on all paths every drop list in it has exactly
      what is live there and nothing that is gone on another path. */
  lemma DropsExactly(body: Expr, params: seq<Local>)
    requires Named(body, Names(params))
    ensures (forall choices: seq<nat> :: !Wrong(Exec(Planned(body, params), false, true, choices, Start(params))))
      <==> Trace(Planned(body, params), false, true, Only(Start(params))).ok
  {
    ApartStart(params);
    NamedPlan(body, false, Params(params), Names(params));
    assert Named(Planned(body, params), Names(params));
    hide Exec, Trace, Only, Planned, Start, Apart;
    var e, c := Planned(body, params), Start(params);
    PathsAreExact(e, false, true, c, Names(params));
    if Faulty(e, false, true, c) {
      var choices: seq<nat> :| Wrong(Exec(e, false, true, choices, c));
      assert Wrong(Exec(e, false, true, choices, c));
    }
  }

  /** The analysis only fills in drops. */
  lemma {:induction false} NamedPlan(e: Expr, take: bool, s: State, env: set<Local>)
    ensures Named(Visit(e, take, s).node, env) == Named(e, env)
    decreases e
  {
    hide Merge, Agree, LoopOk, Live, LiveAll, Mention, Revive;
    match e
    case Lit =>
    case Var(x) => MentionNode(x, take, s);
    case Block(body, _) => NamedPlanStmts(body, take, Push(s), env);
    case If(cond, thn, els) =>
      var c := Visit(cond, false, s).state;
      NamedPlan(cond, false, s, env);
      NamedPlan(thn, take, c, env);
      NamedPlan(els, take, c, env);
    case Match(scrutinee, copy, arms) =>
      NamedPlan(scrutinee, !copy, s, env);
      NamedPlanArms(arms, take, Visit(scrutinee, !copy, s).state, env);
    case Loop(body) => NamedPlan(body, false, s, env);
    case While(cond, body) =>
      NamedPlan(cond, false, s, env);
      NamedPlan(body, false, Visit(cond, false, s).state, env);
    case Return(value, _) => NamedPlan(value, true, s, env);
    case Assign(_, value) => NamedPlan(value, true, s, env);
    case Apply(args, _) => NamedPlanArgs(args, s, env);
  }

  lemma {:induction false} NamedPlanStmts(st: Stmts, take: bool, s: State, env: set<Local>)
    requires s.scopes != []
    ensures NamedStmts(VisitStmts(st, take, s).node, env) == NamedStmts(st, env)
    decreases st
  {
    if s.reachable {
      match st
      case Tail(tail) => NamedPlan(tail, take, s, env);
      case Let(binds, copy, value, rest) =>
        var v := Visit(value, !copy, s).state;
        NamedPlan(value, !copy, s, env);
        NamedPlanStmts(rest, take, v.(scopes := Define(v.scopes, binds, Fresh)), env + Names(binds));
      case Do(e, copy, rest) =>
        NamedPlan(e, !copy, s, env);
        NamedPlanStmts(rest, take, Visit(e, !copy, s).state, env);
    }
  }

  lemma {:induction false} NamedPlanArgs(args: Args, s: State, env: set<Local>)
    ensures NamedArgs(VisitArgs(args, s).node, env) == NamedArgs(args, env)
    decreases args
  {
    match args
    case NoArgs =>
    case Arg(e, taken, rest) =>
      NamedPlan(e, taken, s, env);
      NamedPlanArgs(rest, Visit(e, taken, s).state, env);
  }

  lemma {:induction false} NamedPlanArms(arms: Arms, take: bool, s: State, env: set<Local>)
    ensures NamedArms(VisitArms(arms, take, s).0, env) == NamedArms(arms, env)
    decreases arms
  {
    match arms
    case NoArms =>
    case Arm(binds, guard, body, rest) =>
      NamedPlan(guard, false, Bound(s, binds), env + Names(binds));
      NamedPlan(body, take, Visit(guard, false, Bound(s, binds)).state, env + Names(binds));
      NamedPlanArms(rest, take, s, env);
  }

  lemma ApartStart(params: seq<Local>)
    ensures Apart(Start(params), Names(params))
  {
    ApartDeclare<bool>(params, [Scope(map[], [])], false, {}, {});
    assert {} + {} + Names(params) == Names(params);
  }

  // ---------------------------------------------------------------
  // the checker and the paths
  // ---------------------------------------------------------------

  /** On every path each local is live or gone. */
  predicate Filled(a: Paths) {
    forall i, x :: 0 <= i < |a.scopes| && x in a.scopes[i].vars ==> a.scopes[i].vars[x].live || a.scopes[i].vars[x].gone
  }

  /** Some run may be there with the demand met. */
  lemma Witness(a: Paths, p: Pick) returns (c: seq<Scope<bool>>)
    requires Filled(a) && Allowed(p, a)
    ensures Among(c, a) && Meets(c, p)
  {
    c := seq(|a.scopes|, i requires 0 <= i < |a.scopes| =>
      Scope(map x | x in a.scopes[i].vars :: if p.At? && p.i == i && p.x == x then p.gone else a.scopes[i].vars[x].gone, a.scopes[i].order));
    forall i | 0 <= i < |c| ensures AmongScope(c[i], a.scopes[i]) {
      assert c[i].vars.Keys == a.scopes[i].vars.Keys;
    }
  }

  predicate WithinScope(exact: bool, m: Scope<May>, s: Scope<Binding>) {
    && m.order == s.order && m.vars.Keys == s.vars.Keys
    && forall x :: x in s.vars ==>
      && x in s.order && (x.copy ==> !s.vars[x].moved)
      && (m.vars[x].gone ==> s.vars[x].moved)
      && (exact && m.vars[x].live ==> !s.vars[x].moved)
  }

  /** What may be gone is marked as moved; with `exact`, what may be live is not. */
  predicate WithinMarks(exact: bool, a: Paths, s: State) {
    && s.reachable && |a.scopes| == |s.scopes|
    && forall i :: 0 <= i < |a.scopes| ==> WithinScope(exact, a.scopes[i], s.scopes[i])
  }

  lemma MarksCover(exact: bool, a: Paths, s: State, c: seq<Scope<bool>>)
    requires WithinMarks(exact, a, s) && Among(c, a)
    ensures Covers(exact, c, s.scopes)
  {
    forall i | 0 <= i < |c| ensures CoversScope(exact, c[i], s.scopes[i]) {
      assert AmongScope(c[i], a.scopes[i]) && WithinScope(exact, a.scopes[i], s.scopes[i]);
    }
  }

  /** If from every path a run with each possible local gets somewhere covered. */
  lemma CoverMarks(exact: bool, a: Paths, s: State)
    requires s.reachable
    requires forall p :: Allowed(p, a) ==> exists c :: Among(c, a) && Meets(c, p) && Covers(exact, c, s.scopes)
    requires a.reached
    ensures WithinMarks(exact, a, s) && Filled(a)
  {
    assert Allowed(Any, a);
    var d :| Among(d, a) && Meets(d, Any) && Covers(exact, d, s.scopes);
    forall i | 0 <= i < |a.scopes| ensures WithinScope(exact, a.scopes[i], s.scopes[i]) {
      assert AmongScope(d[i], a.scopes[i]) && CoversScope(exact, d[i], s.scopes[i]);
      forall x | x in s.scopes[i].vars
        ensures (a.scopes[i].vars[x].gone ==> s.scopes[i].vars[x].moved) && (exact && a.scopes[i].vars[x].live ==> !s.scopes[i].vars[x].moved)
      {
        CoverOne(exact, a, s, i, x, true);
        CoverOne(exact, a, s, i, x, false);
      }
    }
    forall i, x | 0 <= i < |a.scopes| && x in a.scopes[i].vars ensures a.scopes[i].vars[x].live || a.scopes[i].vars[x].gone {
      assert AmongScope(d[i], a.scopes[i]);
    }
  }

  lemma CoverOne(exact: bool, a: Paths, s: State, i: nat, x: Local, gone: bool)
    requires a.reached && i < |a.scopes| == |s.scopes| && x in a.scopes[i].vars && x in s.scopes[i].vars
    requires Allowed(At(i, x, gone), a) ==> exists c :: Among(c, a) && Meets(c, At(i, x, gone)) && Covers(exact, c, s.scopes)
    ensures gone && a.scopes[i].vars[x].gone ==> s.scopes[i].vars[x].moved
    ensures !gone && exact && a.scopes[i].vars[x].live ==> !s.scopes[i].vars[x].moved
  {
    if Allowed(At(i, x, gone), a) {
      var c :| Among(c, a) && Meets(c, At(i, x, gone)) && Covers(exact, c, s.scopes);
      assert CoversScope(exact, c[i], s.scopes[i]);
    }
  }

  /** Of accepted regular code nothing is found on any path, and the paths after it
      are as the checker has marked them. */
  lemma NothingFound(e: Expr, take: bool, a: Paths, s: State)
    requires a.reached && Filled(a) && WithinMarks(false, a, s) && Regular(e, take, s, false) && Visit(e, take, s).ok
    ensures var t := Trace(Visit(e, take, s).node, take, false, a);
      t.ok && (t.state.reached ==> WithinMarks(false, t.state, Visit(e, take, s).state) && Filled(t.state))
  {
    var v := Visit(e, take, s);
    var t := Trace(v.node, take, false, a);
    hide Exec, Trace, Visit, Regular, Among, Filled, Meets, Covers, WithinMarks, Run, Allowed;
    if !t.ok {
      var p := Attained(v.node, take, false, a, Fault, {});
      var c := Witness(a, p);
      assert Attains(Whole(v.node, take), false, c, Fault);
      var choices :| Wrong(Run(Whole(v.node, take), false, choices, c));
      RunWhole(v.node, take, false, choices, c);
      MarksCover(false, a, s, c);
      MarksReach(false, a, s);
      Sound(e, take, false, false, choices, c, s);
      assert false;
    }
    if t.state.reached {
      forall p | Allowed(p, t.state) ensures v.state.reachable && exists c :: Among(c, t.state) && Meets(c, p) && Covers(false, c, v.state.scopes) {
        var c := CoveredEnd(e, take, a, s, p);
      }
      assert Allowed(Any, t.state) by { AnyAllowed(t.state); }
      CoverMarks(false, t.state, v.state);
    }
  }

  lemma AnyAllowed(a: Paths)
    requires a.reached
    ensures Allowed(Any, a)
  {
  }

  lemma MarksReach(exact: bool, a: Paths, s: State)
    requires WithinMarks(exact, a, s)
    ensures s.reachable
  {
  }

  lemma CoveredEnd(e: Expr, take: bool, a: Paths, s: State, q: Pick) returns (c': seq<Scope<bool>>)
    requires a.reached && Filled(a) && WithinMarks(false, a, s) && Regular(e, take, s, false) && Visit(e, take, s).ok
    requires var t := Trace(Visit(e, take, s).node, take, false, a); t.ok && Allowed(q, t.state)
    ensures Among(c', Trace(Visit(e, take, s).node, take, false, a).state) && Meets(c', q)
    ensures Visit(e, take, s).state.reachable && Covers(false, c', Visit(e, take, s).state.scopes)
  {
    var v := Visit(e, take, s);
    hide Exec, Trace, Visit, Regular, Among, Filled, Meets, Covers, WithinMarks, Run, Allowed;
    var p := Attained(v.node, take, false, a, Through(q), {});
    var c := Witness(a, p);
    var way;
    way, c' := Gets(v.node, take, false, a, c, p, q);
    assert Run(Whole(v.node, take), false, way + [], c) == Next(c', []);
    RunWhole(v.node, take, false, way + [], c);
    MarksCover(false, a, s, c);
    MarksReach(false, a, s);
    Sound(e, take, false, false, way + [], c, s);
  }

  // ---------------------------------------------------------------
  // guards of match arms
  // ---------------------------------------------------------------

  /** For each arm: nothing is found in the arms behind it on the paths its guard
      leaves when it fails. */
  predicate Later(arms: Arms, take: bool, a: Paths) {
    arms.Arm? ==>
      && TraceArms(arms.rest, take, false, PopPaths(Trace(arms.guard, false, false, EnterPaths(a, arms.binds)).state)).ok
      && Later(arms.rest, take, a)
  }

  /** Scrutinee, guards and bodies are regular, each from where the checker starts
      it; guards may move and assign what they like. */
  predicate PartsRegular(arms: Arms, take: bool, s: State) {
    arms.Arm? ==>
      var start := Bound(s, arms.binds);
      && Regular(arms.guard, false, start, false)
      && Regular(arms.body, take, Visit(arms.guard, false, start).state, false)
      && PartsRegular(arms.rest, take, s)
  }

  /** Nothing is found in a guard or a body, each from before the first arm. */
  predicate PartsOk(arms: Arms, take: bool, a: Paths) {
    arms.Arm? ==>
      var g := Trace(arms.guard, false, false, EnterPaths(a, arms.binds));
      g.ok && Trace(arms.body, take, false, g.state).ok && PartsOk(arms.rest, take, a)
  }

  ghost predicate FaultyArms(arms: Arms, take: bool, c: seq<Scope<bool>>) {
    exists choices: seq<nat> :: Wrong(ExecArms(arms, take, false, choices, c))
  }

  lemma FaultInArms(arms: Arms, take: bool, a: Paths) returns (p: Pick)
    requires a.reached && Filled(a) && !TraceArms(arms, take, false, a).ok
    ensures Allowed(p, a)
    ensures forall c: seq<Scope<bool>> :: Among(c, a) && Meets(c, p) ==> FaultyArms(arms, take, c)
  {
    hide TraceArms, Among, Meets, Allowed, ExecArms;
    p := AttainedArms(arms, take, false, a, Fault, {});
    forall c: seq<Scope<bool>> | Among(c, a) && Meets(c, p) ensures FaultyArms(arms, take, c) {
      assert Attains(Cases(arms, take), false, c, Fault);
      var choices :| Wrong(Run(Cases(arms, take), false, choices, c));
      assert Wrong(ExecArms(arms, take, false, choices, c));
    }
  }

  /** Following two groups of paths together finds what following each finds. */
  lemma Distribute(arms: Arms, take: bool, a: Paths, b: Paths)
    requires a.reached && b.reached && Filled(a) && Filled(b) && Alike(a.scopes, b.scopes)
    ensures TraceArms(arms, take, false, Join(a, b)).ok <==> TraceArms(arms, take, false, a).ok && TraceArms(arms, take, false, b).ok
  {
    JoinFilled(a, b);
    hide TraceArms, Among, Meets, Allowed, ExecArms, Filled, Join, Alike;
    if !TraceArms(arms, take, false, Join(a, b)).ok {
      var p := FaultInArms(arms, take, Join(a, b));
      Unjoin(a, b, p);
      var part := if Allowed(p, a) then a else b;
      var c := Witness(part, p);
      HoldsJoin(a, b, c);
      assert FaultyArms(arms, take, c);
      var choices: seq<nat> :| Wrong(ExecArms(arms, take, false, choices, c));
      HoldsArms(arms, take, false, choices, part, c);
    } else {
      OnePart(arms, take, a, a, b);
      OnePart(arms, take, b, a, b);
    }
  }

  lemma OnePart(arms: Arms, take: bool, part: Paths, a: Paths, b: Paths)
    requires part.reached && Filled(part) && Alike(a.scopes, b.scopes) && (part == a || part == b)
    requires TraceArms(arms, take, false, Join(a, b)).ok
    ensures TraceArms(arms, take, false, part).ok
  {
    hide TraceArms, Among, Meets, Allowed, ExecArms, Filled, Join, Alike;
    if !TraceArms(arms, take, false, part).ok {
      var p := FaultInArms(arms, take, part);
      var c := Witness(part, p);
      HoldsJoin(a, b, c);
      assert FaultyArms(arms, take, c);
      var choices: seq<nat> :| Wrong(ExecArms(arms, take, false, choices, c));
      HoldsArms(arms, take, false, choices, Join(a, b), c);
    }
  }

  lemma JoinFilled(a: Paths, b: Paths)
    requires Filled(a) && Filled(b)
    ensures Filled(Join(a, b))
  {
    var j := Join(a, b);
    forall i, x | 0 <= i < |j.scopes| && x in j.scopes[i].vars ensures j.scopes[i].vars[x].live || j.scopes[i].vars[x].gone {
      assert i < |a.scopes| && x in a.scopes[i].vars ==> a.scopes[i].vars[x].live || a.scopes[i].vars[x].gone;
    }
  }

  lemma FilledAfter(e: Expr, take: bool, a: Paths)
    requires Filled(a) && Trace(e, take, false, a).ok && Trace(e, take, false, a).state.reached
    ensures Filled(Trace(e, take, false, a).state)
  {
    var t := Trace(e, take, false, a).state;
    hide Trace;
    AnyAllowed(t);
    var p := Attained(e, take, false, a, Through(Any), {});
    var c := Witness(a, p);
    var way, c' := Gets(e, take, false, a, c, p, Any);
    forall i, x | 0 <= i < |t.scopes| && x in t.scopes[i].vars ensures t.scopes[i].vars[x].live || t.scopes[i].vars[x].gone {
      assert AmongScope(c'[i], t.scopes[i]);
    }
  }

  lemma {:induction false} FilledDeclare(binds: seq<Local>, a: Paths)
    requires a.scopes != [] && Filled(a)
    ensures Filled(Declare(a, binds))
    decreases |binds|
  {
    if binds != [] {
      var n, x := |a.scopes| - 1, binds[0];
      var a' := a.(scopes := a.scopes[n := Scope(a.scopes[n].vars[x := Added], a.scopes[n].order + [x])]);
      FilledDeclare(binds[1..], a');
      assert Declare(a, binds) == Declare(a', binds[1..]);
    }
  }

  lemma FilledEnter(binds: seq<Local>, a: Paths)
    requires Filled(a)
    ensures Filled(EnterPaths(a, binds))
  {
    assert Filled(PushPaths(a));
    hide Filled;
    FilledDeclare(binds, PushPaths(a));
  }

  /** Following the arms in order finds nothing if and only if nothing is found
      behind any failed guard. */
  lemma {:induction false} ArmsSplit(arms: Arms, take: bool, a: Paths)
    requires a.reached && Filled(a) && PartsOk(arms, take, a)
    ensures TraceArms(arms, take, false, a).ok <==> Later(arms, take, a)
    decreases arms
  {
    if arms.Arm? {
      ArmShapes(arms, take, false, a);
      hide Filled, Alike, Trace, Join, EnterPaths;
      var g := Trace(arms.guard, false, false, EnterPaths(a, arms.binds));
      ShapeLength(EnterPaths(a, arms.binds), g.state);
      var failed := PopPaths(g.state);
      ArmsSplit(arms.rest, take, a);
      if failed.reached {
        FilledEnter(arms.binds, a);
        FilledAfter(arms.guard, false, EnterPaths(a, arms.binds));
        FilledPop(g.state);
        Distribute(arms.rest, take, a, failed);
      } else {
        JoinNowhere(a, failed);
      }
    }
  }

  lemma FilledPop(a: Paths)
    requires a.scopes != [] && Filled(a)
    ensures Filled(PopPaths(a))
  {
  }

  lemma JoinNowhere(a: Paths, b: Paths)
    requires a.reached && !b.reached
    ensures Join(a, b) == a
  {
  }

  lemma {:induction false} WithinDeclare(binds: seq<Local>, a: Paths, s: State)
    requires a.scopes != [] && WithinMarks(false, a, s)
    ensures WithinMarks(false, Declare(a, binds), s.(scopes := Define(s.scopes, binds, Fresh)))
    decreases |binds|
  {
    if binds != [] {
      var n, x := |a.scopes| - 1, binds[0];
      var a' := a.(scopes := a.scopes[n := Scope(a.scopes[n].vars[x := Added], a.scopes[n].order + [x])]);
      var s' := s.(scopes := s.scopes[n := Scope(s.scopes[n].vars[x := Fresh], s.scopes[n].order + [x])]);
      assert WithinScope(false, a.scopes[n], s.scopes[n]);
      forall i | 0 <= i < |a.scopes| ensures WithinScope(false, a'.scopes[i], s'.scopes[i]) {
        assert WithinScope(false, a.scopes[i], s.scopes[i]);
      }
      WithinDeclare(binds[1..], a', s');
      assert Declare(a, binds) == Declare(a', binds[1..]);
    }
  }

  lemma WithinEnter(binds: seq<Local>, a: Paths, s: State)
    requires WithinMarks(false, a, s)
    ensures WithinMarks(false, EnterPaths(a, binds), Bound(s, binds))
  {
    var a', s' := PushPaths(a), Push(s);
    forall i | 0 <= i < |a'.scopes| ensures WithinScope(false, a'.scopes[i], s'.scopes[i]) {
      if i < |a.scopes| {
        assert WithinScope(false, a.scopes[i], s.scopes[i]);
      }
    }
    WithinDeclare(binds, a', s');
  }

  lemma {:induction false} PartsFine(arms: Arms, take: bool, a: Paths, s: State)
    requires a.reached && Filled(a) && WithinMarks(false, a, s) && PartsRegular(arms, take, s) && VisitArms(arms, take, s).2
    ensures PartsOk(VisitArms(arms, take, s).0, take, a)
    decreases arms
  {
    hide Filled, WithinMarks, Trace, Visit, Bound, EnterPaths, Regular;
    if arms.Arm? {
      var start := Bound(s, arms.binds);
      WithinEnter(arms.binds, a, s);
      FilledEnter(arms.binds, a);
      NothingFound(arms.guard, false, EnterPaths(a, arms.binds), start);
      var v := Visit(arms.guard, false, start);
      var g := Trace(v.node, false, false, EnterPaths(a, arms.binds));
      if g.state.reached {
        NothingFound(arms.body, take, g.state, v.state);
      } else {
        TraceNowhere(Visit(arms.body, take, v.state).node, take, g.state);
      }
      PartsFine(arms.rest, take, a, s);
    }
  }

  lemma TraceNowhere(e: Expr, take: bool, a: Paths)
    requires !a.reached
    ensures Trace(e, take, false, a).ok
  {
  }

  lemma OnlyWithin(c: seq<Scope<bool>>, s: State)
    requires s.reachable && Covers(false, c, s.scopes)
    ensures WithinMarks(false, Only(c), s)
  {
    var a := Only(c);
    forall i | 0 <= i < |c| ensures WithinScope(false, a.scopes[i], s.scopes[i]) {
      assert CoversScope(false, c[i], s.scopes[i]);
    }
  }

  /** For an accepted match with regular parts, whatever its guards move: no run
      uses a moved local if and only if for each arm nothing is found in the arms
      behind it, followed from where its guard leaves things when it fails. The
      checker follows them from before the first guard. */
  lemma GuardsAreExact(e: Expr, take: bool, c0: seq<Scope<bool>>, s: State)
    requires e.Match? && s.reachable && Covers(false, c0, s.scopes) && Visit(e, take, s).ok
    requires Regular(e.scrutinee, !e.copy, s, false) && PartsRegular(e.arms, take, Visit(e.scrutinee, !e.copy, s).state)
    ensures var m := Visit(e, take, s).node;
      (forall choices: seq<nat> :: !Exec(m, take, false, choices, c0).UsedMoved?)
      <==> Later(m.arms, take, Trace(m.scrutinee, !m.copy, false, Only(c0)).state)
  {
    var k := Visit(e.scrutinee, !e.copy, s);
    var m := Visit(e, take, s).node;
    assert m == Match(k.node, e.copy, VisitArms(e.arms, take, k.state).0) && k.ok && VisitArms(e.arms, take, k.state).2;
    hide Visit, VisitArms, Regular, PartsRegular, Covers, Only, WithinMarks, Filled;
    OnlyWithin(c0, s);
    OnlyThat(c0, Any, {});
    OnlyReached(c0);
    NothingFound(e.scrutinee, !e.copy, Only(c0), s);
    var t := Trace(k.node, !e.copy, false, Only(c0));
    assert Trace(m, take, false, Only(c0)).ok == TraceArms(m.arms, take, false, t.state).ok;
    if t.state.reached {
      PartsFine(e.arms, take, t.state, k.state);
      ArmsSplit(m.arms, take, t.state);
    } else {
      LaterNowhere(m.arms, take, t.state);
    }
    hide Exec, Trace, TraceArms, Later;
    UsesExactly(m, take, c0);
  }

  lemma OnlyReached(c: seq<Scope<bool>>)
    ensures Only(c).reached
  {
  }

  lemma {:induction false} LaterNowhere(arms: Arms, take: bool, a: Paths)
    requires !a.reached
    ensures Later(arms, take, a)
  {
    if arms.Arm? {
      LaterNowhere(arms.rest, take, a);
    }
  }

  /** The same for any expression: no run uses a moved local if and only if
      following all paths finds no use of one. */
  lemma UsesExactly(e: Expr, take: bool, c: seq<Scope<bool>>)
    ensures (forall choices: seq<nat> :: !Exec(e, take, false, choices, c).UsedMoved?) <==> Trace(e, take, false, Only(c)).ok
  {
    hide Exec, Trace, Only;
    PathsAreExact(e, take, false, c, {});
    if Faulty(e, take, false, c) {
      var choices: seq<nat> :| Wrong(Exec(e, take, false, choices, c));
      Loosely(e, take, choices, c);
      assert Exec(e, take, false, choices, c).UsedMoved?;
    } else {
      forall choices: seq<nat> ensures !Exec(e, take, false, choices, c).UsedMoved? {
        assert !Wrong(Exec(e, take, false, choices, c));
      }
    }
  }

  // ---------------------------------------------------------------
  // the end of a block
  // ---------------------------------------------------------------

  /** At the end of the block no local that is marked as moved is live on some
      path. A loop or a guard that gives back a local moved before it makes one so,
      until it is assigned or moved again. */
  predicate NothingGivenBack(a: Paths, s: State, n: nat) {
    a.reached ==>
      forall x :: n < |a.scopes| && x in a.scopes[n].vars && x in a.scopes[n].order && !x.copy && MovedIn(s, n, x) ==> !a.scopes[n].vars[x].live
  }

  lemma RightList(m: Scope<May>, s: Scope<Binding>)
    requires WithinScope(false, m, s) && (forall x :: x in m.vars ==> m.vars[x].live || m.vars[x].gone)
    ensures Settled(m) && Due(s.order, Live(s)) == Due(m.order, MayOwn(m))
      <==> forall x :: x in m.vars && x in m.order && !x.copy && s.vars[x].moved ==> !m.vars[x].live
  {
    if forall x :: x in m.vars && x in m.order && !x.copy && s.vars[x].moved ==> !m.vars[x].live {
      SameDue(m.order, Live(s), MayOwn(m));
    } else if Due(s.order, Live(s)) == Due(m.order, MayOwn(m)) {
      var x :| x in m.vars && x in m.order && !x.copy && s.vars[x].moved && m.vars[x].live;
      DueMember(m.order, Live(s), x);
      DueMember(m.order, MayOwn(m), x);
    }
  }

  /** The paths to the end of accepted regular statements are as marked, also where
      drop lists are looked at. */
  lemma StmtsWithin(st: Stmts, take: bool, a: Paths, s: State, env: set<Local>)
    requires a.reached && a.scopes != [] && Filled(a) && WithinMarks(false, a, s) && s.scopes != []
    requires RegularStmts(st, take, s, false) && VisitStmts(st, take, s).ok
    requires var t := TraceStmts(VisitStmts(st, take, s).node, take, true, a); t.ok && t.state.reached
    requires Apart(a.scopes, env) && NamedStmts(VisitStmts(st, take, s).node, env)
    ensures var t := TraceStmts(VisitStmts(st, take, s).node, take, true, a);
      WithinMarks(false, t.state, VisitStmts(st, take, s).state) && Filled(t.state)
  {
    var v := VisitStmts(st, take, s);
    var t := TraceStmts(v.node, take, true, a);
    hide ExecStmts, TraceStmts, VisitStmts, RegularStmts, Among, Filled, Meets, Covers, WithinMarks, Allowed, Apart, NamedStmts;
    forall p | Allowed(p, t.state) ensures v.state.reachable && exists c :: Among(c, t.state) && Meets(c, p) && Covers(false, c, v.state.scopes) {
      var c := StmtsEnd(st, take, a, s, p, env);
    }
    AnyAllowed(t.state);
    CoverMarks(false, t.state, v.state);
  }

  lemma StmtsEnd(st: Stmts, take: bool, a: Paths, s: State, q: Pick, env: set<Local>) returns (c': seq<Scope<bool>>)
    requires a.reached && a.scopes != [] && Filled(a) && WithinMarks(false, a, s) && s.scopes != []
    requires RegularStmts(st, take, s, false) && VisitStmts(st, take, s).ok
    requires var t := TraceStmts(VisitStmts(st, take, s).node, take, true, a); t.ok && Allowed(q, t.state)
    requires Apart(a.scopes, env) && NamedStmts(VisitStmts(st, take, s).node, env)
    ensures Among(c', TraceStmts(VisitStmts(st, take, s).node, take, true, a).state) && Meets(c', q)
    ensures VisitStmts(st, take, s).state.reachable && Covers(false, c', VisitStmts(st, take, s).state.scopes)
  {
    var v := VisitStmts(st, take, s);
    hide ExecStmts, TraceStmts, VisitStmts, RegularStmts, Among, Filled, Meets, Covers, WithinMarks, Allowed, Apart, NamedStmts;
    var p := AttainedStmts(v.node, take, true, a, Through(q), env);
    var c := Witness(a, p);
    AmongLength(c, a);
    var way;
    way, c' := GetsStmts(v.node, take, true, a, c, p, q);
    assert Run(Rest(v.node, take), true, way + [], c) == Next(c', []);
    LooselyStmts(v.node, take, way + [], c);
    MarksCover(false, a, s, c);
    MarksReach(false, a, s);
    SoundStmts(st, take, false, false, way + [], c, s);
  }

  /** For an accepted block, regular for moves, in which no inner exit has wrong
      drops: no run leaves the block with the wrong drops if and only if nothing
      that is marked as moved at its end is live there on some path. */
  lemma BlockEndIsExact(e: Expr, take: bool, c0: seq<Scope<bool>>, s: State, env: set<Local>)
    requires e.Block? && s.reachable && Covers(false, c0, s.scopes) && Visit(e, take, s).ok && Regular(e, take, s, false)
    requires Apart(c0, env) && Named(e, env)
    requires TraceStmts(VisitStmts(e.body, take, Push(s)).node, take, true, PushPaths(Only(c0))).ok
    ensures (forall choices: seq<nat> :: !Exec(Visit(e, take, s).node, take, true, choices, c0).WrongDrops?)
      <==> NothingGivenBack(TraceStmts(VisitStmts(e.body, take, Push(s)).node, take, true, PushPaths(Only(c0))).state,
                            VisitStmts(e.body, take, Push(s)).state, |s.scopes|)
  {
    var v, n := VisitStmts(e.body, take, Push(s)), |s.scopes|;
    var m := Visit(e, take, s).node;
    var a := PushPaths(Only(c0));
    var t := TraceStmts(v.node, take, true, a);
    assert v.ok && RegularStmts(e.body, take, Push(s), false);
    assert m == Block(v.node, if v.state.reachable then Due(v.state.scopes[n].order, Live(v.state.scopes[n])) else []);
    NamedPlan(e, take, s, env);
    CoversLength(false, c0, s.scopes);
    BlockStart(c0, s, env);
    BlockEnd(m, v, t, take, c0, n);
    hide Visit, VisitStmts, Regular, RegularStmts, Covers, Only, WithinMarks, Filled, TraceStmts, Exec, NothingGivenBack, Apart;
    if t.state.reached {
      StmtsWithin(e.body, take, a, Push(s), env);
      EndList(m, v.state, t, n);
    } else {
      NowhereBack(t.state, v.state, n);
    }
    PathsAreExact(m, take, true, c0, env);
    OnlyDropsWrong(e, take, c0, s);
  }

  lemma BlockStart(c0: seq<Scope<bool>>, s: State, env: set<Local>)
    requires s.reachable && Covers(false, c0, s.scopes) && Apart(c0, env)
    ensures var a := PushPaths(Only(c0)); a.reached && Filled(a) && WithinMarks(false, a, Push(s)) && Apart(a.scopes, env)
  {
    OnlyThat(c0, Any, env);
    OnlyWithin(c0, s);
    var a, b := Only(c0), PushPaths(Only(c0));
    forall i | 0 <= i < |b.scopes| ensures WithinScope(false, b.scopes[i], Push(s).scopes[i]) {
      if i < |a.scopes| {
        assert WithinScope(false, a.scopes[i], s.scopes[i]);
      }
    }
  }

  lemma BlockEnd(m: Expr, v: Out<Stmts>, t: Traced, take: bool, c0: seq<Scope<bool>>, n: nat)
    requires m.Block? && m.body == v.node && n == |c0| && t == TraceStmts(v.node, take, true, PushPaths(Only(c0))) && t.ok
    ensures n < |t.state.scopes|
    ensures Trace(m, take, true, Only(c0)).ok <==>
      (t.state.reached ==> Settled(t.state.scopes[n]) && m.drops == Due(t.state.scopes[n].order, MayOwn(t.state.scopes[n])))
  {
  }

  lemma EndList(m: Expr, s: State, t: Traced, n: nat)
    requires m.Block? && t.state.reached && WithinMarks(false, t.state, s) && Filled(t.state) && n < |t.state.scopes|
    requires n < |s.scopes| && m.drops == if s.reachable then Due(s.scopes[n].order, Live(s.scopes[n])) else []
    ensures Settled(t.state.scopes[n]) && m.drops == Due(t.state.scopes[n].order, MayOwn(t.state.scopes[n])) <==> NothingGivenBack(t.state, s, n)
  {
    var x, y := t.state.scopes[n], s.scopes[n];
    assert WithinScope(false, x, y);
    RightList(x, y);
  }

  lemma NowhereBack(a: Paths, s: State, n: nat)
    requires !a.reached
    ensures NothingGivenBack(a, s, n)
  {
  }

  /** Runs of accepted regular code use no moved local, so a fault is a wrong drop. */
  lemma OnlyDropsWrong(e: Expr, take: bool, c0: seq<Scope<bool>>, s: State)
    requires s.reachable && Covers(false, c0, s.scopes) && Visit(e, take, s).ok && Regular(e, take, s, false)
    ensures (forall choices: seq<nat> :: !Exec(Visit(e, take, s).node, take, true, choices, c0).WrongDrops?)
      <==> !Faulty(Visit(e, take, s).node, take, true, c0)
  {
    var m := Visit(e, take, s).node;
    hide Exec, Visit, Regular, Covers;
    if Faulty(m, take, true, c0) {
      var choices: seq<nat> :| Wrong(Exec(m, take, true, choices, c0));
      Loosely(m, take, choices, c0);
      Sound(e, take, false, false, choices, c0, s);
      assert Exec(m, take, true, choices, c0).WrongDrops?;
    } else {
      forall choices: seq<nat> ensures !Exec(m, take, true, choices, c0).WrongDrops? {
        assert !Wrong(Exec(m, take, true, choices, c0));
      }
    }
  }
}
