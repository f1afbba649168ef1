/** What is found by following all paths is real: for every path some run takes
    it. So the condition is exact, for every body. */
module PathExactness {
  import opened Borrow
  import opened PathAnalysis
  import opened PathSoundness
  import opened PassingRuns

  // ---------------------------------------------------------------
  // goals of a run
  // ---------------------------------------------------------------

  /** A demand on where a run is: none, or that a local is gone or live. */
  datatype Pick = Any | At(i: nat, x: Local, gone: bool)

  predicate Meets(c: seq<Scope<bool>>, p: Pick) {
    p.At? ==> p.i < |c| && p.x in c[p.i].vars && c[p.i].vars[p.x] == p.gone
  }

  /** Some path meets the demand. */
  predicate Allowed(p: Pick, a: Paths) {
    && a.reached
    && (p.At? ==>
      && p.i < |a.scopes| && p.x in a.scopes[p.i].vars
      && if p.gone then a.scopes[p.i].vars[p.x].gone else a.scopes[p.i].vars[p.x].live)
  }

  /** A fault, or to get through with a demand met. */
  datatype Goal = Fault | Through(p: Pick)

  predicate Possible(goal: Goal, t: Traced) {
    match goal
    case Fault => !t.ok
    case Through(p) => t.ok && Allowed(p, t.state)
  }

  ghost predicate Attains(code: Code, strict: bool, c: seq<Scope<bool>>, goal: Goal) {
    match goal
    case Fault => exists choices :: Wrong(Run(code, strict, choices, c))
    case Through(p) => exists way, c' :: Passes(code, strict, c, way, c') && Meets(c', p)
  }

  /** From wherever on these paths the demand is met, some run attains the goal. */
  ghost predicate Surely(code: Code, strict: bool, a: Paths, p: Pick, goal: Goal) {
    forall c: seq<Scope<bool>> :: Among(c, a) && Meets(c, p) ==> Attains(code, strict, c, goal)
  }

  lemma Onward(code: Code, strict: bool, c: seq<Scope<bool>>, way: seq<nat>, code': Code, c': seq<Scope<bool>>, goal: Goal)
    requires Leads(code, strict, c, way, code', c') && Attains(code', strict, c', goal)
    ensures Attains(code, strict, c, goal)
  {
    hide Run;
    match goal
    case Fault =>
      var choices :| Wrong(Run(code', strict, choices, c'));
      assert Wrong(Run(code, strict, way + choices, c));
    case Through(p) =>
      var way', c1 :| Passes(code', strict, c', way', c1) && Meets(c1, p);
      PassesThen(code, strict, c, way, code', c', way', c1);
  }

  /** A run that gets through stays on the paths. */
  lemma Gets(e: Expr, take: bool, strict: bool, a: Paths, c: seq<Scope<bool>>, p: Pick, q: Pick) returns (way: seq<nat>, c': seq<Scope<bool>>)
    requires Surely(Whole(e, take), strict, a, p, Through(q)) && Among(c, a) && Meets(c, p) && Trace(e, take, strict, a).ok
    ensures Passes(Whole(e, take), strict, c, way, c') && Meets(c', q) && Among(c', Trace(e, take, strict, a).state)
  {
    way, c' :| Passes(Whole(e, take), strict, c, way, c') && Meets(c', q);
    assert Run(Whole(e, take), strict, way + [], c) == Next(c', []);
    hide Among, Meets;
    Holds(e, take, strict, way + [], a, c);
  }

  /** A fault in the first part is one in the whole. */
  lemma FirstFault(e: Expr, take: bool, code: Code, strict: bool, a: Paths, p: Pick)
    requires Surely(Whole(e, take), strict, a, p, Fault)
    requires forall c: seq<Scope<bool>>, choices: seq<nat> :: |c| == |a.scopes| && Wrong(Exec(e, take, strict, choices, c)) ==> Wrong(Run(code, strict, choices, c))
    ensures Surely(code, strict, a, p, Fault)
  {
    hide Run, Exec;
    forall c: seq<Scope<bool>> | Among(c, a) && Meets(c, p) ensures Attains(code, strict, c, Fault) {
      AmongLength(c, a);
      assert Attains(Whole(e, take), strict, c, Fault);
      var choices :| Wrong(Run(Whole(e, take), strict, choices, c));
      assert Wrong(Exec(e, take, strict, choices, c)) by { RunWhole(e, take, strict, choices, c); }
      assert Wrong(Run(code, strict, choices, c));
    }
  }

  // ---------------------------------------------------------------
  // demands across declarations and joins
  // ---------------------------------------------------------------

  /** A new local is live, so no demand on it has to be passed on. */
  lemma {:induction false} Undeclare(binds: seq<Local>, a: Paths, p: Pick) returns (q: Pick)
    requires a.scopes != [] && Allowed(p, Declare(a, binds))
    ensures Allowed(q, a) && forall c: seq<Scope<bool>> :: Among(c, a) && Meets(c, q) ==> c != [] && Meets(Define(c, binds, false), p)
    decreases |binds|
  {
    if binds == [] {
      q := p;
    } else {
      var n, x := |a.scopes| - 1, binds[0];
      var a' := a.(scopes := a.scopes[n := Scope(a.scopes[n].vars[x := Added], a.scopes[n].order + [x])]);
      assert Declare(a, binds) == Declare(a', binds[1..]);
      hide Among, Meets, Allowed, Declare;
      var q' := Undeclare(binds[1..], a', p);
      q := if q'.At? && q'.i == n && q'.x == x then Any else q';
      AllowedOne(a, x, q');
      forall c: seq<Scope<bool>> | Among(c, a) && Meets(c, q) ensures c != [] && Meets(Define(c, binds, false), p) {
        AmongLength(c, a);
        MeetsOne(c, x, q');
        AmongOne(c, a, x);
      }
    }
  }

  lemma AllowedOne(a: Paths, x: Local, q: Pick)
    requires a.scopes != []
    requires var n := |a.scopes| - 1; Allowed(q, a.(scopes := a.scopes[n := Scope(a.scopes[n].vars[x := Added], a.scopes[n].order + [x])]))
    ensures Allowed(if q.At? && q.i == |a.scopes| - 1 && q.x == x then Any else q, a)
    ensures q.At? && q.i == |a.scopes| - 1 && q.x == x ==> !q.gone
  {
  }

  lemma MeetsOne(c: seq<Scope<bool>>, x: Local, q: Pick)
    requires c != [] && Meets(c, if q.At? && q.i == |c| - 1 && q.x == x then Any else q) && (q.At? && q.i == |c| - 1 && q.x == x ==> !q.gone)
    ensures var n := |c| - 1; Meets(c[n := Scope(c[n].vars[x := false], c[n].order + [x])], q)
  {
  }

  lemma AmongOne(c: seq<Scope<bool>>, a: Paths, x: Local)
    requires c != [] && Among(c, a)
    ensures var n := |c| - 1;
      Among(c[n := Scope(c[n].vars[x := false], c[n].order + [x])],
            a.(scopes := a.scopes[n := Scope(a.scopes[n].vars[x := Added], a.scopes[n].order + [x])]))
  {
    HoldsDeclare([x], a, c);
    var n := |c| - 1;
    assert Define(c[n := Scope(c[n].vars[x := false], c[n].order + [x])], [], false) == c[n := Scope(c[n].vars[x := false], c[n].order + [x])];
    assert [x][1..] == [];
  }

  lemma Unpush(a: Paths, p: Pick)
    requires Allowed(p, PushPaths(a))
    ensures Allowed(p, a) && forall c: seq<Scope<bool>> :: Among(c, a) && Meets(c, p) ==> Meets(c + [Scope(map[], [])], p)
  {
  }

  lemma Unenter(binds: seq<Local>, a: Paths, p: Pick) returns (q: Pick)
    requires Allowed(p, EnterPaths(a, binds))
    ensures Allowed(q, a) && forall c: seq<Scope<bool>> :: Among(c, a) && Meets(c, q) ==> Meets(Enter(c, binds), p)
  {
    q := Undeclare(binds, PushPaths(a), p);
    Unpush(a, q);
    forall c: seq<Scope<bool>> | Among(c, a) && Meets(c, q) ensures Meets(Enter(c, binds), p) {
      HoldsPush(a, c);
      hide Among, Meets, Define;
      assert Meets(c + [Scope(map[], [])], q);
    }
  }

  lemma Unpop(a: Paths, p: Pick)
    requires a.scopes != [] && Allowed(p, PopPaths(a))
    ensures Allowed(p, a) && forall c: seq<Scope<bool>> :: Among(c, a) && Meets(c, p) ==> c != [] && Meets(c[..|c| - 1], p)
  {
    forall c: seq<Scope<bool>> | Among(c, a) && Meets(c, p) ensures c != [] && Meets(c[..|c| - 1], p) {
      if p.At? {
        assert c[..|c| - 1][p.i] == c[p.i];
      }
    }
  }

  lemma Unjoin(a: Paths, b: Paths, p: Pick)
    requires Alike(a.scopes, b.scopes) && Allowed(p, Join(a, b))
    ensures Allowed(p, a) || Allowed(p, b)
  {
  }

  // ---------------------------------------------------------------
  // every declaration has an identity of its own
  // ---------------------------------------------------------------

  predicate Named(e: Expr, env: set<Local>) {
    match e
    case Lit => true
    case Var(_) => true
    case Block(body, _) => NamedStmts(body, env)
    case If(cond, thn, els) => Named(cond, env) && Named(thn, env) && Named(els, env)
    case Match(scrutinee, _, arms) => Named(scrutinee, env) && NamedArms(arms, env)
    case Loop(body) => Named(body, env)
    case While(cond, body) => Named(cond, env) && Named(body, env)
    case Return(value, _) => Named(value, env)
    case Assign(_, value) => Named(value, env)
    case Apply(args, _) => NamedArgs(args, env)
  }

  predicate NamedStmts(st: Stmts, env: set<Local>) {
    match st
    case Tail(tail) => Named(tail, env)
    case Let(binds, _, value, rest) => Named(value, env) && Names(binds) !! env && NamedStmts(rest, env + Names(binds))
    case Do(e, _, rest) => Named(e, env) && NamedStmts(rest, env)
  }

  predicate NamedArgs(args: Args, env: set<Local>) {
    match args
    case NoArgs => true
    case Arg(e, _, rest) => Named(e, env) && NamedArgs(rest, env)
  }

  predicate NamedArms(arms: Arms, env: set<Local>) {
    match arms
    case NoArms => true
    case Arm(binds, guard, body, rest) =>
      && Names(binds) !! env && Named(guard, env + Names(binds)) && Named(body, env + Names(binds))
      && NamedArms(rest, env)
  }

  /** No local is bound in two scopes, and all are in `env`. */
  predicate Apart<T>(scopes: seq<Scope<T>>, env: set<Local>) {
    && (forall i, x :: 0 <= i < |scopes| && x in scopes[i].vars ==> x in env)
    && (forall i, j, x :: 0 <= i < j < |scopes| && x in scopes[i].vars ==> x !in scopes[j].vars)
  }

  lemma StillApart<S, T>(a: seq<Scope<S>>, b: seq<Scope<T>>, env: set<Local>)
    requires Alike(a, b) && Apart(a, env)
    ensures Apart(b, env)
  {
    forall i, x | 0 <= i < |b| && x in b[i].vars ensures x in a[i].vars {
      assert x in b[i].vars.Keys;
    }
  }

  lemma {:induction false} ApartDeclare<T>(binds: seq<Local>, a: seq<Scope<T>>, m: T, env: set<Local>, more: set<Local>)
    requires a != [] && Apart(a, env + more) && Names(binds) !! env
    requires forall x :: x in more ==> forall i :: 0 <= i < |a| - 1 ==> x !in a[i].vars
    requires forall i, x :: 0 <= i < |a| - 1 && x in a[i].vars ==> x in env
    ensures Apart(Define(a, binds, m), env + more + Names(binds))
    decreases |binds|
  {
    if binds == [] {
      assert env + more + Names(binds) == env + more;
    } else {
      var n, x := |a| - 1, binds[0];
      var a' := a[n := Scope(a[n].vars[x := m], a[n].order + [x])];
      assert x in Names(binds);
      assert Names(binds[1..]) <= Names(binds);
      assert x !in env;
      forall i, y | 0 <= i < |a'| && y in a'[i].vars ensures y in env + (more + {x}) {
        if y in a[i].vars {
          assert y in env + more;
        } else {
          assert y == x;
        }
      }
      forall i, j, y | 0 <= i < j < |a'| && y in a'[i].vars ensures y !in a'[j].vars {
        assert y in a[i].vars && y in env && y != x;
        assert y !in a[j].vars;
      }
      ApartDeclare(binds[1..], a', m, env, more + {x});
      assert env + (more + {x}) + Names(binds[1..]) == env + more + Names(binds);
    }
  }

  lemma ApartLet(binds: seq<Local>, a: Paths, env: set<Local>)
    requires a.scopes != [] && Apart(a.scopes, env) && Names(binds) !! env
    ensures Apart(Declare(a, binds).scopes, env + Names(binds))
  {
    assert env + {} == env;
    ApartDeclare(binds, a.scopes, Added, env, {});
  }

  lemma ApartEnter(binds: seq<Local>, a: Paths, env: set<Local>)
    requires Apart(a.scopes, env) && Names(binds) !! env
    ensures Apart(EnterPaths(a, binds).scopes, env + Names(binds))
  {
    ApartLet(binds, PushPaths(a), env);
  }

  // ---------------------------------------------------------------
  // faults of drop lists
  // ---------------------------------------------------------------

  lemma {:induction false} DueMember(order: seq<Local>, live: set<Local>, x: Local)
    ensures x in Due(order, live) <==> x in order && x in live
  {
    if order != [] {
      var n := |order| - 1;
      DueMember(order[..n], live, x);
      assert order == order[..n] + [order[n]];
    }
  }

  /** With one binding of `x` on the stack, `x` is owed exactly if it is live. */
  lemma {:induction false} OwnedAllMember(c: seq<Scope<bool>>, i: nat, x: Local)
    requires i < |c| && x in c[i].order && x in c[i].vars && !x.copy
    requires forall j :: 0 <= j < |c| && j != i ==> x !in c[j].vars
    ensures x in OwnedAll(c) <==> !c[i].vars[x]
    decreases |c|
  {
    var n := |c| - 1;
    DueMember(c[n].order, Owned(c[n]), x);
    if i < n {
      OwnedAllMember(c[..n], i, x);
    } else {
      NotOwned(c[..n], x);
    }
  }

  lemma {:induction false} NotOwned(c: seq<Scope<bool>>, x: Local)
    requires forall j :: 0 <= j < |c| ==> x !in c[j].vars
    ensures x !in OwnedAll(c)
    decreases |c|
  {
    if c != [] {
      var n := |c| - 1;
      DueMember(c[n].order, Owned(c[n]), x);
      NotOwned(c[..n], x);
    }
  }

  lemma WrongListAll(drops: seq<Local>, a: Paths, env: set<Local>) returns (p: Pick)
    requires a.reached && Apart(a.scopes, env) && !(AllSettled(a.scopes) && drops == MayOwnAll(a.scopes))
    ensures Allowed(p, a)
    ensures forall c: seq<Scope<bool>> :: Among(c, a) && Meets(c, p) ==> drops != OwnedAll(c)
  {
    if AllSettled(a.scopes) {
      p := Any;
      forall c: seq<Scope<bool>> | Among(c, a) && Meets(c, p) ensures drops != OwnedAll(c) {
        SettledDueAll(c, a);
      }
    } else {
      var i :| 0 <= i < |a.scopes| && !Settled(a.scopes[i]);
      var m := a.scopes[i];
      var x :| x in m.order && x in m.vars && !x.copy && m.vars[x].live && m.vars[x].gone;
      p := At(i, x, x in drops);
      forall c: seq<Scope<bool>> | Among(c, a) && Meets(c, p) ensures drops != OwnedAll(c) {
        AmongAlike(c, a);
        StillApart(a.scopes, c, env);
        OwnedAllMember(c, i, x);
      }
    }
  }

  // ---------------------------------------------------------------
  // the induction
  // ---------------------------------------------------------------

  lemma {:induction false} Attained(e: Expr, take: bool, strict: bool, a: Paths, goal: Goal, env: set<Local>) returns (p: Pick)
    requires Possible(goal, Trace(e, take, strict, a)) && (strict ==> Apart(a.scopes, env) && Named(e, env))
    ensures Allowed(p, a) && Surely(Whole(e, take), strict, a, p, goal)
    decreases e, 3, 0
  {
    hide Surely, Apart, Allowed;
    match e
    case Lit => p := AttainedLit(take, strict, a, goal);
    case Var(x) => p := AttainedVar(x, take, strict, a, goal);
    case Block(_, _) => p := AttainedBlock(e, take, strict, a, goal, env);
    case If(_, _, _) => p := AttainedIf(e, take, strict, a, goal, env);
    case Match(_, _, _) => p := AttainedMatch(e, take, strict, a, goal, env);
    case Loop(_) => p := AttainedLoop(e, take, strict, a, goal, env);
    case While(_, _) => p := AttainedWhile(e, take, strict, a, goal, env);
    case Return(_, _) => p := AttainedReturn(e, take, strict, a, goal, env);
    case Assign(_, _) => p := AttainedAssign(e, take, strict, a, goal, env);
    case Apply(_, _) => p := AttainedApply(e, take, strict, a, goal, env);
  }

  lemma AttainedLit(take: bool, strict: bool, a: Paths, goal: Goal) returns (p: Pick)
    requires Possible(goal, Trace(Lit, take, strict, a))
    ensures Allowed(p, a) && Surely(Whole(Lit, take), strict, a, p, goal)
  {
    p := goal.p;
    forall c: seq<Scope<bool>> | Among(c, a) && Meets(c, p) ensures Attains(Whole(Lit, take), strict, c, goal) {
      PassesLit(take, strict, c);
    }
  }

  lemma AttainedVar(x: Local, take: bool, strict: bool, a: Paths, goal: Goal) returns (p: Pick)
    requires Possible(goal, Trace(Var(x), take, strict, a))
    ensures Allowed(p, a) && Surely(Whole(Var(x), take), strict, a, p, goal)
  {
    var at := Find(a.scopes, x);
    if goal.Fault? {
      p := At(at.value, x, true);
      forall c: seq<Scope<bool>> | Among(c, a) && Meets(c, p) ensures Attains(Whole(Var(x), take), strict, c, goal) {
        AmongAlike(c, a);
        AmongFind(c, a.scopes, x);
        assert Wrong(Run(Whole(Var(x), take), strict, [], c));
      }
    } else {
      p := UsePick(x, take, a, goal.p);
      forall c: seq<Scope<bool>> | Among(c, a) && Meets(c, p) ensures Attains(Whole(Var(x), take), strict, c, goal) {
        HoldsUse(x, take, [], a, c);
        var c' := Use(x, take, [], c).scopes;
        assert Meets(c', goal.p);
        hide Meets, Among, MayBeGone;
        PassesVar(x, take, strict, c, c');
      }
    }
  }

  /** What has to be demanded before a use for a demand to be met after it. */
  lemma UsePick(x: Local, take: bool, a: Paths, q: Pick) returns (p: Pick)
    requires !MayBeGone(x, a) && Allowed(q, if take && !x.copy then Mark(x, Moved, a) else a)
    ensures Allowed(p, a)
    ensures forall c: seq<Scope<bool>> :: Among(c, a) && Meets(c, p) ==> Use(x, take, [], c).Next? && Meets(Use(x, take, [], c).scopes, q)
  {
    var at := Find(a.scopes, x);
    p := if take && !x.copy && at.Some? && q.At? && q.i == at.value && q.x == x then Any else q;
    forall c: seq<Scope<bool>> | Among(c, a) && Meets(c, p) ensures Use(x, take, [], c).Next? && Meets(Use(x, take, [], c).scopes, q) {
      HoldsUse(x, take, [], a, c);
      AmongAlike(c, a);
      AmongFind(c, a.scopes, x);
    }
  }

  lemma FillPick(x: Local, a: Paths, q: Pick) returns (p: Pick)
    requires Allowed(q, Mark(x, Added, a))
    ensures Allowed(p, a) && forall c: seq<Scope<bool>> :: Among(c, a) && Meets(c, p) ==> Meets(Fill(x, c), q)
  {
    var at := Find(a.scopes, x);
    p := if at.Some? && q.At? && q.i == at.value && q.x == x then Any else q;
    forall c: seq<Scope<bool>> | Among(c, a) && Meets(c, p) ensures Meets(Fill(x, c), q) {
      AmongAlike(c, a);
      AmongFind(c, a.scopes, x);
    }
  }

  lemma {:induction false} AttainedAssign(e: Expr, take: bool, strict: bool, a: Paths, goal: Goal, env: set<Local>) returns (p: Pick)
    requires e.Assign? && Possible(goal, Trace(e, take, strict, a)) && (strict ==> Apart(a.scopes, env) && Named(e, env))
    ensures Allowed(p, a) && Surely(Whole(e, take), strict, a, p, goal)
    decreases e, 2, 0
  {
    var v := Trace(e.value, true, strict, a);
    if goal.Fault? {
      hide Surely;
      p := Attained(e.value, true, strict, a, Fault, env);
      FirstFault(e.value, true, Whole(e, take), strict, a, p);
    } else {
      var q := FillPick(e.x, v.state, goal.p);
      p := Attained(e.value, true, strict, a, Through(q), env);
      hide Among, Meets, Allowed, Fill;
      forall c: seq<Scope<bool>> | Among(c, a) && Meets(c, p) ensures Attains(Whole(e, take), strict, c, goal) {
        var way, c1 := Gets(e.value, true, strict, a, c, p, q);
        PassesAssign(e, take, strict, c, way, c1);
      }
    }
  }

  lemma {:induction false} AttainedApply(e: Expr, take: bool, strict: bool, a: Paths, goal: Goal, env: set<Local>) returns (p: Pick)
    requires e.Apply? && Possible(goal, Trace(e, take, strict, a)) && (strict ==> Apart(a.scopes, env) && Named(e, env))
    ensures Allowed(p, a) && Surely(Whole(e, take), strict, a, p, goal)
    decreases e, 2, 0
  {
    hide Among, Meets;
    p := AttainedArgs(e.args, strict, a, goal, env);
    forall c: seq<Scope<bool>> | Among(c, a) && Meets(c, p) ensures Attains(Whole(e, take), strict, c, goal) {
      assert Attains(Operands(e.args), strict, c, goal);
      if goal.Fault? {
        var choices :| Wrong(Run(Operands(e.args), strict, choices, c));
        assert Wrong(Run(Whole(e, take), strict, choices, c));
      } else {
        var way, c' :| Passes(Operands(e.args), strict, c, way, c') && Meets(c', goal.p);
        PassesApply(e, take, strict, c, way, c');
      }
    }
  }

  lemma {:induction false} AttainedArgs(args: Args, strict: bool, a: Paths, goal: Goal, env: set<Local>) returns (p: Pick)
    requires Possible(goal, TraceArgs(args, strict, a)) && (strict ==> Apart(a.scopes, env) && NamedArgs(args, env))
    ensures Allowed(p, a) && Surely(Operands(args), strict, a, p, goal)
    decreases args, 3, 0
  {
    match args
    case NoArgs =>
      p := goal.p;
      forall c: seq<Scope<bool>> | Among(c, a) && Meets(c, p) ensures Attains(Operands(args), strict, c, goal) {
        PassesNoArgs(strict, c);
      }
    case Arg(_, _, _) => p := AttainedArg(args, strict, a, goal, env);
  }

  lemma {:induction false} AttainedArg(args: Args, strict: bool, a: Paths, goal: Goal, env: set<Local>) returns (p: Pick)
    requires args.Arg? && Possible(goal, TraceArgs(args, strict, a)) && (strict ==> Apart(a.scopes, env) && NamedArgs(args, env))
    ensures Allowed(p, a) && Surely(Operands(args), strict, a, p, goal)
    decreases args, 2, 0
  {
    hide Among, Meets, Apart, Leads, Attains;
    var v := Trace(args.e, args.taken, strict, a);
    if !v.ok {
      hide Surely;
      p := Attained(args.e, args.taken, strict, a, Fault, env);
      FirstFault(args.e, args.taken, Operands(args), strict, a, p);
    } else {
      if strict { StillApart(a.scopes, v.state.scopes, env); }
      var q := AttainedArgs(args.rest, strict, v.state, goal, env);
      p := Attained(args.e, args.taken, strict, a, Through(q), env);
      hide Allowed, Alike, Possible, Run;
      forall c: seq<Scope<bool>> | Among(c, a) && Meets(c, p) ensures Attains(Operands(args), strict, c, goal) {
        var way, c1 := Gets(args.e, args.taken, strict, a, c, p, q);
        LeadArg(args, strict, c, way, c1);
        Onward(Operands(args), strict, c, way, Operands(args.rest), c1, goal);
      }
    }
  }

  lemma {:induction false} AttainedIf(e: Expr, take: bool, strict: bool, a: Paths, goal: Goal, env: set<Local>) returns (p: Pick)
    requires e.If? && Possible(goal, Trace(e, take, strict, a)) && (strict ==> Apart(a.scopes, env) && Named(e, env))
    ensures Allowed(p, a) && Surely(Whole(e, take), strict, a, p, goal)
    decreases e, 2, 0
  {
    hide Among, Meets, Apart, Leads, Attains, Join, Alike;
    var k := Trace(e.cond, false, strict, a);
    if !k.ok {
      hide Surely;
      p := Attained(e.cond, false, strict, a, Fault, env);
      FirstFault(e.cond, false, Whole(e, take), strict, a, p);
    } else {
      var t, f := Trace(e.thn, take, strict, k.state), Trace(e.els, take, strict, k.state);
      if strict { StillApart(a.scopes, k.state.scopes, env); }
      AlikeTwo(k.state, t.state, f.state);
      if goal.Through? { Unjoin(t.state, f.state, goal.p); }
      var yes := Possible(goal, t);
      var chosen := if yes then e.thn else e.els;
      var q := Attained(chosen, take, strict, k.state, goal, env);
      p := Attained(e.cond, false, strict, a, Through(q), env);
      hide Allowed, Possible, Run;
      forall c: seq<Scope<bool>> | Among(c, a) && Meets(c, p) ensures Attains(Whole(e, take), strict, c, goal) {
        var way, c1 := Gets(e.cond, false, strict, a, c, p, q);
        LeadIf(e, yes, take, strict, c, way, c1);
        Onward(Whole(e, take), strict, c, way + [if yes then 1 else 0], Whole(chosen, take), c1, goal);
      }
    }
  }

  lemma {:induction false} AttainedMatch(e: Expr, take: bool, strict: bool, a: Paths, goal: Goal, env: set<Local>) returns (p: Pick)
    requires e.Match? && Possible(goal, Trace(e, take, strict, a)) && (strict ==> Apart(a.scopes, env) && Named(e, env))
    ensures Allowed(p, a) && Surely(Whole(e, take), strict, a, p, goal)
    decreases e, 2, 0
  {
    hide Among, Meets, Apart, Leads, Attains, Alike;
    var k := Trace(e.scrutinee, !e.copy, strict, a);
    if !k.ok {
      hide Surely;
      p := Attained(e.scrutinee, !e.copy, strict, a, Fault, env);
      FirstFault(e.scrutinee, !e.copy, Whole(e, take), strict, a, p);
    } else {
      if strict { StillApart(a.scopes, k.state.scopes, env); }
      var q := AttainedArms(e.arms, take, strict, k.state, goal, env);
      p := Attained(e.scrutinee, !e.copy, strict, a, Through(q), env);
      hide Allowed, Possible, Run;
      forall c: seq<Scope<bool>> | Among(c, a) && Meets(c, p) ensures Attains(Whole(e, take), strict, c, goal) {
        var way, c1 := Gets(e.scrutinee, !e.copy, strict, a, c, p, q);
        LeadMatch(e, take, strict, c, way, c1);
        Onward(Whole(e, take), strict, c, way, Cases(e.arms, take), c1, goal);
      }
    }
  }

  lemma {:induction false} AttainedReturn(e: Expr, take: bool, strict: bool, a: Paths, goal: Goal, env: set<Local>) returns (p: Pick)
    requires e.Return? && Possible(goal, Trace(e, take, strict, a)) && (strict ==> Apart(a.scopes, env) && Named(e, env))
    ensures Allowed(p, a) && Surely(Whole(e, take), strict, a, p, goal)
    decreases e, 2, 0
  {
    hide Among, Meets, Apart, Alike;
    var v := Trace(e.value, true, strict, a);
    if !v.ok {
      hide Surely;
      p := Attained(e.value, true, strict, a, Fault, env);
      FirstFault(e.value, true, Whole(e, take), strict, a, p);
    } else {
      StillApart(a.scopes, v.state.scopes, env);
      var q := WrongListAll(e.drops, v.state, env);
      p := Attained(e.value, true, strict, a, Through(q), env);
      hide Allowed, Possible;
      forall c: seq<Scope<bool>> | Among(c, a) && Meets(c, p) ensures Attains(Whole(e, take), strict, c, goal) {
        var way, c1 := Gets(e.value, true, strict, a, c, p, q);
        assert Run(Whole(e.value, true), strict, way + [], c) == Next(c1, []);
        assert Wrong(Run(Whole(e, take), strict, way + [], c));
      }
    }
  }

  lemma {:induction false} AttainedBlock(e: Expr, take: bool, strict: bool, a: Paths, goal: Goal, env: set<Local>) returns (p: Pick)
    requires e.Block? && Possible(goal, Trace(e, take, strict, a)) && (strict ==> Apart(a.scopes, env) && Named(e, env))
    ensures Allowed(p, a) && Surely(Whole(e, take), strict, a, p, goal)
    decreases e, 2, 0
  {
    assert strict ==> Apart(PushPaths(a).scopes, env);
    hide Among, Meets, Allowed, Possible, Alike, Run, Trace, Attains, Apart;
    var inner := BlockGoal(e, take, strict, a, goal);
    p := AttainedStmts(e.body, take, strict, PushPaths(a), inner, env);
    Unpush(a, p);
    forall c: seq<Scope<bool>> | Among(c, a) && Meets(c, p) ensures Attains(Whole(e, take), strict, c, goal) {
      BlockAttains(e, take, strict, a, goal, inner, p, c);
    }
  }

  /** What the statements of a block have to attain for the block to attain a goal. */
  predicate Serves(e: Expr, take: bool, strict: bool, a: Paths, goal: Goal, inner: Goal)
    requires e.Block?
  {
    match inner
    case Fault => goal.Fault?
    case Through(p) =>
      && TraceStmts(e.body, take, strict, PushPaths(a)).ok
      && if goal.Through? then p == goal.p && (p.At? ==> p.i < |a.scopes|) && Trace(e, take, strict, a).ok
         else strict && a.reached && WrongAt(e.drops, TraceStmts(e.body, take, strict, PushPaths(a)).state, |a.scopes|, p)
  }

  /** Wherever the demand is met the drop list is wrong. */
  predicate WrongAt(drops: seq<Local>, a: Paths, n: nat, p: Pick) {
    && n < |a.scopes|
    && if p.At? then
         p.i == n && p.x in a.scopes[n].order && p.x in a.scopes[n].vars && !p.x.copy && p.gone == (p.x in drops)
       else
         Settled(a.scopes[n]) && drops != Due(a.scopes[n].order, MayOwn(a.scopes[n]))
  }

  lemma BlockGoal(e: Expr, take: bool, strict: bool, a: Paths, goal: Goal) returns (inner: Goal)
    requires e.Block? && Possible(goal, Trace(e, take, strict, a))
    ensures Possible(inner, TraceStmts(e.body, take, strict, PushPaths(a))) && Serves(e, take, strict, a, goal, inner)
  {
    var b := TraceStmts(e.body, take, strict, PushPaths(a));
    inner := goal;
    if goal.Fault? && b.ok {
      var p := WrongList(e.drops, b.state, |a.scopes|);
      inner := Through(p);
    }
  }

  /** If a noted drop list is not right on all paths, it is wrong on one. */
  lemma WrongList(drops: seq<Local>, a: Paths, n: nat) returns (p: Pick)
    requires a.reached && n < |a.scopes| && !(Settled(a.scopes[n]) && drops == Due(a.scopes[n].order, MayOwn(a.scopes[n])))
    ensures Allowed(p, a) && WrongAt(drops, a, n, p)
  {
    var m := a.scopes[n];
    p := Any;
    if !Settled(m) {
      var x :| x in m.order && x in m.vars && !x.copy && m.vars[x].live && m.vars[x].gone;
      p := At(n, x, x in drops);
    }
  }

  lemma IsWrong(drops: seq<Local>, a: Paths, n: nat, p: Pick, c: seq<Scope<bool>>)
    requires WrongAt(drops, a, n, p) && Among(c, a) && Meets(c, p)
    ensures n < |c| && drops != Due(c[n].order, Owned(c[n]))
  {
    assert AmongScope(c[n], a.scopes[n]);
    if p.At? {
      DueMember(c[n].order, Owned(c[n]), p.x);
    } else {
      SettledDue(c[n], a.scopes[n]);
    }
  }

  lemma BlockAttains(e: Expr, take: bool, strict: bool, a: Paths, goal: Goal, inner: Goal, p: Pick, c: seq<Scope<bool>>)
    requires e.Block? && Serves(e, take, strict, a, goal, inner)
    requires Surely(Rest(e.body, take), strict, PushPaths(a), p, inner) && Among(c, a) && Meets(c + [Scope(map[], [])], p)
    ensures Attains(Whole(e, take), strict, c, goal)
  {
    AmongLength(c, a);
    HoldsPush(a, c);
    var c0 := c + [Scope(map[], [])];
    hide Among, Trace, Run, WrongAt;
    if inner.Fault? {
      hide Meets;
      assert Attains(Rest(e.body, take), strict, c0, inner);
      var choices :| Wrong(Run(Rest(e.body, take), strict, choices, c0));
      BlockFault(e, take, strict, c, choices);
    } else {
      var b := TraceStmts(e.body, take, strict, PushPaths(a));
      var way, c1 := GetsStmts(e.body, take, strict, PushPaths(a), c0, p, inner.p);
      AmongLength(c1, b.state);
      if goal.Through? {
        RightDrops(e, take, strict, a, c, way, c1);
        PassesBlock(e, take, strict, c, way, c1);
        assert Meets(c1[..|c|], goal.p);
      } else {
        IsWrong(e.drops, b.state, |c|, inner.p, c1);
        BlockDrops(e, take, c, way, c1);
      }
    }
  }

  lemma RightDrops(e: Expr, take: bool, strict: bool, a: Paths, c: seq<Scope<bool>>, way: seq<nat>, c1: seq<Scope<bool>>)
    requires e.Block? && |c1| == |c| + 1 && Passes(Rest(e.body, take), strict, c + [Scope(map[], [])], way, c1)
    requires Among(c, a) && Trace(e, take, strict, a).ok
    ensures strict ==> e.drops == Due(c1[|c|].order, Owned(c1[|c|]))
  {
    PassesOn(Rest(e.body, take), strict, c + [Scope(map[], [])], way, c1, []);
    Holds(e, take, strict, way + [], a, c);
    hide Among, Trace;
  }

  lemma BlockFault(e: Expr, take: bool, strict: bool, c: seq<Scope<bool>>, choices: seq<nat>)
    requires e.Block? && Wrong(Run(Rest(e.body, take), strict, choices, c + [Scope(map[], [])]))
    ensures Attains(Whole(e, take), strict, c, Fault)
  {
    assert Wrong(Run(Whole(e, take), strict, choices, c));
  }

  lemma BlockDrops(e: Expr, take: bool, c: seq<Scope<bool>>, way: seq<nat>, c1: seq<Scope<bool>>)
    requires e.Block? && |c1| == |c| + 1 && Passes(Rest(e.body, take), true, c + [Scope(map[], [])], way, c1)
    requires e.drops != Due(c1[|c|].order, Owned(c1[|c|]))
    ensures Attains(Whole(e, take), true, c, Fault)
  {
    assert Run(Rest(e.body, take), true, way + [], c + [Scope(map[], [])]) == Next(c1, []);
    assert Wrong(Run(Whole(e, take), true, way + [], c));
  }

  lemma GetsStmts(st: Stmts, take: bool, strict: bool, a: Paths, c: seq<Scope<bool>>, p: Pick, q: Pick) returns (way: seq<nat>, c': seq<Scope<bool>>)
    requires Surely(Rest(st, take), strict, a, p, Through(q)) && c != [] && a.scopes != []
    requires Among(c, a) && Meets(c, p) && TraceStmts(st, take, strict, a).ok
    ensures Passes(Rest(st, take), strict, c, way, c') && Meets(c', q) && Among(c', TraceStmts(st, take, strict, a).state)
  {
    way, c' :| Passes(Rest(st, take), strict, c, way, c') && Meets(c', q);
    assert Run(Rest(st, take), strict, way + [], c) == Next(c', []);
    hide Among, Meets;
    HoldsStmts(st, take, strict, way + [], a, c);
  }

  lemma {:induction false} AttainedStmts(st: Stmts, take: bool, strict: bool, a: Paths, goal: Goal, env: set<Local>) returns (p: Pick)
    requires a.scopes != [] && Possible(goal, TraceStmts(st, take, strict, a)) && (strict ==> Apart(a.scopes, env) && NamedStmts(st, env))
    ensures Allowed(p, a) && Surely(Rest(st, take), strict, a, p, goal)
    decreases st, 3, 0
  {
    hide Among, Meets, Apart, Leads, Attains;
    match st
    case Tail(tail) =>
      p := Attained(tail, take, strict, a, goal, env);
      hide Allowed, Possible, Run;
      forall c: seq<Scope<bool>> | Among(c, a) && Meets(c, p) ensures Attains(Rest(st, take), strict, c, goal) {
        AmongLength(c, a);
        LeadTail(st, take, strict, c);
        Onward(Rest(st, take), strict, c, [], Whole(tail, take), c, goal);
      }
    case Let(_, _, _, _) => p := AttainedLet(st, take, strict, a, goal, env);
    case Do(_, _, _) => p := AttainedDo(st, take, strict, a, goal, env);
  }

  lemma {:induction false} AttainedLet(st: Stmts, take: bool, strict: bool, a: Paths, goal: Goal, env: set<Local>) returns (p: Pick)
    requires st.Let? && a.scopes != [] && Possible(goal, TraceStmts(st, take, strict, a))
    requires strict ==> Apart(a.scopes, env) && NamedStmts(st, env)
    ensures Allowed(p, a) && Surely(Rest(st, take), strict, a, p, goal)
    decreases st, 2, 0
  {
    hide Among, Meets, Apart, Leads, Attains;
    var v := Trace(st.value, !st.copy, strict, a);
    if !v.ok {
      hide Surely;
      p := Attained(st.value, !st.copy, strict, a, Fault, env);
      FirstFault(st.value, !st.copy, Rest(st, take), strict, a, p);
    } else {
      if strict {
        StillApart(a.scopes, v.state.scopes, env);
        ApartLet(st.binds, v.state, env);
      }
      var q' := AttainedStmts(st.rest, take, strict, Declare(v.state, st.binds), goal, env + Names(st.binds));
      var q := Undeclare(st.binds, v.state, q');
      p := Attained(st.value, !st.copy, strict, a, Through(q), env);
      hide Allowed, Possible, Run, Alike, Declare, Define;
      forall c: seq<Scope<bool>> | Among(c, a) && Meets(c, p) ensures Attains(Rest(st, take), strict, c, goal) {
        AmongLength(c, a);
        var way, c1 := Gets(st.value, !st.copy, strict, a, c, p, q);
        AmongLength(c1, v.state);
        HoldsDeclare(st.binds, v.state, c1);
        LeadLet(st, take, strict, c, way, c1);
        Onward(Rest(st, take), strict, c, way, Rest(st.rest, take), Define(c1, st.binds, false), goal);
      }
    }
  }

  lemma {:induction false} AttainedDo(st: Stmts, take: bool, strict: bool, a: Paths, goal: Goal, env: set<Local>) returns (p: Pick)
    requires st.Do? && a.scopes != [] && Possible(goal, TraceStmts(st, take, strict, a))
    requires strict ==> Apart(a.scopes, env) && NamedStmts(st, env)
    ensures Allowed(p, a) && Surely(Rest(st, take), strict, a, p, goal)
    decreases st, 2, 0
  {
    hide Among, Meets, Apart, Leads, Attains;
    var v := Trace(st.e, !st.copy, strict, a);
    if !v.ok {
      hide Surely;
      p := Attained(st.e, !st.copy, strict, a, Fault, env);
      FirstFault(st.e, !st.copy, Rest(st, take), strict, a, p);
    } else {
      if strict { StillApart(a.scopes, v.state.scopes, env); }
      var q := AttainedStmts(st.rest, take, strict, v.state, goal, env);
      p := Attained(st.e, !st.copy, strict, a, Through(q), env);
      hide Allowed, Possible, Run, Alike;
      forall c: seq<Scope<bool>> | Among(c, a) && Meets(c, p) ensures Attains(Rest(st, take), strict, c, goal) {
        AmongLength(c, a);
        var way, c1 := Gets(st.e, !st.copy, strict, a, c, p, q);
        AmongLength(c1, v.state);
        LeadDo(st, take, strict, c, way, c1);
        Onward(Rest(st, take), strict, c, way, Rest(st.rest, take), c1, goal);
      }
    }
  }

  lemma {:induction false} AttainedArms(arms: Arms, take: bool, strict: bool, a: Paths, goal: Goal, env: set<Local>) returns (p: Pick)
    requires Possible(goal, TraceArms(arms, take, strict, a)) && (strict ==> Apart(a.scopes, env) && NamedArms(arms, env))
    ensures Allowed(p, a) && Surely(Cases(arms, take), strict, a, p, goal)
    decreases arms, 3, 0
  {
    hide Surely, Apart, Join;
    var Arm(binds, guard, body, rest) := arms;
    var g := Trace(guard, false, strict, EnterPaths(a, binds));
    var b := Trace(body, take, strict, g.state);
    PopAlike(a, binds, g.state);
    PopTwice(a, binds, g.state, b.state);
    var later := Join(a, PopPaths(g.state));
    var l := TraceArms(rest, take, strict, later);
    AlikeThen(a, later, l.state);
    AlikeTwo(a, PopPaths(b.state), l.state);
    if strict {
      ApartEnter(binds, a, env);
      StillApart(a.scopes, later.scopes, env);
    }
    if goal.Through? { Unjoin(PopPaths(b.state), l.state, goal.p); }
    hide EnterPaths, Alike;
    if !g.ok {
      p := FaultInGuard(arms, take, strict, a, env);
    } else if if goal.Fault? then !b.ok else Allowed(goal.p, PopPaths(b.state)) {
      p := AttainedBody(arms, take, strict, a, goal, env);
    } else {
      p := AttainedLater(arms, take, strict, a, goal, env);
    }
  }

  lemma {:induction false} FaultInGuard(arms: Arms, take: bool, strict: bool, a: Paths, env: set<Local>) returns (p: Pick)
    requires arms.Arm? && !Trace(arms.guard, false, strict, EnterPaths(a, arms.binds)).ok
    requires strict ==> Apart(EnterPaths(a, arms.binds).scopes, env + Names(arms.binds)) && Named(arms.guard, env + Names(arms.binds))
    ensures Allowed(p, a) && Surely(Cases(arms, take), strict, a, p, Fault)
    decreases arms, 2, 0
  {
    hide Among, Meets, Allowed, Apart, Enter, EnterPaths, Trace;
    var q := Attained(arms.guard, false, strict, EnterPaths(a, arms.binds), Fault, env + Names(arms.binds));
    p := Unenter(arms.binds, a, q);
    forall c: seq<Scope<bool>> | Among(c, a) && Meets(c, p) ensures Attains(Cases(arms, take), strict, c, Fault) {
      HoldsEnter(arms.binds, a, c);
      var c0 := Enter(c, arms.binds);
      assert Attains(Whole(arms.guard, false), strict, c0, Fault);
      var choices :| Wrong(Run(Whole(arms.guard, false), strict, choices, c0));
      Front(1, choices);
      assert Wrong(Run(Cases(arms, take), strict, [1] + choices, c));
    }
  }

  lemma {:induction false} AttainedBody(arms: Arms, take: bool, strict: bool, a: Paths, goal: Goal, env: set<Local>) returns (p: Pick)
    requires arms.Arm?
    requires var g := Trace(arms.guard, false, strict, EnterPaths(a, arms.binds)); var b := Trace(arms.body, take, strict, g.state);
      g.ok && if goal.Fault? then !b.ok else b.ok && Allowed(goal.p, PopPaths(b.state))
    requires strict ==>
      Apart(EnterPaths(a, arms.binds).scopes, env + Names(arms.binds)) && Named(arms.guard, env + Names(arms.binds)) && Named(arms.body, env + Names(arms.binds))
    ensures Allowed(p, a) && Surely(Cases(arms, take), strict, a, p, goal)
    decreases arms, 2, 0
  {
    hide Among, Meets, Apart, Enter, EnterPaths, Trace, Alike;
    var start := EnterPaths(a, arms.binds);
    var g := Trace(arms.guard, false, strict, start);
    var b := Trace(arms.body, take, strict, g.state);
    if strict { StillApart(start.scopes, g.state.scopes, env + Names(arms.binds)); }
    BodyLength(a, start, g.state, b.state);
    if goal.Through? { Unpop(b.state, goal.p); }
    hide Allowed;
    var q' := Attained(arms.body, take, strict, g.state, goal, env + Names(arms.binds));
    var q := Attained(arms.guard, false, strict, start, Through(q'), env + Names(arms.binds));
    p := Unenter(arms.binds, a, q);
    forall c: seq<Scope<bool>> | Among(c, a) && Meets(c, p) ensures Attains(Cases(arms, take), strict, c, goal) {
      AmongLength(c, a);
      HoldsEnter(arms.binds, a, c);
      var way, c1 := Gets(arms.guard, false, strict, start, Enter(c, arms.binds), q, q');
      if goal.Fault? {
        assert Attains(Whole(arms.body, take), strict, c1, Fault);
        var choices :| Wrong(Run(Whole(arms.body, take), strict, choices, c1));
        AmongLength(c1, g.state);
        BodyFault(arms, take, strict, c, way, c1, choices);
      } else {
        var way', c2 := Gets(arms.body, take, strict, g.state, c1, q', goal.p);
        AmongLength(c2, b.state);
        AmongLength(c1, g.state);
        PassesArm(arms, take, strict, c, way, c1, way', c2);
        assert Meets(c2[..|c|], goal.p);
      }
    }
  }

  lemma BodyLength(a: Paths, start: Paths, g: Paths, b: Paths)
    requires |start.scopes| == |a.scopes| + 1 && Alike(start.scopes, g.scopes) && Alike(g.scopes, b.scopes)
    ensures |b.scopes| == |g.scopes| == |a.scopes| + 1
  {
  }

  lemma BodyFault(arms: Arms, take: bool, strict: bool, c: seq<Scope<bool>>, way: seq<nat>, c1: seq<Scope<bool>>, choices: seq<nat>)
    requires arms.Arm? && |c1| == |c| + 1 && Passes(Whole(arms.guard, false), strict, Enter(c, arms.binds), way, c1)
    requires Wrong(Run(Whole(arms.body, take), strict, choices, c1))
    ensures Attains(Cases(arms, take), strict, c, Fault)
  {
    hide Exec, ExecArms, Enter;
    PassesOn(Whole(arms.guard, false), strict, Enter(c, arms.binds), way, c1, [1] + choices);
    ArmStep(arms, take, strict, c, way + ([1] + choices), c1, 1, choices);
    assert Wrong(Run(Cases(arms, take), strict, [1] + (way + ([1] + choices)), c));
  }

  lemma {:induction false} AttainedLater(arms: Arms, take: bool, strict: bool, a: Paths, goal: Goal, env: set<Local>) returns (p: Pick)
    requires arms.Arm? && a.reached
    requires var g := Trace(arms.guard, false, strict, EnterPaths(a, arms.binds));
      && g.ok && Alike(a.scopes, PopPaths(g.state).scopes)
      && Possible(goal, TraceArms(arms.rest, take, strict, Join(a, PopPaths(g.state))))
      && (strict ==> Apart(Join(a, PopPaths(g.state)).scopes, env) && NamedArms(arms.rest, env))
    requires strict ==> Apart(EnterPaths(a, arms.binds).scopes, env + Names(arms.binds)) && Named(arms.guard, env + Names(arms.binds))
    ensures Allowed(p, a) && Surely(Cases(arms, take), strict, a, p, goal)
    decreases arms, 2, 0
  {
    hide Among, Meets, Apart, Enter, EnterPaths, Trace, Alike, Join, Allowed, Leads, Attains, Run;
    var start := EnterPaths(a, arms.binds);
    var g := Trace(arms.guard, false, strict, start);
    GuardLength(a, start, g.state);
    var failed := PopPaths(g.state);
    var q' := AttainedArms(arms.rest, take, strict, Join(a, failed), goal, env);
    Unjoin(a, failed, q');
    if Allowed(q', a) {
      p := q';
      forall c: seq<Scope<bool>> | Among(c, a) && Meets(c, p) ensures Attains(Cases(arms, take), strict, c, goal) {
        HoldsJoin(a, failed, c);
        LeadSkip(arms, take, strict, c);
        Onward(Cases(arms, take), strict, c, [0], Cases(arms.rest, take), c, goal);
      }
    } else {
      Unpop(g.state, q');
      var q := Attained(arms.guard, false, strict, start, Through(q'), env + Names(arms.binds));
      p := Unenter(arms.binds, a, q);
      forall c: seq<Scope<bool>> | Among(c, a) && Meets(c, p) ensures Attains(Cases(arms, take), strict, c, goal) {
        AmongLength(c, a);
        HoldsEnter(arms.binds, a, c);
        var way, c1 := Gets(arms.guard, false, strict, start, Enter(c, arms.binds), q, q');
        AmongLength(c1, g.state);
        HoldsPop(g.state, c1);
        HoldsJoin(a, failed, c1[..|c|]);
        LeadFail(arms, take, strict, c, way, c1);
        Onward(Cases(arms, take), strict, c, [1] + (way + [0]), Cases(arms.rest, take), c1[..|c|], goal);
      }
    }
  }

  lemma GuardLength(a: Paths, start: Paths, g: Paths)
    requires |start.scopes| == |a.scopes| + 1 && Alike(start.scopes, g.scopes)
    ensures |g.scopes| == |a.scopes| + 1
  {
  }

  // ---------------------------------------------------------------
  // loops
  // ---------------------------------------------------------------

  ghost predicate GoesRound(e: Expr, take: bool, strict: bool, after: Paths, c: seq<Scope<bool>>, q: Pick) {
    exists way, c' :: Leads(Whole(e, take), strict, c, way, Whole(e, take), c') && Meets(c', q) && Among(c', after)
  }

  /** Some run goes round once and meets the demand. */
  lemma {:induction false} AttainedRound(e: Expr, take: bool, strict: bool, a: Paths, q: Pick, env: set<Local>) returns (p: Pick)
    requires (e.Loop? || e.While?) && Round(e, strict, a).ok && Allowed(q, Round(e, strict, a).state)
    requires strict ==> Apart(a.scopes, env) && Named(e, env)
    ensures Allowed(p, a)
    ensures forall c: seq<Scope<bool>> :: Among(c, a) && Meets(c, p) ==> GoesRound(e, take, strict, Round(e, strict, a).state, c, q)
    decreases e, 0, 0
  {
    hide Among, Meets, Allowed, Apart, Leads, Alike, Trace;
    if e.Loop? {
      p := Attained(e.body_, false, strict, a, Through(q), env);
      forall c: seq<Scope<bool>> | Among(c, a) && Meets(c, p) ensures GoesRound(e, take, strict, Round(e, strict, a).state, c, q) {
        var way, c1 := Gets(e.body_, false, strict, a, c, p, q);
        LeadLoop(e, take, strict, c, way, c1);
      }
    } else {
      var k := Trace(e.cond, false, strict, a);
      if strict { StillApart(a.scopes, k.state.scopes, env); }
      var q' := Attained(e.body_, false, strict, k.state, Through(q), env);
      p := Attained(e.cond, false, strict, a, Through(q'), env);
      forall c: seq<Scope<bool>> | Among(c, a) && Meets(c, p) ensures GoesRound(e, take, strict, Round(e, strict, a).state, c, q) {
        var way, c1 := Gets(e.cond, false, strict, a, c, p, q');
        var way', c2 := Gets(e.body_, false, strict, k.state, c1, q', q);
        LeadWhile(e, take, strict, c, way, c1, way', c2);
      }
    }
  }

  /** What can be attained from the head of a loop can be from before it. */
  lemma {:induction false} FromHead(e: Expr, take: bool, strict: bool, a: Paths, q: Pick, goal: Goal, env: set<Local>) returns (p: Pick)
    requires (e.Loop? || e.While?) && a.reached && (strict ==> Apart(a.scopes, env) && Named(e, env))
    requires Allowed(q, Head(e, strict, a)) && Surely(Whole(e, take), strict, Head(e, strict, a), q, goal)
    ensures Allowed(p, a) && Surely(Whole(e, take), strict, a, p, goal)
    decreases e, 1, Missing(a.scopes)
  {
    hide Among, Meets, Allowed, Apart, Leads, Alike, Round, Join, Attains, Run, Missing;
    var r := Round(e, strict, a);
    var next := Join(a, r.state);
    if !r.ok || next == a {
      p := q;
    } else {
      JoinFills(a, r.state);
      if strict { StillApart(a.scopes, next.scopes, env); }
      var q' := FromHead(e, take, strict, next, q, goal, env);
      Unjoin(a, r.state, q');
      if Allowed(q', a) {
        p := q';
        forall c: seq<Scope<bool>> | Among(c, a) && Meets(c, p) ensures Attains(Whole(e, take), strict, c, goal) {
          HoldsJoin(a, r.state, c);
        }
      } else {
        p := AttainedRound(e, take, strict, a, q', env);
        forall c: seq<Scope<bool>> | Among(c, a) && Meets(c, p) ensures Attains(Whole(e, take), strict, c, goal) {
          assert GoesRound(e, take, strict, r.state, c, q');
          var way, c' :| Leads(Whole(e, take), strict, c, way, Whole(e, take), c') && Meets(c', q') && Among(c', r.state);
          HoldsJoin(a, r.state, c');
          Onward(Whole(e, take), strict, c, way, Whole(e, take), c', goal);
        }
      }
    }
  }

  lemma {:induction false} AttainedLoop(e: Expr, take: bool, strict: bool, a: Paths, goal: Goal, env: set<Local>) returns (p: Pick)
    requires e.Loop? && Possible(goal, Trace(e, take, strict, a)) && (strict ==> Apart(a.scopes, env) && Named(e, env))
    ensures Allowed(p, a) && Surely(Whole(e, take), strict, a, p, goal)
    decreases e, 2, 0
  {
    hide Among, Meets, Apart, Head, Alike;
    var h := Head(e, strict, a);
    if strict { StillApart(a.scopes, h.scopes, env); }
    var q := Attained(e.body_, false, strict, h, Fault, env);
    forall c: seq<Scope<bool>> | Among(c, h) && Meets(c, q) ensures Attains(Whole(e, take), strict, c, goal) {
      assert Attains(Whole(e.body_, false), strict, c, Fault);
      var choices :| Wrong(Run(Whole(e.body_, false), strict, choices, c));
      Front(0, choices);
      RunLoop(e, take, strict, [0] + choices, c);
      assert Wrong(Run(Whole(e, take), strict, [0] + choices, c));
    }
    p := FromHead(e, take, strict, a, q, goal, env);
  }

  lemma {:induction false} AttainedWhile(e: Expr, take: bool, strict: bool, a: Paths, goal: Goal, env: set<Local>) returns (p: Pick)
    requires e.While? && Possible(goal, Trace(e, take, strict, a)) && (strict ==> Apart(a.scopes, env) && Named(e, env))
    ensures Allowed(p, a) && Surely(Whole(e, take), strict, a, p, goal)
    decreases e, 2, 0
  {
    assert a.reached;
    hide Among, Meets, Apart, Head, Alike, Allowed;
    var h := Head(e, strict, a);
    var k := Trace(e.cond, false, strict, h);
    if strict { StillApart(a.scopes, h.scopes, env); }
    var q;
    if !k.ok {
      q := Attained(e.cond, false, strict, h, Fault, env);
      forall c: seq<Scope<bool>>, choices: seq<nat> | Wrong(Exec(e.cond, false, strict, choices, c)) ensures Wrong(Run(Whole(e, take), strict, choices, c)) {
        RunLoop(e, take, strict, choices, c);
      }
      FirstFault(e.cond, false, Whole(e, take), strict, h, q);
    } else if goal.Fault? {
      q := FaultInBody(e, take, strict, h, env);
    } else {
      q := Attained(e.cond, false, strict, h, goal, env);
      forall c: seq<Scope<bool>> | Among(c, h) && Meets(c, q) ensures Attains(Whole(e, take), strict, c, goal) {
        var way, c1 := Gets(e.cond, false, strict, h, c, q, goal.p);
        PassesWhile(e, take, strict, c, way, c1);
      }
    }
    hide Attains, Trace, Possible;
    p := FromHead(e, take, strict, a, q, goal, env);
  }

  lemma {:induction false} FaultInBody(e: Expr, take: bool, strict: bool, h: Paths, env: set<Local>) returns (q: Pick)
    requires e.While? && (strict ==> Apart(h.scopes, env) && Named(e, env))
    requires Trace(e.cond, false, strict, h).ok && !Trace(e.body_, false, strict, Trace(e.cond, false, strict, h).state).ok
    ensures Allowed(q, h) && Surely(Whole(e, take), strict, h, q, Fault)
    decreases e, 1, 0
  {
    hide Among, Meets, Apart, Alike, Allowed, Trace;
    var k := Trace(e.cond, false, strict, h);
    if strict { StillApart(h.scopes, k.state.scopes, env); }
    var q' := Attained(e.body_, false, strict, k.state, Fault, env);
    q := Attained(e.cond, false, strict, h, Through(q'), env);
    forall c: seq<Scope<bool>> | Among(c, h) && Meets(c, q) ensures Attains(Whole(e, take), strict, c, Fault) {
      var way, c1 := Gets(e.cond, false, strict, h, c, q, q');
      assert Attains(Whole(e.body_, false), strict, c1, Fault);
      var choices :| Wrong(Run(Whole(e.body_, false), strict, choices, c1));
      SecondPartFault(e, take, strict, c, way, c1, choices);
    }
  }

  lemma SecondPartFault(e: Expr, take: bool, strict: bool, c: seq<Scope<bool>>, way: seq<nat>, c1: seq<Scope<bool>>, choices: seq<nat>)
    requires e.While? && Passes(Whole(e.cond, false), strict, c, way, c1) && Wrong(Run(Whole(e.body_, false), strict, choices, c1))
    ensures Attains(Whole(e, take), strict, c, Fault)
  {
    var tail := [1] + choices;
    Front(1, choices);
    PassesOn(Whole(e.cond, false), strict, c, way, c1, tail);
    RunLoop(e, take, strict, way + tail, c);
    assert Wrong(Run(Whole(e, take), strict, way + tail, c));
  }
}
