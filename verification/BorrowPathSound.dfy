/** Every run is on one of the paths followed, and where nothing was found none
    of them has a fault. */
module PathSoundness {
  import opened Borrow
  import opened PathAnalysis

  predicate AmongScope(c: Scope<bool>, m: Scope<May>) {
    && c.order == m.order && c.vars.Keys == m.vars.Keys
    && forall x :: x in m.vars ==> if c.vars[x] then m.vars[x].gone else m.vars[x].live
  }

  /** The locals of a run are as one of the paths has them. */
  predicate Among(c: seq<Scope<bool>>, a: Paths) {
    && a.reached && |c| == |a.scopes|
    && forall i :: 0 <= i < |c| ==> AmongScope(c[i], a.scopes[i])
  }

  predicate Wrong(r: Result) {
    r.UsedMoved? || r.WrongDrops?
  }

  predicate Good(r: Result, t: Traced) {
    t.ok ==> !Wrong(r) && (r.Next? ==> Among(r.scopes, t.state))
  }

  // ---------------------------------------------------------------
  // one step
  // ---------------------------------------------------------------

  lemma {:induction false} AmongFind(c: seq<Scope<bool>>, a: seq<Scope<May>>, x: Local)
    requires Alike(c, a)
    ensures Find(c, x) == Find(a, x)
  {
    if a != [] {
      var n := |a| - 1;
      AmongFind(c[..n], a[..n], x);
    }
  }

  lemma AmongAlike(c: seq<Scope<bool>>, a: Paths)
    requires Among(c, a)
    ensures Alike(c, a.scopes) && a.reached
  {
    forall i | 0 <= i < |c| ensures c[i].order == a.scopes[i].order && c[i].vars.Keys == a.scopes[i].vars.Keys {
      assert AmongScope(c[i], a.scopes[i]);
    }
  }

  lemma AmongPut(c: seq<Scope<bool>>, a: Paths, i: nat, x: Local, gone: bool)
    requires Among(c, a) && i < |c| && x in a.scopes[i].vars
    ensures Among(Put(c, i, x, gone), a.(scopes := Put(a.scopes, i, x, if gone then Moved else Added)))
  {
    assert AmongScope(c[i], a.scopes[i]);
    var c', a' := Put(c, i, x, gone), Put(a.scopes, i, x, if gone then Moved else Added);
    forall j | 0 <= j < |c| ensures AmongScope(c'[j], a'[j]) {
      assert AmongScope(c[j], a.scopes[j]);
    }
  }

  lemma HoldsUse(x: Local, take: bool, choices: seq<nat>, a: Paths, c: seq<Scope<bool>>)
    requires Among(c, a) && !MayBeGone(x, a)
    ensures var r := Use(x, take, choices, c); r.Next? && r.rest == choices && Among(r.scopes, if take && !x.copy then Mark(x, Moved, a) else a)
  {
    AmongAlike(c, a);
    AmongFind(c, a.scopes, x);
    var at := Find(c, x);
    if at.Some? {
      assert AmongScope(c[at.value], a.scopes[at.value]);
      hide Among, Find;
      if take && !x.copy {
        AmongPut(c, a, at.value, x, true);
      }
    }
  }

  lemma HoldsFill(x: Local, a: Paths, c: seq<Scope<bool>>)
    requires Among(c, a)
    ensures Among(Fill(x, c), Mark(x, Added, a))
  {
    AmongAlike(c, a);
    AmongFind(c, a.scopes, x);
    var at := Find(c, x);
    if at.Some? {
      hide Among;
      AmongPut(c, a, at.value, x, false);
    }
  }

  lemma {:induction false} HoldsDeclare(binds: seq<Local>, a: Paths, c: seq<Scope<bool>>)
    requires Among(c, a) && c != []
    ensures Among(Define(c, binds, false), Declare(a, binds))
    decreases |binds|
  {
    if binds != [] {
      var n, x := |c| - 1, binds[0];
      var c' := c[n := Scope(c[n].vars[x := false], c[n].order + [x])];
      var a' := a.(scopes := a.scopes[n := Scope(a.scopes[n].vars[x := Added], a.scopes[n].order + [x])]);
      assert AmongScope(c[n], a.scopes[n]);
      forall j | 0 <= j < |c| ensures AmongScope(c'[j], a'.scopes[j]) {
        assert AmongScope(c[j], a.scopes[j]);
      }
      HoldsDeclare(binds[1..], a', c');
    }
  }

  lemma HoldsPush(a: Paths, c: seq<Scope<bool>>)
    requires Among(c, a)
    ensures Among(c + [Scope(map[], [])], PushPaths(a))
  {
  }

  lemma HoldsEnter(binds: seq<Local>, a: Paths, c: seq<Scope<bool>>)
    requires Among(c, a)
    ensures Among(Enter(c, binds), EnterPaths(a, binds))
  {
    HoldsPush(a, c);
    HoldsDeclare(binds, PushPaths(a), c + [Scope(map[], [])]);
  }

  lemma HoldsPop(a: Paths, c: seq<Scope<bool>>)
    requires Among(c, a) && c != []
    ensures Among(c[..|c| - 1], PopPaths(a))
  {
  }

  lemma AmongLength(c: seq<Scope<bool>>, a: Paths)
    requires Among(c, a)
    ensures |c| == |a.scopes| && a.reached
  {
  }

  /** What is on one of two groups of paths is on one of all of them. */
  lemma HoldsJoin(a: Paths, b: Paths, c: seq<Scope<bool>>)
    requires Alike(a.scopes, b.scopes) && (Among(c, a) || Among(c, b))
    ensures Among(c, Join(a, b))
  {
    var j := Join(a, b);
    if a.reached && b.reached {
      forall i | 0 <= i < |c| ensures AmongScope(c[i], j.scopes[i]) {
        assert Among(c, a) ==> AmongScope(c[i], a.scopes[i]);
        assert Among(c, b) ==> AmongScope(c[i], b.scopes[i]);
      }
    }
  }

  lemma AlikeTwo(k: Paths, a: Paths, b: Paths)
    requires Alike(k.scopes, a.scopes) && Alike(k.scopes, b.scopes)
    ensures Alike(a.scopes, b.scopes)
  {
  }

  // ---------------------------------------------------------------
  // what is due to be dropped
  // ---------------------------------------------------------------

  lemma {:induction false} SameDue(order: seq<Local>, p: set<Local>, q: set<Local>)
    requires forall x :: x in order ==> (x in p <==> x in q)
    ensures Due(order, p) == Due(order, q)
  {
    if order != [] {
      var n := |order| - 1;
      SameDue(order[..n], p, q);
    }
  }

  lemma SettledDue(c: Scope<bool>, m: Scope<May>)
    requires AmongScope(c, m) && Settled(m)
    ensures Due(c.order, Owned(c)) == Due(m.order, MayOwn(m))
  {
    SameDue(m.order, Owned(c), MayOwn(m));
  }

  lemma {:induction false} SettledDueAll(c: seq<Scope<bool>>, a: Paths)
    requires Among(c, a) && AllSettled(a.scopes)
    ensures OwnedAll(c) == MayOwnAll(a.scopes)
    decreases |c|
  {
    if c != [] {
      var n := |c| - 1;
      SettledDue(c[n], a.scopes[n]);
      SettledDueAll(c[..n], a.(scopes := a.scopes[..n]));
    }
  }

  // ---------------------------------------------------------------
  // loops
  // ---------------------------------------------------------------

  /** The head of a loop has the paths from before it, and if nothing is found in
      a round, those after a round as well. */
  lemma {:induction false} HeadHolds(e: Expr, strict: bool, a: Paths, c: seq<Scope<bool>>)
    requires (e.Loop? || e.While?) && a.reached
    ensures var h := Head(e, strict, a);
      && (Among(c, a) ==> Among(c, h))
      && (Round(e, strict, h).ok && Among(c, Round(e, strict, h).state) ==> Among(c, h))
    decreases Missing(a.scopes)
  {
    hide Among, Missing, Join, Round, Alike;
    var r := Round(e, strict, a);
    var next := Join(a, r.state);
    if Among(c, a) || Among(c, r.state) {
      HoldsJoin(a, r.state, c);
    }
    if r.ok && next != a {
      JoinFills(a, r.state);
      HeadHolds(e, strict, next, c);
    }
  }

  // ---------------------------------------------------------------
  // the induction
  // ---------------------------------------------------------------

  lemma {:induction false} Holds(e: Expr, take: bool, strict: bool, choices: seq<nat>, a: Paths, c: seq<Scope<bool>>)
    requires Among(c, a)
    ensures Good(Exec(e, take, strict, choices, c), Trace(e, take, strict, a))
    decreases |choices|, e, 1
  {
    AmongLength(c, a);
    hide Among, Mark, MayBeGone, Use, Fill;
    match e
    case Lit =>
    case Var(x) =>
      if !MayBeGone(x, a) {
        HoldsUse(x, take, choices, a, c);
      }
    case Block(_, _) => HoldsBlock(e, take, strict, choices, a, c);
    case If(_, _, _) => HoldsIf(e, take, strict, choices, a, c);
    case Match(scrutinee, copy, arms) =>
      Holds(scrutinee, !copy, strict, choices, a, c);
      var k := Trace(scrutinee, !copy, strict, a);
      var t := Exec(scrutinee, !copy, strict, choices, c);
      if k.ok && t.Next? {
        HoldsArms(arms, take, strict, t.rest, k.state, t.scopes);
      }
    case Loop(_) =>
      HeadHolds(e, strict, a, c);
      HoldsLoop(e, take, strict, choices, a, c);
    case While(_, _) =>
      HeadHolds(e, strict, a, c);
      HoldsWhile(e, take, strict, choices, a, c);
    case Return(value, _) => HoldsReturn(e, take, strict, choices, a, c);
    case Assign(x, value) =>
      Holds(value, true, strict, choices, a, c);
      var v := Exec(value, true, strict, choices, c);
      if Trace(value, true, strict, a).ok && v.Next? {
        HoldsFill(x, Trace(value, true, strict, a).state, v.scopes);
      }
    case Apply(args, _) => HoldsArgs(args, strict, choices, a, c);
  }

  lemma {:induction false} HoldsBlock(e: Expr, take: bool, strict: bool, choices: seq<nat>, a: Paths, c: seq<Scope<bool>>)
    requires e.Block? && Among(c, a)
    ensures Good(Exec(e, take, strict, choices, c), Trace(e, take, strict, a))
    decreases |choices|, e, 0
  {
    var n := |c|;
    HoldsPush(a, c);
    HoldsStmts(e.body, take, strict, choices, PushPaths(a), c + [Scope(map[], [])]);
    var t := TraceStmts(e.body, take, strict, PushPaths(a));
    var b := ExecStmts(e.body, take, strict, choices, c + [Scope(map[], [])]);
    if t.ok && b.Next? {
      HoldsPop(t.state, b.scopes);
      assert AmongScope(b.scopes[n], t.state.scopes[n]);
      if strict && Settled(t.state.scopes[n]) {
        SettledDue(b.scopes[n], t.state.scopes[n]);
      }
    }
    hide Among;
  }

  lemma {:induction false} HoldsIf(e: Expr, take: bool, strict: bool, choices: seq<nat>, a: Paths, c: seq<Scope<bool>>)
    requires e.If? && Among(c, a)
    ensures Good(Exec(e, take, strict, choices, c), Trace(e, take, strict, a))
    decreases |choices|, e, 0
  {
    AmongLength(c, a);
    hide Among, Join, Alike;
    var k := Trace(e.cond, false, strict, a);
    Holds(e.cond, false, strict, choices, a, c);
    var t := Exec(e.cond, false, strict, choices, c);
    if k.ok && t.Next? && t.rest != [] {
      var p, q := Trace(e.thn, take, strict, k.state), Trace(e.els, take, strict, k.state);
      var chosen := if t.rest[0] == 0 then e.els else e.thn;
      Holds(chosen, take, strict, t.rest[1..], k.state, t.scopes);
      var r := Exec(chosen, take, strict, t.rest[1..], t.scopes);
      if p.ok && q.ok && r.Next? {
        AlikeTwo(k.state, p.state, q.state);
        HoldsJoin(p.state, q.state, r.scopes);
      }
    }
  }

  lemma {:induction false} HoldsReturn(e: Expr, take: bool, strict: bool, choices: seq<nat>, a: Paths, c: seq<Scope<bool>>)
    requires e.Return? && Among(c, a)
    ensures Good(Exec(e, take, strict, choices, c), Trace(e, take, strict, a))
    decreases |choices|, e, 0
  {
    AmongLength(c, a);
    hide Among;
    var k := Trace(e.value, true, strict, a);
    Holds(e.value, true, strict, choices, a, c);
    var v := Exec(e.value, true, strict, choices, c);
    if k.ok && v.Next? {
      AmongLength(v.scopes, k.state);
      if AllSettled(k.state.scopes) {
        SettledDueAll(v.scopes, k.state);
      }
    }
  }

  /** From the head of a loop. */
  lemma {:induction false} HoldsLoop(e: Expr, take: bool, strict: bool, choices: seq<nat>, a: Paths, c: seq<Scope<bool>>)
    requires e.Loop? && a.reached && Among(c, Head(e, strict, a))
    ensures Good(Exec(e, take, strict, choices, c), Trace(e, take, strict, a))
    decreases |choices|, e, 0
  {
    hide Among, Head;
    if choices != [] {
      var h := Head(e, strict, a);
      Holds(e.body_, false, strict, choices[1..], h, c);
      var b := Exec(e.body_, false, strict, choices[1..], c);
      if Round(e, strict, h).ok && b.Next? {
        HeadHolds(e, strict, a, b.scopes);
        HoldsLoop(e, take, strict, b.rest, a, b.scopes);
      }
    }
  }

  lemma {:induction false} HoldsWhile(e: Expr, take: bool, strict: bool, choices: seq<nat>, a: Paths, c: seq<Scope<bool>>)
    requires e.While? && a.reached && Among(c, Head(e, strict, a))
    ensures Good(Exec(e, take, strict, choices, c), Trace(e, take, strict, a))
    decreases |choices|, e, 0
  {
    hide Among, Head;
    var h := Head(e, strict, a);
    var k := Trace(e.cond, false, strict, h);
    Holds(e.cond, false, strict, choices, h, c);
    var t := Exec(e.cond, false, strict, choices, c);
    if k.ok && t.Next? && t.rest != [] && t.rest[0] != 0 {
      Holds(e.body_, false, strict, t.rest[1..], k.state, t.scopes);
      var b := Exec(e.body_, false, strict, t.rest[1..], t.scopes);
      if Round(e, strict, h).ok && b.Next? {
        HeadHolds(e, strict, a, b.scopes);
        HoldsWhile(e, take, strict, b.rest, a, b.scopes);
      }
    }
  }

  lemma {:induction false} HoldsStmts(st: Stmts, take: bool, strict: bool, choices: seq<nat>, a: Paths, c: seq<Scope<bool>>)
    requires c != [] && Among(c, a)
    ensures a.scopes != [] && Good(ExecStmts(st, take, strict, choices, c), TraceStmts(st, take, strict, a))
    decreases |choices|, st
  {
    AmongLength(c, a);
    hide Among;
    match st
    case Tail(tail) => Holds(tail, take, strict, choices, a, c);
    case Let(binds, copy, value, rest) =>
      Holds(value, !copy, strict, choices, a, c);
      var k := Trace(value, !copy, strict, a);
      var v := Exec(value, !copy, strict, choices, c);
      if k.ok && v.Next? {
        HoldsDeclare(binds, k.state, v.scopes);
        HoldsStmts(rest, take, strict, v.rest, Declare(k.state, binds), Define(v.scopes, binds, false));
      }
    case Do(e, copy, rest) =>
      Holds(e, !copy, strict, choices, a, c);
      var k := Trace(e, !copy, strict, a);
      var v := Exec(e, !copy, strict, choices, c);
      if k.ok && v.Next? {
        HoldsStmts(rest, take, strict, v.rest, k.state, v.scopes);
      }
  }

  lemma {:induction false} HoldsArgs(args: Args, strict: bool, choices: seq<nat>, a: Paths, c: seq<Scope<bool>>)
    requires Among(c, a)
    ensures Good(ExecArgs(args, strict, choices, c), TraceArgs(args, strict, a))
    decreases |choices|, args
  {
    AmongLength(c, a);
    hide Among;
    match args
    case NoArgs =>
    case Arg(e, taken, rest) =>
      Holds(e, taken, strict, choices, a, c);
      var k := Trace(e, taken, strict, a);
      var v := Exec(e, taken, strict, choices, c);
      if k.ok && v.Next? {
        HoldsArgs(rest, strict, v.rest, k.state, v.scopes);
      }
  }

  lemma {:induction false} HoldsArms(arms: Arms, take: bool, strict: bool, choices: seq<nat>, a: Paths, c: seq<Scope<bool>>)
    requires Among(c, a)
    ensures Good(ExecArms(arms, take, strict, choices, c), TraceArms(arms, take, strict, a))
    decreases |choices|, arms, 1
  {
    AmongLength(c, a);
    hide Among;
    if arms.Arm? && choices != [] {
      HoldsArm(arms, take, strict, choices, a, c);
    }
  }

  /** The paths after an arm and those after the ones behind it are of one shape. */
  lemma ArmShapes(arms: Arms, take: bool, strict: bool, a: Paths)
    requires arms.Arm?
    ensures var g := Trace(arms.guard, false, strict, EnterPaths(a, arms.binds)).state;
      Alike(EnterPaths(a, arms.binds).scopes, g.scopes) && Alike(a.scopes, PopPaths(g).scopes)
      && Alike(PopPaths(Trace(arms.body, take, strict, g).state).scopes, TraceArms(arms.rest, take, strict, Join(a, PopPaths(g))).state.scopes)
  {
    hide EnterPaths, Join, Alike, Trace, TraceArms;
    var g := Trace(arms.guard, false, strict, EnterPaths(a, arms.binds)).state;
    var b := Trace(arms.body, take, strict, g).state;
    ShapeLength(EnterPaths(a, arms.binds), g);
    ShapeLength(g, b);
    PopAlike(a, arms.binds, g);
    var later := Join(a, PopPaths(g));
    var l := TraceArms(arms.rest, take, strict, later).state;
    PopTwice(a, arms.binds, g, b);
    AlikeThen(a, later, l);
    AlikeTwo(a, PopPaths(b), l);
  }

  /** What following an arm comes to. */
  lemma TraceArm(arms: Arms, take: bool, strict: bool, a: Paths)
    requires arms.Arm? && a.reached
    ensures var g := Trace(arms.guard, false, strict, EnterPaths(a, arms.binds));
      var b := Trace(arms.body, take, strict, g.state);
      var l := TraceArms(arms.rest, take, strict, Join(a, PopPaths(g.state)));
      TraceArms(arms, take, strict, a) == Traced(Join(PopPaths(b.state), l.state), g.ok && b.ok && l.ok)
  {
    hide Trace, EnterPaths, Join;
  }

  /** What running an arm comes to. */
  lemma ExecArm(arms: Arms, take: bool, strict: bool, choices: seq<nat>, c: seq<Scope<bool>>)
    requires arms.Arm? && choices != []
    ensures var g := Exec(arms.guard, false, strict, choices[1..], Enter(c, arms.binds));
      ExecArms(arms, take, strict, choices, c) ==
        if choices[0] == 0 then ExecArms(arms.rest, take, strict, choices[1..], c)
        else if !g.Next? then g
        else if g.rest == [] then Cut
        else if g.rest[0] == 0 then ExecArms(arms.rest, take, strict, g.rest[1..], g.scopes[..|c|])
        else Leave(Exec(arms.body, take, strict, g.rest[1..], g.scopes), |c|)
  {
    hide Exec, Enter;
  }

  function Leave(r: Result, n: nat): Result {
    if r.Next? && n <= |r.scopes| then Next(r.scopes[..n], r.rest) else r
  }

  lemma {:induction false} HoldsArm(arms: Arms, take: bool, strict: bool, choices: seq<nat>, a: Paths, c: seq<Scope<bool>>)
    requires arms.Arm? && choices != [] && Among(c, a)
    ensures Good(ExecArms(arms, take, strict, choices, c), TraceArms(arms, take, strict, a))
    decreases |choices|, arms, 0
  {
    AmongLength(c, a);
    ArmShapes(arms, take, strict, a);
    TraceArm(arms, take, strict, a);
    ExecArm(arms, take, strict, choices, c);
    hide Among, EnterPaths, Enter, Join, Alike, Trace, TraceArms, Exec, ExecArms, Leave, Good;
    var g := Trace(arms.guard, false, strict, EnterPaths(a, arms.binds));
    ShapeLength(EnterPaths(a, arms.binds), g.state);
    var failed := PopPaths(g.state);
    if choices[0] == 0 {
      HoldsJoin(a, failed, c);
      HoldsLater(arms, take, strict, choices[1..], a, c);
    } else {
      HoldsEnter(arms.binds, a, c);
      Holds(arms.guard, false, strict, choices[1..], EnterPaths(a, arms.binds), Enter(c, arms.binds));
      var h := Exec(arms.guard, false, strict, choices[1..], Enter(c, arms.binds));
      GoodGuard(h, g, TraceArms(arms, take, strict, a));
      if h.Next? && h.rest != [] && g.ok {
        AmongLength(h.scopes, g.state);
        if h.rest[0] == 0 {
          HoldsPop(g.state, h.scopes);
          HoldsJoin(a, failed, h.scopes[..|c|]);
          HoldsLater(arms, take, strict, h.rest[1..], a, h.scopes[..|c|]);
        } else {
          Holds(arms.body, take, strict, h.rest[1..], g.state, h.scopes);
          BodyGood(Trace(arms.body, take, strict, g.state), TraceArms(arms.rest, take, strict, Join(a, failed)),
                   Exec(arms.body, take, strict, h.rest[1..], h.scopes), |c|, TraceArms(arms, take, strict, a));
        }
      }
    }
  }

  /** A guard that goes wrong was found, and one that does not go on needs no more. */
  lemma GoodGuard(h: Result, g: Traced, t: Traced)
    requires Good(h, g) && (t.ok ==> g.ok)
    ensures h.Next? && g.ok ==> Among(h.scopes, g.state)
    ensures !h.Next? ==> Good(h, t)
    ensures Good(Cut, t)
    ensures !g.ok ==> forall r :: Good(r, t)
  {
  }

  /** Trying the arms behind one. */
  lemma {:induction false} HoldsLater(arms: Arms, take: bool, strict: bool, choices: seq<nat>, a: Paths, d: seq<Scope<bool>>)
    requires arms.Arm? && a.reached && Among(d, Join(a, PopPaths(Trace(arms.guard, false, strict, EnterPaths(a, arms.binds)).state)))
    ensures Good(ExecArms(arms.rest, take, strict, choices, d), TraceArms(arms, take, strict, a))
    decreases |choices|, arms, 0
  {
    ArmShapes(arms, take, strict, a);
    TraceArm(arms, take, strict, a);
    hide Among, EnterPaths, Join, Alike, Trace, TraceArms, ExecArms;
    var g := Trace(arms.guard, false, strict, EnterPaths(a, arms.binds));
    var b := Trace(arms.body, take, strict, g.state);
    ShapeLength(EnterPaths(a, arms.binds), g.state);
    var later := Join(a, PopPaths(g.state));
    HoldsArms(arms.rest, take, strict, choices, later, d);
    var l := TraceArms(arms.rest, take, strict, later);
    if l.ok {
      JoinGood(PopPaths(b.state), l, ExecArms(arms.rest, take, strict, choices, d));
    }
  }

  lemma ShapeLength(a: Paths, b: Paths)
    requires Alike(a.scopes, b.scopes)
    ensures |a.scopes| == |b.scopes|
  {
  }

  lemma BodyGood(b: Traced, l: Traced, q: Result, n: nat, t: Traced)
    requires Good(q, b) && |b.state.scopes| == n + 1 && Alike(PopPaths(b.state).scopes, l.state.scopes)
    requires t.ok ==> b.ok && t.state == Join(PopPaths(b.state), l.state)
    ensures Good(Leave(q, n), t)
  {
    hide Join, Alike;
    if q.Next? && b.ok {
      AmongLength(q.scopes, b.state);
      hide Among;
      HoldsPop(b.state, q.scopes);
      HoldsJoin(PopPaths(b.state), l.state, q.scopes[..n]);
    }
  }

  lemma AlikeThen(a: Paths, b: Paths, c: Paths)
    requires Alike(a.scopes, b.scopes) && Alike(b.scopes, c.scopes)
    ensures Alike(a.scopes, c.scopes)
  {
  }

  lemma PopTwice(a: Paths, binds: seq<Local>, g: Paths, b: Paths)
    requires Alike(EnterPaths(a, binds).scopes, g.scopes) && Alike(g.scopes, b.scopes)
    ensures Alike(a.scopes, PopPaths(b).scopes)
  {
    hide EnterPaths;
    AlikeThen(EnterPaths(a, binds), g, b);
    PopAlike(a, binds, b);
  }

  lemma JoinGood(a: Paths, l: Traced, r: Result)
    requires Alike(a.scopes, l.state.scopes) && Good(r, l) && l.ok
    ensures !Wrong(r) && (r.Next? ==> Among(r.scopes, Join(a, l.state)))
  {
    hide Among, Join, Alike;
    if r.Next? {
      HoldsJoin(a, l.state, r.scopes);
    }
  }
}
