/** The move analysis is sound and the drop plan exact: what the analysis says
    of a body holds in every run of it. */
module MoveSoundness {
  import opened Borrow

  // ---------------------------------------------------------------
  // what an expression may move and assign
  // ---------------------------------------------------------------

  /** Non-Copy locals an expression mentions as taken, and as assigned. */
  datatype Effects = Effects(moves: set<Local>, assigns: set<Local>)

  const Nothing := Effects({}, {})

  function Both(f: Effects, g: Effects): Effects {
    Effects(f.moves + g.moves, f.assigns + g.assigns)
  }

  predicate Within(f: Effects, g: Effects) {
    f.moves <= g.moves && f.assigns <= g.assigns
  }

  function One(x: Local): set<Local> {
    if x.copy then {} else {x}
  }

  function Effect(e: Expr, take: bool): Effects {
    match e
    case Lit => Nothing
    case Var(x) => Effects(if take then One(x) else {}, {})
    case Block(body, _) => EffectStmts(body, take)
    case If(cond, thn, els) => Both(Effect(cond, false), Both(Effect(thn, take), Effect(els, take)))
    case Match(scrutinee, copy, arms) => Both(Effect(scrutinee, !copy), EffectArms(arms, take))
    case Loop(body) => Effect(body, false)
    case While(cond, body) => Both(Effect(cond, false), Effect(body, false))
    case Return(value, _) => Effect(value, true)
    case Assign(x, value) => Both(Effect(value, true), Effects({}, One(x)))
    case Apply(args, _) => EffectArgs(args)
  }

  function EffectStmts(st: Stmts, take: bool): Effects {
    match st
    case Tail(tail) => Effect(tail, take)
    case Let(_, copy, value, rest) => Both(Effect(value, !copy), EffectStmts(rest, take))
    case Do(e, copy, rest) => Both(Effect(e, !copy), EffectStmts(rest, take))
  }

  function EffectArgs(args: Args): Effects {
    match args
    case NoArgs => Nothing
    case Arg(e, taken, rest) => Both(Effect(e, taken), EffectArgs(rest))
  }

  function EffectArms(arms: Arms, take: bool): Effects {
    match arms
    case NoArms => Nothing
    case Arm(_, guard, body, rest) => Both(Both(Effect(guard, false), Effect(body, take)), EffectArms(rest, take))
  }

  // ---------------------------------------------------------------
  // how the analysis changes its state
  // ---------------------------------------------------------------

  /** Move counts only grow, a local that becomes moved has its count raised and
      is one of those taken, and one that is no longer moved was assigned. */
  predicate Shifts(x: Local, a: Binding, b: Binding, f: Effects) {
    && a.count <= b.count
    && (b.moved && !a.moved ==> a.count < b.count && x in f.moves && !x.copy)
    && (a.moved && !b.moved ==> x in f.assigns || x.copy)
  }

  predicate Evolves(a: Scope<Binding>, b: Scope<Binding>, f: Effects) {
    && a.order == b.order && a.vars.Keys == b.vars.Keys
    && forall x :: x in a.vars ==> Shifts(x, a.vars[x], b.vars[x], f)
  }

  predicate AllEvolve(a: seq<Scope<Binding>>, b: seq<Scope<Binding>>, f: Effects) {
    && |a| == |b|
    && forall i :: 0 <= i < |a| ==> Evolves(a[i], b[i], f)
  }

  lemma Same(a: seq<Scope<Binding>>, f: Effects)
    ensures AllEvolve(a, a, f)
  {
  }

  lemma Then(a: seq<Scope<Binding>>, b: seq<Scope<Binding>>, c: seq<Scope<Binding>>, f: Effects, g: Effects, h: Effects)
    requires AllEvolve(a, b, f) && AllEvolve(b, c, g) && Within(f, h) && Within(g, h)
    ensures AllEvolve(a, c, h)
  {
    forall i | 0 <= i < |a| ensures Evolves(a[i], c[i], h) {
      assert Evolves(a[i], b[i], f) && Evolves(b[i], c[i], g);
      forall x | x in a[i].vars ensures Shifts(x, a[i].vars[x], c[i].vars[x], h) {
        assert Shifts(x, a[i].vars[x], b[i].vars[x], f) && Shifts(x, b[i].vars[x], c[i].vars[x], g);
      }
    }
  }

  lemma Wider(a: seq<Scope<Binding>>, b: seq<Scope<Binding>>, f: Effects, h: Effects)
    requires AllEvolve(a, b, f) && Within(f, h)
    ensures AllEvolve(a, b, h)
  {
    Same(b, h);
    Then(a, b, b, f, h, h);
  }

  lemma {:induction false} MaxCountBound(branches: seq<State>, i: nat, x: Local)
    ensures forall b :: b in branches ==> CountIn(b, i, x) <= MaxCount(branches, i, x)
  {
    if branches != [] {
      MaxCountBound(branches[1..], i, x);
    }
  }

  lemma EvolvedBinding(before: State, branches: seq<State>, i: nat, x: Local, f: Effects)
    requires branches != [] && i < |before.scopes| && x in before.scopes[i].vars
    requires forall b :: b in branches ==> AllEvolve(before.scopes, b.scopes, f)
    ensures Shifts(x, before.scopes[i].vars[x], MergedBinding(before.scopes[i].vars[x], branches, i, x), f)
  {
    MaxCountBound(branches, i, x);
    forall b | b in branches ensures i < |b.scopes| && x in b.scopes[i].vars && Shifts(x, before.scopes[i].vars[x], b.scopes[i].vars[x], f) {
      assert Evolves(before.scopes[i], b.scopes[i], f);
    }
    assert branches[0] in branches;
    if AnyReachable(branches) {
      var b :| b in branches && b.reachable;
      assert AllMoved(branches, i, x) ==> MovedIn(b, i, x);
      assert NoneMoved(branches, i, x) ==> !MovedIn(b, i, x);
    }
  }

  lemma EvolvedMerge(before: State, branches: seq<State>, f: Effects)
    requires forall b :: b in branches ==> AllEvolve(before.scopes, b.scopes, f)
    ensures AllEvolve(before.scopes, Merge(before, branches).scopes, f)
  {
    if branches == [] {
      Same(before.scopes, f);
    } else {
      var after := Merge(before, branches).scopes;
      forall i | 0 <= i < |before.scopes| ensures Evolves(before.scopes[i], after[i], f) {
        forall x | x in before.scopes[i].vars ensures Shifts(x, before.scopes[i].vars[x], after[i].vars[x], f) {
          EvolvedBinding(before, branches, i, x, f);
        }
      }
    }
  }

  lemma EvolvedMention(x: Local, take: bool, s: State)
    ensures AllEvolve(s.scopes, Mention(x, take, s).state.scopes, Effect(Var(x), take))
  {
  }

  lemma EvolvedRevive(x: Local, s: State)
    ensures AllEvolve(s.scopes, Revive(x, s).scopes, Effects({}, One(x)))
  {
  }

  lemma Shorter(a: seq<Scope<Binding>>, b: seq<Scope<Binding>>, n: nat, f: Effects)
    requires AllEvolve(a, b, f) && n <= |a|
    ensures AllEvolve(a[..n], b[..n], f)
  {
  }

  /** An expression leaves every scope with the bindings it had, and changes
      them only as far as what it mentions allows. */
  lemma {:induction false} Evolved(e: Expr, take: bool, s: State)
    ensures AllEvolve(s.scopes, Visit(e, take, s).state.scopes, Effect(e, take))
    ensures !s.reachable ==> !Visit(e, take, s).state.reachable
    decreases e, 1
  {
    hide AllEvolve, Merge, LoopOk, Agree, Live, LiveAll, Mention, Revive;
    var f := Effect(e, take);
    match e
    case Lit => Same(s.scopes, f);
    case Var(x) =>
      EvolvedMention(x, take, s);
      MentionReach(x, take, s);
    case Block(body, _) =>
      var b := VisitStmts(body, take, Push(s));
      EvolvedStmts(body, take, Push(s));
      assert Push(s).scopes[..|s.scopes|] == s.scopes;
    case If(_, _, _) => EvolvedIf(e, take, s);
    case Match(_, _, _) => EvolvedMatch(e, take, s);
    case Loop(body) => Same(s.scopes, f);
    case While(cond, body) =>
      Evolved(cond, false, s);
      Wider(s.scopes, Visit(cond, false, s).state.scopes, Effect(cond, false), f);
    case Return(value, _) => Evolved(value, true, s);
    case Assign(x, value) =>
      var v := Visit(value, true, s).state;
      Evolved(value, true, s);
      EvolvedRevive(x, v);
      ReviveReach(x, v);
      Then(s.scopes, v.scopes, Revive(x, v).scopes, Effect(value, true), Effects({}, One(x)), f);
    case Apply(args, _) => EvolvedArgs(args, s);
  }

  lemma {:induction false} EvolvedIf(e: Expr, take: bool, s: State)
    requires e.If?
    ensures AllEvolve(s.scopes, Visit(e, take, s).state.scopes, Effect(e, take))
    ensures !s.reachable ==> !Visit(e, take, s).state.reachable
    decreases e, 0
  {
    hide AllEvolve, Merge, Agree;
    var c := Visit(e.cond, false, s).state;
    Evolved(e.cond, false, s);
    Evolved(e.thn, take, c);
    Evolved(e.els, take, c);
    EvolvedBranches(s, c, [Visit(e.thn, take, c).state, Visit(e.els, take, c).state], Effect(e, take),
                    Effect(e.cond, false), [Effect(e.thn, take), Effect(e.els, take)]);
  }

  lemma {:induction false} EvolvedMatch(e: Expr, take: bool, s: State)
    requires e.Match?
    ensures AllEvolve(s.scopes, Visit(e, take, s).state.scopes, Effect(e, take))
    ensures !s.reachable ==> !Visit(e, take, s).state.reachable
    decreases e, 0
  {
    hide AllEvolve, Merge, Agree;
    var c := Visit(e.scrutinee, !e.copy, s).state;
    Evolved(e.scrutinee, !e.copy, s);
    EvolvedArms(e.arms, take, c);
    var branches := VisitArms(e.arms, take, c).1;
    EvolvedBranches(s, c, branches, Effect(e, take), Effect(e.scrutinee, !e.copy), seq(|branches|, _ => EffectArms(e.arms, take)));
  }

  lemma MentionNode(x: Local, take: bool, s: State)
    ensures Mention(x, take, s).node == Var(x)
  {
  }

  lemma MentionReach(x: Local, take: bool, s: State)
    ensures Mention(x, take, s).state.reachable == s.reachable
  {
  }

  lemma ReviveReach(x: Local, s: State)
    ensures Revive(x, s).reachable == s.reachable
  {
  }

  lemma EvolvedBranches(s: State, before: State, branches: seq<State>, f: Effects, g: Effects, hs: seq<Effects>)
    requires AllEvolve(s.scopes, before.scopes, g) && (!s.reachable ==> !before.reachable) && Within(g, f)
    requires |hs| == |branches|
    requires forall j :: 0 <= j < |branches| ==>
      AllEvolve(before.scopes, branches[j].scopes, hs[j]) && Within(hs[j], f) && (!before.reachable ==> !branches[j].reachable)
    ensures AllEvolve(s.scopes, Merge(before, branches).scopes, f)
    ensures !s.reachable ==> !Merge(before, branches).reachable
  {
    hide AllEvolve;
    forall b | b in branches ensures AllEvolve(before.scopes, b.scopes, f) {
      var j :| 0 <= j < |branches| && branches[j] == b;
      Wider(before.scopes, b.scopes, hs[j], f);
    }
    EvolvedMerge(before, branches, f);
    Then(s.scopes, before.scopes, Merge(before, branches).scopes, g, f, f);
  }

  /** Statements may declare in the innermost scope; the others only evolve. */
  lemma {:induction false} EvolvedStmts(st: Stmts, take: bool, s: State)
    requires s.scopes != []
    ensures var n := |s.scopes| - 1; AllEvolve(s.scopes[..n], VisitStmts(st, take, s).state.scopes[..n], EffectStmts(st, take))
    ensures !s.reachable ==> !VisitStmts(st, take, s).state.reachable
    decreases st
  {
    hide AllEvolve;
    var n, f := |s.scopes| - 1, EffectStmts(st, take);
    if !s.reachable {
      Same(s.scopes[..n], f);
    } else {
      match st
      case Tail(tail) =>
        Evolved(tail, take, s);
        Shorter(s.scopes, Visit(tail, take, s).state.scopes, n, f);
      case Let(binds, copy, value, rest) =>
        var v := Visit(value, !copy, s).state;
        var d := v.(scopes := Define(v.scopes, binds, Fresh));
        Evolved(value, !copy, s);
        EvolvedStmts(rest, take, d);
        Shorter(s.scopes, v.scopes, n, Effect(value, !copy));
        Then(s.scopes[..n], v.scopes[..n], VisitStmts(rest, take, d).state.scopes[..n], Effect(value, !copy), EffectStmts(rest, take), f);
      case Do(e, copy, rest) =>
        var v := Visit(e, !copy, s).state;
        Evolved(e, !copy, s);
        EvolvedStmts(rest, take, v);
        Shorter(s.scopes, v.scopes, n, Effect(e, !copy));
        Then(s.scopes[..n], v.scopes[..n], VisitStmts(rest, take, v).state.scopes[..n], Effect(e, !copy), EffectStmts(rest, take), f);
    }
  }

  lemma {:induction false} EvolvedArgs(args: Args, s: State)
    ensures AllEvolve(s.scopes, VisitArgs(args, s).state.scopes, EffectArgs(args))
    ensures !s.reachable ==> !VisitArgs(args, s).state.reachable
    decreases args
  {
    hide AllEvolve;
    match args
    case NoArgs => Same(s.scopes, Nothing);
    case Arg(e, taken, rest) =>
      var a := Visit(e, taken, s).state;
      Evolved(e, taken, s);
      EvolvedArgs(rest, a);
      Then(s.scopes, a.scopes, VisitArgs(rest, a).state.scopes, Effect(e, taken), EffectArgs(rest), EffectArgs(args));
  }

  lemma {:induction false} EvolvedArms(arms: Arms, take: bool, before: State)
    ensures forall b :: b in VisitArms(arms, take, before).1 ==>
      AllEvolve(before.scopes, b.scopes, EffectArms(arms, take)) && (!before.reachable ==> !b.reachable)
    decreases arms
  {
    hide AllEvolve;
    match arms
    case NoArms =>
    case Arm(binds, guard, body, rest) =>
      var n, f := |before.scopes|, EffectArms(arms, take);
      var start := Bound(before, binds);
      var g := Visit(guard, false, start).state;
      var b := Visit(body, take, g).state;
      Evolved(guard, false, start);
      Evolved(body, take, g);
      Then(start.scopes, g.scopes, b.scopes, Effect(guard, false), Effect(body, take), f);
      Shorter(start.scopes, b.scopes, n, f);
      assert start.scopes[..n] == before.scopes;
      EvolvedArms(rest, take, before);
      forall c | c in VisitArms(rest, take, before).1 ensures AllEvolve(before.scopes, c.scopes, f) {
        Wider(before.scopes, c.scopes, EffectArms(rest, take), f);
      }
  }

  // ---------------------------------------------------------------
  // the bodies the claims are about
  // ---------------------------------------------------------------

  /** Nothing live before is moved where `after` can be passed. */
  predicate Returns(before: State, after: State) {
    after.reachable ==>
      forall i, x :: 0 <= i < |before.scopes| && x in before.scopes[i].vars && MovedIn(after, i, x) ==> before.scopes[i].vars[x].moved
  }

  /** Nothing moved before is live where `after` can be passed. */
  predicate Kept(before: State, after: State) {
    after.reachable ==>
      forall i, x :: 0 <= i < |before.scopes| && x in before.scopes[i].vars && before.scopes[i].vars[x].moved ==> MovedIn(after, i, x)
  }

  /** What a condition of a `while` loop moves, the body gives back, and guards of
      arms move nothing. With `exact`, loops and guards also give nothing back
      that was moved before them; a loop may still move a local it found live and
      assign it again. */
  predicate Regular(e: Expr, take: bool, s: State, exact: bool) {
    match e
    case Lit => true
    case Var(_) => true
    case Block(body, _) => RegularStmts(body, take, Push(s), exact)
    case If(cond, thn, els) =>
      var c := Visit(cond, false, s).state;
      Regular(cond, false, s, exact) && Regular(thn, take, c, exact) && Regular(els, take, c, exact)
    case Match(scrutinee, copy, arms) =>
      Regular(scrutinee, !copy, s, exact) && RegularArms(arms, take, Visit(scrutinee, !copy, s).state, exact)
    case Loop(body) => Regular(body, false, s, exact) && (exact ==> Kept(s, Visit(body, false, s).state))
    case While(cond, body) =>
      var c := Visit(cond, false, s).state;
      var b := Visit(body, false, c).state;
      && Regular(cond, false, s, exact) && Regular(body, false, c, exact)
      && Returns(s, b) && (exact ==> Kept(s, b))
    case Return(value, _) => Regular(value, true, s, exact)
    case Assign(_, value) => Regular(value, true, s, exact)
    case Apply(args, _) => RegularArgs(args, s, exact)
  }

  predicate RegularStmts(st: Stmts, take: bool, s: State, exact: bool)
    requires s.scopes != []
  {
    s.reachable ==>
      match st
      case Tail(tail) => Regular(tail, take, s, exact)
      case Let(binds, copy, value, rest) =>
        var v := Visit(value, !copy, s).state;
        Regular(value, !copy, s, exact) && RegularStmts(rest, take, v.(scopes := Define(v.scopes, binds, Fresh)), exact)
      case Do(e, copy, rest) => Regular(e, !copy, s, exact) && RegularStmts(rest, take, Visit(e, !copy, s).state, exact)
  }

  predicate RegularArgs(args: Args, s: State, exact: bool) {
    match args
    case NoArgs => true
    case Arg(e, taken, rest) => Regular(e, taken, s, exact) && RegularArgs(rest, Visit(e, taken, s).state, exact)
  }

  predicate RegularArms(arms: Arms, take: bool, s: State, exact: bool) {
    match arms
    case NoArms => true
    case Arm(binds, guard, body, rest) =>
      var start := Bound(s, binds);
      var g := Visit(guard, false, start).state;
      && Regular(guard, false, start, exact) && Regular(body, take, g, exact)
      && Returns(s, Pop(g)) && (exact ==> Kept(s, Pop(g)))
      && RegularArms(rest, take, s, exact)
  }

  // ---------------------------------------------------------------
  // the analysis covers the run
  // ---------------------------------------------------------------

  predicate CoversScope(exact: bool, c: Scope<bool>, a: Scope<Binding>) {
    && c.order == a.order && c.vars.Keys == a.vars.Keys
    && forall x :: x in a.vars ==>
      && x in a.order
      && (c.vars[x] ==> a.vars[x].moved)
      && (exact && a.vars[x].moved ==> c.vars[x])
      && (x.copy ==> !a.vars[x].moved)
  }

  /** Whatever is gone is marked as moved; with `exact`, and nothing else. */
  predicate Covers(exact: bool, c: seq<Scope<bool>>, a: seq<Scope<Binding>>) {
    && |c| == |a|
    && forall i :: 0 <= i < |a| ==> CoversScope(exact, c[i], a[i])
  }

  predicate Safe(exact: bool, r: Result, s: State) {
    && !r.UsedMoved? && !r.WrongDrops?
    && (r.Next? ==> s.reachable && Covers(exact, r.scopes, s.scopes))
  }

  lemma {:induction false} SameFind(exact: bool, c: seq<Scope<bool>>, a: seq<Scope<Binding>>, x: Local)
    requires Covers(exact, c, a)
    ensures Find(c, x) == Find(a, x)
  {
    if a != [] {
      var n := |a| - 1;
      assert CoversScope(exact, c[n], a[n]);
      SameFind(exact, c[..n], a[..n], x);
    }
  }

  lemma SoundPut(exact: bool, c: seq<Scope<bool>>, a: seq<Scope<Binding>>, i: nat, x: Local, gone: bool, b: Binding)
    requires Covers(exact, c, a) && i < |a| && x in a[i].vars
    requires gone == b.moved && (x.copy ==> !b.moved)
    ensures Covers(exact, Put(c, i, x, gone), Put(a, i, x, b))
  {
    assert CoversScope(exact, c[i], a[i]);
    assert CoversScope(exact, Put(c, i, x, gone)[i], Put(a, i, x, b)[i]);
  }

  lemma CoversAt(exact: bool, c: seq<Scope<bool>>, a: seq<Scope<Binding>>, i: nat, x: Local)
    requires Covers(exact, c, a) && i < |a| && x in a[i].vars
    ensures i < |c| && x in c[i].vars && (c[i].vars[x] ==> a[i].vars[x].moved)
  {
    assert CoversScope(exact, c[i], a[i]);
  }

  lemma SoundMention(x: Local, take: bool, exact: bool, choices: seq<nat>, c: seq<Scope<bool>>, s: State)
    requires s.reachable && Covers(exact, c, s.scopes) && Mention(x, take, s).ok
    ensures Mention(x, take, s).node == Var(x)
    ensures Safe(exact, Use(x, take, choices, c), Mention(x, take, s).state)
  {
    hide Covers, Find, Put;
    SameFind(exact, c, s.scopes, x);
    var at := Find(s.scopes, x);
    if at.Some? {
      CoversAt(exact, c, s.scopes, at.value, x);
      if take && !x.copy {
        SoundPut(exact, c, s.scopes, at.value, x, true, Binding(true, s.scopes[at.value].vars[x].count + 1));
      }
    }
  }

  lemma SoundRevive(x: Local, exact: bool, c: seq<Scope<bool>>, s: State)
    requires Covers(exact, c, s.scopes)
    ensures Covers(exact, Fill(x, c), Revive(x, s).scopes)
  {
    SameFind(exact, c, s.scopes, x);
    hide CoversScope;
    var at := Find(s.scopes, x);
    if at.Some? {
      SoundPut(exact, c, s.scopes, at.value, x, false, s.scopes[at.value].vars[x].(moved := false));
    }
  }

  lemma {:induction false} SoundDefine(binds: seq<Local>, exact: bool, c: seq<Scope<bool>>, a: seq<Scope<Binding>>)
    requires Covers(exact, c, a) && c != []
    ensures Covers(exact, Define(c, binds, false), Define(a, binds, Fresh))
    decreases |binds|
  {
    if binds != [] {
      var n := |a| - 1;
      var x := binds[0];
      var c' := c[n := Scope(c[n].vars[x := false], c[n].order + [x])];
      var a' := a[n := Scope(a[n].vars[x := Fresh], a[n].order + [x])];
      assert CoversScope(exact, c[n], a[n]);
      assert CoversScope(exact, c'[n], a'[n]);
      SoundDefine(binds[1..], exact, c', a');
    }
  }

  lemma SoundPush(exact: bool, c: seq<Scope<bool>>, s: State)
    requires Covers(exact, c, s.scopes)
    ensures Covers(exact, c + [Scope(map[], [])], Push(s).scopes)
  {
  }

  lemma SoundPop(exact: bool, c: seq<Scope<bool>>, s: State)
    requires Covers(exact, c, s.scopes) && c != []
    ensures Covers(exact, c[..|c| - 1], Pop(s).scopes)
  {
  }

  lemma SoundBound(binds: seq<Local>, exact: bool, c: seq<Scope<bool>>, s: State)
    requires Covers(exact, c, s.scopes)
    ensures Covers(exact, Enter(c, binds), Bound(s, binds).scopes)
  {
    SoundPush(exact, c, s);
    SoundDefine(binds, exact, c + [Scope(map[], [])], Push(s).scopes);
  }

  lemma CoversLength(exact: bool, c: seq<Scope<bool>>, a: seq<Scope<Binding>>)
    requires Covers(exact, c, a)
    ensures |c| == |a|
  {
  }

  /** The locals that are live in the run are those the analysis takes to be. */
  lemma SameLive(c: Scope<bool>, a: Scope<Binding>)
    requires CoversScope(true, c, a)
    ensures c.order == a.order && Owned(c) == Live(a)
  {
  }

  lemma {:induction false} SameLiveAll(c: seq<Scope<bool>>, a: seq<Scope<Binding>>)
    requires Covers(true, c, a)
    ensures OwnedAll(c) == LiveAll(a)
  {
    if a != [] {
      var n := |a| - 1;
      SameLive(c[n], a[n]);
      SameLiveAll(c[..n], a[..n]);
    }
  }

  /** Of branches that agree, the one that was run is what the merge says. */
  lemma SoundMerge(exact: bool, c: seq<Scope<bool>>, before: State, branches: seq<State>, b: State, f: Effects)
    requires b in branches && b.reachable && Covers(exact, c, b.scopes) && Agree(before, branches)
    requires AllEvolve(before.scopes, b.scopes, f)
    ensures Merge(before, branches).reachable && Covers(exact, c, Merge(before, branches).scopes)
  {
    assert AnyReachable(branches);
    var after := Merge(before, branches).scopes;
    forall i | 0 <= i < |after| ensures CoversScope(exact, c[i], after[i]) {
      assert CoversScope(exact, c[i], b.scopes[i]) && Evolves(before.scopes[i], b.scopes[i], f);
      forall x | x in after[i].vars ensures after[i].vars[x].moved == b.scopes[i].vars[x].moved {
        assert MovedIn(b, i, x) == b.scopes[i].vars[x].moved;
        assert AllMoved(branches, i, x) || NoneMoved(branches, i, x);
      }
    }
  }

  /** If nothing declared before became moved, and with `exact` nothing moved was
      given back, the run is still covered by the state before. */
  lemma Back(exact: bool, c0: seq<Scope<bool>>, c: seq<Scope<bool>>, s: State, s': State, f: Effects)
    requires Covers(exact, c0, s.scopes) && Covers(exact, c, s'.scopes) && AllEvolve(s.scopes, s'.scopes, f)
    requires s'.reachable && (Returns(s, s') || LoopOk(s, s')) && (exact ==> Kept(s, s'))
    ensures Covers(exact, c, s.scopes)
  {
    forall i | 0 <= i < |s.scopes| ensures CoversScope(exact, c[i], s.scopes[i]) {
      assert CoversScope(exact, c[i], s'.scopes[i]) && Evolves(s.scopes[i], s'.scopes[i], f);
      assert CoversScope(exact, c0[i], s.scopes[i]);
      forall x | x in s.scopes[i].vars
        ensures (c[i].vars[x] ==> s.scopes[i].vars[x].moved) && (exact && s.scopes[i].vars[x].moved ==> c[i].vars[x])
      {
        assert Shifts(x, s.scopes[i].vars[x], s'.scopes[i].vars[x], f);
        assert MovedIn(s', i, x) == s'.scopes[i].vars[x].moved && CountIn(s', i, x) == s'.scopes[i].vars[x].count;
      }
    }
  }

  lemma GuardFailed(exact: bool, c: seq<Scope<bool>>, d: seq<Scope<bool>>, s: State, start: State, s': State, f: Effects)
    requires Covers(exact, c, s.scopes) && |start.scopes| == |s.scopes| + 1 && start.scopes[..|s.scopes|] == s.scopes
    requires AllEvolve(start.scopes, s'.scopes, f) && Covers(exact, d, s'.scopes) && s'.reachable && s'.scopes != []
    requires Returns(s, Pop(s')) && (exact ==> Kept(s, Pop(s')))
    ensures |d| == |c| + 1 && Covers(exact, d[..|c|], s.scopes)
  {
    SoundPop(exact, d, s');
    Shorter(start.scopes, s'.scopes, |s.scopes|, f);
    assert |d| == |c| + 1;
    hide Covers, AllEvolve;
    Back(exact, c, d[..|c|], s, Pop(s'), f);
  }

  // ---------------------------------------------------------------
  // the induction
  // ---------------------------------------------------------------

  /** What the analysis of an accepted expression says holds after every run of
      it, and no run of it goes wrong. */
  lemma {:induction false} Sound(e: Expr, take: bool, exact: bool, strict: bool, choices: seq<nat>, c: seq<Scope<bool>>, s: State)
    requires s.reachable && Covers(exact, c, s.scopes) && Regular(e, take, s, exact) && (strict ==> exact)
    requires Visit(e, take, s).ok
    ensures Safe(exact, Exec(Visit(e, take, s).node, take, strict, choices, c), Visit(e, take, s).state)
    decreases |choices|, e, 1
  {
    hide Covers, Mention, Use;
    match e
    case Lit =>
    case Var(x) => SoundMention(x, take, exact, choices, c, s);
    case Block(body, _) => SoundBlock(e, take, exact, strict, choices, c, s);
    case If(cond, thn, els) => SoundIf(e, take, exact, strict, choices, c, s);
    case Match(scrutinee, copy, arms) => SoundMatch(e, take, exact, strict, choices, c, s);
    case Loop(body) => SoundLoop(e, take, exact, strict, choices, c, s);
    case While(cond, body) => SoundWhile(e, take, exact, strict, choices, c, s);
    case Return(value, _) =>
      Sound(value, true, exact, strict, choices, c, s);
      var v := Exec(Visit(value, true, s).node, true, strict, choices, c);
      if strict && v.Next? {
        SameLiveAll(v.scopes, Visit(value, true, s).state.scopes);
      }
    case Assign(x, value) =>
      Sound(value, true, exact, strict, choices, c, s);
      var v := Exec(Visit(value, true, s).node, true, strict, choices, c);
      ReviveReach(x, Visit(value, true, s).state);
      if v.Next? {
        SoundRevive(x, exact, v.scopes, Visit(value, true, s).state);
      }
    case Apply(args, _) => SoundArgs(args, exact, strict, choices, c, s);
  }

  lemma {:induction false} SoundBlock(e: Expr, take: bool, exact: bool, strict: bool, choices: seq<nat>, c: seq<Scope<bool>>, s: State)
    requires e.Block? && s.reachable && Covers(exact, c, s.scopes) && Regular(e, take, s, exact) && (strict ==> exact)
    requires Visit(e, take, s).ok
    ensures Safe(exact, Exec(Visit(e, take, s).node, take, strict, choices, c), Visit(e, take, s).state)
    decreases |choices|, e, 0
  {
    var n := |c|;
    SoundPush(exact, c, s);
    SoundStmts(e.body, take, exact, strict, choices, c + [Scope(map[], [])], Push(s));
    var a := VisitStmts(e.body, take, Push(s));
    var b := ExecStmts(a.node, take, strict, choices, c + [Scope(map[], [])]);
    if b.Next? {
      SoundPop(exact, b.scopes, a.state);
      assert CoversScope(exact, b.scopes[n], a.state.scopes[n]);
      if strict {
        SameLive(b.scopes[n], a.state.scopes[n]);
      }
    }
    hide Covers;
  }

  lemma {:induction false} SoundIf(e: Expr, take: bool, exact: bool, strict: bool, choices: seq<nat>, c: seq<Scope<bool>>, s: State)
    requires e.If? && s.reachable && Covers(exact, c, s.scopes) && Regular(e, take, s, exact) && (strict ==> exact)
    requires Visit(e, take, s).ok
    ensures Safe(exact, Exec(Visit(e, take, s).node, take, strict, choices, c), Visit(e, take, s).state)
    decreases |choices|, e, 0
  {
    hide Covers, AllEvolve, Agree, Merge;
    var k := Visit(e.cond, false, s);
    Sound(e.cond, false, exact, strict, choices, c, s);
    var t := Exec(k.node, false, strict, choices, c);
    var a, b := Visit(e.thn, take, k.state), Visit(e.els, take, k.state);
    if t.Next? && t.rest != [] {
      var chosen := if t.rest[0] == 0 then e.els else e.thn;
      Sound(chosen, take, exact, strict, t.rest[1..], t.scopes, k.state);
      Evolved(chosen, take, k.state);
      var r := Exec(Visit(chosen, take, k.state).node, take, strict, t.rest[1..], t.scopes);
      if r.Next? {
        SoundMerge(exact, r.scopes, k.state, [a.state, b.state], Visit(chosen, take, k.state).state, Effect(chosen, take));
      }
    }
  }

  lemma {:induction false} SoundMatch(e: Expr, take: bool, exact: bool, strict: bool, choices: seq<nat>, c: seq<Scope<bool>>, s: State)
    requires e.Match? && s.reachable && Covers(exact, c, s.scopes) && Regular(e, take, s, exact) && (strict ==> exact)
    requires Visit(e, take, s).ok
    ensures Safe(exact, Exec(Visit(e, take, s).node, take, strict, choices, c), Visit(e, take, s).state)
    decreases |choices|, e, 0
  {
    hide Covers, AllEvolve, Agree, Merge;
    var k := Visit(e.scrutinee, !e.copy, s);
    Sound(e.scrutinee, !e.copy, exact, strict, choices, c, s);
    var t := Exec(k.node, !e.copy, strict, choices, c);
    if t.Next? {
      var arms := VisitArms(e.arms, take, k.state);
      var b := SoundArms(e.arms, take, exact, strict, t.rest, t.scopes, k.state);
      var r := ExecArms(arms.0, take, strict, t.rest, t.scopes);
      if r.Next? {
        EvolvedArms(e.arms, take, k.state);
        SoundMerge(exact, r.scopes, k.state, arms.1, b, EffectArms(e.arms, take));
      }
    }
  }

  lemma {:induction false} SoundLoop(e: Expr, take: bool, exact: bool, strict: bool, choices: seq<nat>, c: seq<Scope<bool>>, s: State)
    requires e.Loop? && s.reachable && Covers(exact, c, s.scopes) && Regular(e, take, s, exact) && (strict ==> exact)
    requires Visit(e, take, s).ok
    ensures Safe(exact, Exec(Visit(e, take, s).node, take, strict, choices, c), Visit(e, take, s).state)
    decreases |choices|, e, 0
  {
    hide Covers, AllEvolve, LoopOk, Kept;
    if choices != [] {
      var k := Visit(e.body_, false, s);
      Sound(e.body_, false, exact, strict, choices[1..], c, s);
      Evolved(e.body_, false, s);
      var b := Exec(k.node, false, strict, choices[1..], c);
      if b.Next? {
        Back(exact, c, b.scopes, s, k.state, Effect(e.body_, false));
        SoundLoop(e, take, exact, strict, b.rest, b.scopes, s);
      }
    }
  }

  lemma {:induction false} SoundWhile(e: Expr, take: bool, exact: bool, strict: bool, choices: seq<nat>, c: seq<Scope<bool>>, s: State)
    requires e.While? && s.reachable && Covers(exact, c, s.scopes) && Regular(e, take, s, exact) && (strict ==> exact)
    requires Visit(e, take, s).ok
    ensures Safe(exact, Exec(Visit(e, take, s).node, take, strict, choices, c), Visit(e, take, s).state)
    decreases |choices|, e, 0
  {
    hide Covers, AllEvolve, LoopOk, Kept, Returns;
    var k := Visit(e.cond, false, s);
    Sound(e.cond, false, exact, strict, choices, c, s);
    var t := Exec(k.node, false, strict, choices, c);
    if t.Next? && t.rest != [] && t.rest[0] != 0 {
      var l := Visit(e.body_, false, k.state);
      Sound(e.body_, false, exact, strict, t.rest[1..], t.scopes, k.state);
      var b := Exec(l.node, false, strict, t.rest[1..], t.scopes);
      if b.Next? {
        Evolved(e.cond, false, s);
        Evolved(e.body_, false, k.state);
        var both := Both(Effect(e.cond, false), Effect(e.body_, false));
        Then(s.scopes, k.state.scopes, l.state.scopes, Effect(e.cond, false), Effect(e.body_, false), both);
        Back(exact, c, b.scopes, s, l.state, both);
        SoundWhile(e, take, exact, strict, b.rest, b.scopes, s);
      }
    }
  }

  lemma {:induction false} SoundStmts(st: Stmts, take: bool, exact: bool, strict: bool, choices: seq<nat>, c: seq<Scope<bool>>, s: State)
    requires s.scopes != [] && s.reachable && Covers(exact, c, s.scopes) && RegularStmts(st, take, s, exact) && (strict ==> exact)
    requires VisitStmts(st, take, s).ok
    ensures c != [] && Safe(exact, ExecStmts(VisitStmts(st, take, s).node, take, strict, choices, c), VisitStmts(st, take, s).state)
    decreases |choices|, st
  {
    assert c != [];
    hide Covers;
    match st
    case Tail(tail) => Sound(tail, take, exact, strict, choices, c, s);
    case Let(binds, copy, value, rest) =>
      var v := Visit(value, !copy, s);
      Sound(value, !copy, exact, strict, choices, c, s);
      var r := Exec(v.node, !copy, strict, choices, c);
      if r.Next? {
        SoundDefine(binds, exact, r.scopes, v.state.scopes);
        SoundStmts(rest, take, exact, strict, r.rest, Define(r.scopes, binds, false), v.state.(scopes := Define(v.state.scopes, binds, Fresh)));
      }
    case Do(e, copy, rest) =>
      var v := Visit(e, !copy, s);
      Sound(e, !copy, exact, strict, choices, c, s);
      var r := Exec(v.node, !copy, strict, choices, c);
      if r.Next? {
        SoundStmts(rest, take, exact, strict, r.rest, r.scopes, v.state);
      }
  }

  lemma {:induction false} SoundArgs(args: Args, exact: bool, strict: bool, choices: seq<nat>, c: seq<Scope<bool>>, s: State)
    requires s.reachable && Covers(exact, c, s.scopes) && RegularArgs(args, s, exact) && (strict ==> exact)
    requires VisitArgs(args, s).ok
    ensures Safe(exact, ExecArgs(VisitArgs(args, s).node, strict, choices, c), VisitArgs(args, s).state)
    decreases |choices|, args
  {
    hide Covers;
    match args
    case NoArgs =>
    case Arg(e, taken, rest) =>
      var a := Visit(e, taken, s);
      Sound(e, taken, exact, strict, choices, c, s);
      var r := Exec(a.node, taken, strict, choices, c);
      if r.Next? {
        SoundArgs(rest, exact, strict, r.rest, r.scopes, a.state);
      }
  }

  /** A run through the arms ends in the state of one of them. */
  lemma {:induction false} SoundArms(arms: Arms, take: bool, exact: bool, strict: bool, choices: seq<nat>, c: seq<Scope<bool>>, s: State)
    returns (b: State)
    requires s.reachable && Covers(exact, c, s.scopes) && RegularArms(arms, take, s, exact) && (strict ==> exact)
    requires VisitArms(arms, take, s).2
    ensures var r := ExecArms(VisitArms(arms, take, s).0, take, strict, choices, c);
      Safe(exact, r, b) && (r.Next? ==> b in VisitArms(arms, take, s).1)
    decreases |choices|, arms
  {
    hide Covers, AllEvolve, Bound, Enter, Define, Effect, Returns, Kept;
    b := s;
    if arms.Arm? && choices != [] {
      var Arm(binds, guard, body, rest) := arms;
      if choices[0] == 0 {
        b := SoundArms(rest, take, exact, strict, choices[1..], c, s);
      } else {
        var n := |c|;
        var start := Bound(s, binds);
        var c1 := Enter(c, binds);
        SoundBound(binds, exact, c, s);
        var g := Visit(guard, false, start);
        Sound(guard, false, exact, strict, choices[1..], c1, start);
        var h := Exec(g.node, false, strict, choices[1..], c1);
        if h.Next? && h.rest != [] {
          if h.rest[0] == 0 {
            Evolved(guard, false, start);
            GuardFailed(exact, c, h.scopes, s, start, g.state, Effect(guard, false));
            b := SoundArms(rest, take, exact, strict, h.rest[1..], h.scopes[..n], s);
          } else {
            var l := Visit(body, take, g.state);
            Sound(body, take, exact, strict, h.rest[1..], h.scopes, g.state);
            var r := Exec(l.node, take, strict, h.rest[1..], h.scopes);
            b := Pop(l.state);
            if r.Next? {
              CoversLength(exact, c, s.scopes);
              SoundPop(exact, r.scopes, l.state);
            }
          }
        }
      }
    }
  }

  // ---------------------------------------------------------------
  // the two results
  // ---------------------------------------------------------------

  /** The scope of the parameters, which a body starts in. */
  function Params(params: seq<Local>): State {
    State(Define([Scope(map[], [])], params, Fresh), true)
  }

  function Start(params: seq<Local>): seq<Scope<bool>> {
    Define([Scope(map[], [])], params, false)
  }

  predicate Accepted(body: Expr, params: seq<Local>) {
    Visit(body, false, Params(params)).ok
  }

  /** The body with the drop plan in it. */
  function Planned(body: Expr, params: seq<Local>): Expr {
    Visit(body, false, Params(params)).node
  }

  /** No run of an accepted body reads or moves a local that was moved and not
      assigned since. */
  lemma MovesAreSound(body: Expr, params: seq<Local>, choices: seq<nat>)
    requires Accepted(body, params) && Regular(body, false, Params(params), false)
    ensures !Exec(Planned(body, params), false, false, choices, Start(params)).UsedMoved?
  {
    SoundDefine(params, false, [Scope(map[], [])], [Scope(map[], [])]);
    Sound(body, false, false, false, choices, Start(params), Params(params));
  }

  /** In every run of an accepted body what is dropped at each scope exit taken is
      exactly what is owned there and not moved. */
  lemma DropPlanIsExact(body: Expr, params: seq<Local>, choices: seq<nat>)
    requires Accepted(body, params) && Regular(body, false, Params(params), true)
    ensures var r := Exec(Planned(body, params), false, true, choices, Start(params)); !r.UsedMoved? && !r.WrongDrops?
  {
    SoundDefine(params, true, [Scope(map[], [])], [Scope(map[], [])]);
    Sound(body, false, true, true, choices, Start(params), Params(params));
  }
}
