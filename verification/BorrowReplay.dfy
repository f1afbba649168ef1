/** A loop is analysed once but goes round any number of times. This module says,
    in terms of the states of the analysis, exactly when that is right: for what a
    `while` condition moves, and for what a loop gives back. */
module WhileConditions {
  import opened Borrow
  import opened MoveSoundness
  import opened PassingRuns

  // ---------------------------------------------------------------
  // the same run with more locals gone
  // ---------------------------------------------------------------

  /** `d` is `c` with some locals of its first `n` scopes gone as well, none of
      them Copy or in `stores`. */
  predicate Harder(c: seq<Scope<bool>>, d: seq<Scope<bool>>, n: nat, stores: set<Local>) {
    && |c| == |d| && n <= |c|
    && (forall i :: n <= i < |c| ==> c[i] == d[i])
    && (forall i :: 0 <= i < n ==> HarderScope(c[i], d[i], stores))
  }

  predicate HarderScope(c: Scope<bool>, d: Scope<bool>, stores: set<Local>) {
    && c.order == d.order && c.vars.Keys == d.vars.Keys
    && forall x :: x in c.vars ==> (c.vars[x] ==> d.vars[x]) && (d.vars[x] && !c.vars[x] ==> !x.copy && x !in stores)
  }

  predicate Differ(c: seq<Scope<bool>>, d: seq<Scope<bool>>, i: nat, x: Local)
    requires i < |c| && i < |d| && x in c[i].vars && x in d[i].vars
  {
    d[i].vars[x] && !c[i].vars[x]
  }

  /** What differed still does, and nothing else. */
  predicate Persists(c: seq<Scope<bool>>, d: seq<Scope<bool>>, c': seq<Scope<bool>>, d': seq<Scope<bool>>, n: nat) {
    && n <= |c| && |c| == |d| == |c'| == |d'|
    && forall i, x :: 0 <= i < n && x in c[i].vars && x in d[i].vars ==>
      x in c'[i].vars && x in d'[i].vars && (Differ(c, d, i, x) <==> Differ(c', d', i, x))
  }

  /** Two outcomes of the same run: the harder one met a local that is gone, or
      they are alike and what differed still does. */
  predicate Matches(r: Result, q: Result, c: seq<Scope<bool>>, d: seq<Scope<bool>>, n: nat, stores: set<Local>) {
    || q.UsedMoved?
    || (!r.Next? && q == r)
    || (r.Next? && q.Next? && r.rest == q.rest && Harder(r.scopes, q.scopes, n, stores) && Persists(c, d, r.scopes, q.scopes, n))
  }

  lemma PersistsThen(a: seq<Scope<bool>>, b: seq<Scope<bool>>, c: seq<Scope<bool>>, d: seq<Scope<bool>>, e: seq<Scope<bool>>, f: seq<Scope<bool>>, n: nat)
    requires Persists(a, b, c, d, n) && Persists(c, d, e, f, n)
    ensures Persists(a, b, e, f, n)
  {
  }

  /** Going on from matching outcomes. */
  lemma MatchesThen(c: seq<Scope<bool>>, d: seq<Scope<bool>>, c1: seq<Scope<bool>>, d1: seq<Scope<bool>>, r: Result, q: Result, n: nat, stores: set<Local>)
    requires Persists(c, d, c1, d1, n) && Matches(r, q, c1, d1, n, stores)
    ensures Matches(r, q, c, d, n, stores)
  {
    if r.Next? && q.Next? && Persists(c1, d1, r.scopes, q.scopes, n) {
      PersistsThen(c, d, c1, d1, r.scopes, q.scopes, n);
    }
  }

  lemma PersistsSelf(c: seq<Scope<bool>>, d: seq<Scope<bool>>, n: nat, stores: set<Local>)
    requires Harder(c, d, n, stores)
    ensures Persists(c, d, c, d, n)
  {
  }

  lemma {:induction false} HarderFind(c: seq<Scope<bool>>, d: seq<Scope<bool>>, n: nat, stores: set<Local>, x: Local)
    requires Harder(c, d, n, stores)
    ensures Find(c, x) == Find(d, x)
    decreases |c|
  {
    if c != [] {
      var m := |c| - 1;
      if m < n {
        assert HarderScope(c[m], d[m], stores);
        HarderFind(c[..m], d[..m], m, stores, x);
      } else {
        HarderFind(c[..m], d[..m], n, stores, x);
      }
    }
  }

  lemma HarderAt(c: seq<Scope<bool>>, d: seq<Scope<bool>>, n: nat, stores: set<Local>, i: nat, x: Local)
    requires Harder(c, d, n, stores) && i < |c| && x in c[i].vars
    ensures x in d[i].vars && (c[i].vars[x] ==> d[i].vars[x]) && (d[i].vars[x] && !c[i].vars[x] ==> i < n && !x.copy && x !in stores)
  {
    if i < n {
      assert HarderScope(c[i], d[i], stores);
    }
  }

  /** Setting a local on which both agree. */
  lemma HarderPut(c: seq<Scope<bool>>, d: seq<Scope<bool>>, n: nat, stores: set<Local>, i: nat, x: Local, gone: bool)
    requires Harder(c, d, n, stores) && i < |c| && x in c[i].vars && x in d[i].vars && c[i].vars[x] == d[i].vars[x]
    ensures Harder(Put(c, i, x, gone), Put(d, i, x, gone), n, stores)
    ensures Persists(c, d, Put(c, i, x, gone), Put(d, i, x, gone), n)
  {
    var c', d' := Put(c, i, x, gone), Put(d, i, x, gone);
    forall j | 0 <= j < n ensures HarderScope(c'[j], d'[j], stores) {
      assert HarderScope(c[j], d[j], stores);
    }
    forall j, y | 0 <= j < n && y in c[j].vars && y in d[j].vars
      ensures y in c'[j].vars && y in d'[j].vars && (Differ(c, d, j, y) <==> Differ(c', d', j, y))
    {
      assert HarderScope(c[j], d[j], stores);
    }
  }

  lemma ReplayUse(x: Local, take: bool, choices: seq<nat>, c: seq<Scope<bool>>, d: seq<Scope<bool>>, n: nat, stores: set<Local>)
    requires Harder(c, d, n, stores)
    ensures Matches(Use(x, take, choices, c), Use(x, take, choices, d), c, d, n, stores)
  {
    HarderFind(c, d, n, stores, x);
    PersistsSelf(c, d, n, stores);
    var at := Find(c, x);
    if at.Some? {
      HarderAt(c, d, n, stores, at.value, x);
      hide Harder, Persists, Find;
      if !d[at.value].vars[x] && take && !x.copy {
        HarderPut(c, d, n, stores, at.value, x, true);
      }
    }
  }

  lemma ReplayFill(x: Local, c: seq<Scope<bool>>, d: seq<Scope<bool>>, n: nat, stores: set<Local>)
    requires Harder(c, d, n, stores) && (x.copy || x in stores)
    ensures Harder(Fill(x, c), Fill(x, d), n, stores) && Persists(c, d, Fill(x, c), Fill(x, d), n)
  {
    HarderFind(c, d, n, stores, x);
    PersistsSelf(c, d, n, stores);
    var at := Find(c, x);
    if at.Some? {
      HarderAt(c, d, n, stores, at.value, x);
      hide Harder, Persists, Find;
      HarderPut(c, d, n, stores, at.value, x, false);
    }
  }

  lemma {:induction false} HarderDefine(binds: seq<Local>, c: seq<Scope<bool>>, d: seq<Scope<bool>>, n: nat, stores: set<Local>)
    requires Harder(c, d, n, stores) && n < |c|
    ensures Harder(Define(c, binds, false), Define(d, binds, false), n, stores)
    ensures Persists(c, d, Define(c, binds, false), Define(d, binds, false), n)
    decreases |binds|
  {
    PersistsSelf(c, d, n, stores);
    if binds != [] {
      var m, x := |c| - 1, binds[0];
      var c', d' := c[m := Scope(c[m].vars[x := false], c[m].order + [x])], d[m := Scope(d[m].vars[x := false], d[m].order + [x])];
      assert Harder(c', d', n, stores);
      assert Persists(c, d, c', d', n);
      HarderDefine(binds[1..], c', d', n, stores);
      PersistsThen(c, d, c', d', Define(c', binds[1..], false), Define(d', binds[1..], false), n);
    }
  }

  lemma HarderPush(c: seq<Scope<bool>>, d: seq<Scope<bool>>, n: nat, stores: set<Local>)
    requires Harder(c, d, n, stores)
    ensures Harder(c + [Scope(map[], [])], d + [Scope(map[], [])], n, stores)
  {
    var c', d' := c + [Scope(map[], [])], d + [Scope(map[], [])];
    forall i | 0 <= i < n ensures HarderScope(c'[i], d'[i], stores) {
      assert HarderScope(c[i], d[i], stores);
    }
  }

  /** Leaving the scope that was entered. */
  lemma MatchesPop(c: seq<Scope<bool>>, d: seq<Scope<bool>>, r: Result, q: Result, n: nat, stores: set<Local>)
    requires Harder(c, d, n, stores) && r.Next? && q.Next? && r.rest == q.rest
    requires |r.scopes| == |c| + 1 && Harder(r.scopes, q.scopes, n, stores)
    requires Persists(c + [Scope(map[], [])], d + [Scope(map[], [])], r.scopes, q.scopes, n)
    ensures Matches(Next(r.scopes[..|c|], r.rest), Next(q.scopes[..|c|], q.rest), c, d, n, stores)
  {
    var c', d' := r.scopes[..|c|], q.scopes[..|c|];
    forall i | 0 <= i < n ensures HarderScope(c'[i], d'[i], stores) {
      assert HarderScope(r.scopes[i], q.scopes[i], stores);
    }
    var e, f := c + [Scope(map[], [])], d + [Scope(map[], [])];
    forall i, x | 0 <= i < n && x in c[i].vars && x in d[i].vars
      ensures x in c'[i].vars && x in d'[i].vars && (Differ(c, d, i, x) <==> Differ(c', d', i, x))
    {
      assert e[i] == c[i] && f[i] == d[i];
      assert Differ(e, f, i, x) <==> Differ(r.scopes, q.scopes, i, x);
    }
  }

  /** Run with the same choices, an expression either meets a local that is gone
      or does what it did, and then it has not touched what differs. */
  lemma {:induction false} Replay(e: Expr, take: bool, choices: seq<nat>, c: seq<Scope<bool>>, d: seq<Scope<bool>>, n: nat, stores: set<Local>)
    requires Harder(c, d, n, stores) && Effect(e, take).assigns <= stores
    ensures Matches(Exec(e, take, false, choices, c), Exec(e, take, false, choices, d), c, d, n, stores)
    decreases |choices|, e, 1
  {
    PersistsSelf(c, d, n, stores);
    hide Harder, Persists, Use, Fill;
    match e
    case Lit =>
    case Var(x) => ReplayUse(x, take, choices, c, d, n, stores);
    case Block(_, _) => ReplayBlock(e, take, choices, c, d, n, stores);
    case If(_, _, _) => ReplayIf(e, take, choices, c, d, n, stores);
    case Match(_, _, _) => ReplayMatch(e, take, choices, c, d, n, stores);
    case Loop(_) => ReplayLoop(e, take, choices, c, d, n, stores);
    case While(_, _) => ReplayWhile(e, take, choices, c, d, n, stores);
    case Return(value, _) => Replay(value, true, choices, c, d, n, stores);
    case Assign(x, value) =>
      Replay(value, true, choices, c, d, n, stores);
      var r, q := Exec(value, true, false, choices, c), Exec(value, true, false, choices, d);
      if r.Next? && q.Next? {
        assert x.copy || x in One(x);
        ReplayFill(x, r.scopes, q.scopes, n, stores);
        PersistsThen(c, d, r.scopes, q.scopes, Fill(x, r.scopes), Fill(x, q.scopes), n);
      }
    case Apply(args, _) => ReplayArgs(args, choices, c, d, n, stores);
  }

  lemma HarderLength(c: seq<Scope<bool>>, d: seq<Scope<bool>>, n: nat, stores: set<Local>)
    requires Harder(c, d, n, stores)
    ensures |c| == |d| && n <= |c|
  {
  }

  lemma {:induction false} ReplayBlock(e: Expr, take: bool, choices: seq<nat>, c: seq<Scope<bool>>, d: seq<Scope<bool>>, n: nat, stores: set<Local>)
    requires e.Block? && Harder(c, d, n, stores) && Effect(e, take).assigns <= stores
    ensures Matches(Exec(e, take, false, choices, c), Exec(e, take, false, choices, d), c, d, n, stores)
    decreases |choices|, e, 0
  {
    hide Harder, Persists;
    var c1, d1 := c + [Scope(map[], [])], d + [Scope(map[], [])];
    HarderLength(c, d, n, stores);
    HarderPush(c, d, n, stores);
    ReplayStmts(e.body, take, choices, c1, d1, n, stores);
    var r, q := ExecStmts(e.body, take, false, choices, c1), ExecStmts(e.body, take, false, choices, d1);
    if r.Next? && q.Next? {
      MatchesPop(c, d, r, q, n, stores);
    }
  }

  lemma {:induction false} ReplayIf(e: Expr, take: bool, choices: seq<nat>, c: seq<Scope<bool>>, d: seq<Scope<bool>>, n: nat, stores: set<Local>)
    requires e.If? && Harder(c, d, n, stores) && Effect(e, take).assigns <= stores
    ensures Matches(Exec(e, take, false, choices, c), Exec(e, take, false, choices, d), c, d, n, stores)
    decreases |choices|, e, 0
  {
    hide Harder, Persists;
    Replay(e.cond, false, choices, c, d, n, stores);
    var r, q := Exec(e.cond, false, false, choices, c), Exec(e.cond, false, false, choices, d);
    if r.Next? && q.Next? && r.rest != [] {
      var chosen := if r.rest[0] == 0 then e.els else e.thn;
      Replay(chosen, take, r.rest[1..], r.scopes, q.scopes, n, stores);
      MatchesThen(c, d, r.scopes, q.scopes, Exec(chosen, take, false, r.rest[1..], r.scopes), Exec(chosen, take, false, r.rest[1..], q.scopes), n, stores);
    }
  }

  lemma {:induction false} ReplayMatch(e: Expr, take: bool, choices: seq<nat>, c: seq<Scope<bool>>, d: seq<Scope<bool>>, n: nat, stores: set<Local>)
    requires e.Match? && Harder(c, d, n, stores) && Effect(e, take).assigns <= stores
    ensures Matches(Exec(e, take, false, choices, c), Exec(e, take, false, choices, d), c, d, n, stores)
    decreases |choices|, e, 0
  {
    hide Harder, Persists;
    Replay(e.scrutinee, !e.copy, choices, c, d, n, stores);
    var r, q := Exec(e.scrutinee, !e.copy, false, choices, c), Exec(e.scrutinee, !e.copy, false, choices, d);
    if r.Next? && q.Next? {
      ReplayArms(e.arms, take, r.rest, r.scopes, q.scopes, n, stores);
      MatchesThen(c, d, r.scopes, q.scopes, ExecArms(e.arms, take, false, r.rest, r.scopes), ExecArms(e.arms, take, false, r.rest, q.scopes), n, stores);
    }
  }

  lemma {:induction false} ReplayLoop(e: Expr, take: bool, choices: seq<nat>, c: seq<Scope<bool>>, d: seq<Scope<bool>>, n: nat, stores: set<Local>)
    requires e.Loop? && Harder(c, d, n, stores) && Effect(e, take).assigns <= stores
    ensures Matches(Exec(e, take, false, choices, c), Exec(e, take, false, choices, d), c, d, n, stores)
    decreases |choices|, e, 0
  {
    hide Harder, Persists;
    if choices != [] {
      Replay(e.body_, false, choices[1..], c, d, n, stores);
      var r, q := Exec(e.body_, false, false, choices[1..], c), Exec(e.body_, false, false, choices[1..], d);
      if r.Next? && q.Next? {
        ReplayLoop(e, take, r.rest, r.scopes, q.scopes, n, stores);
        MatchesThen(c, d, r.scopes, q.scopes, Exec(e, take, false, r.rest, r.scopes), Exec(e, take, false, r.rest, q.scopes), n, stores);
      }
    }
  }

  lemma {:induction false} ReplayWhile(e: Expr, take: bool, choices: seq<nat>, c: seq<Scope<bool>>, d: seq<Scope<bool>>, n: nat, stores: set<Local>)
    requires e.While? && Harder(c, d, n, stores) && Effect(e, take).assigns <= stores
    ensures Matches(Exec(e, take, false, choices, c), Exec(e, take, false, choices, d), c, d, n, stores)
    decreases |choices|, e, 0
  {
    hide Harder, Persists;
    Replay(e.cond, false, choices, c, d, n, stores);
    var r, q := Exec(e.cond, false, false, choices, c), Exec(e.cond, false, false, choices, d);
    if r.Next? && q.Next? && r.rest != [] && r.rest[0] != 0 {
      Replay(e.body_, false, r.rest[1..], r.scopes, q.scopes, n, stores);
      var r1, q1 := Exec(e.body_, false, false, r.rest[1..], r.scopes), Exec(e.body_, false, false, r.rest[1..], q.scopes);
      MatchesThen(c, d, r.scopes, q.scopes, r1, q1, n, stores);
      if r1.Next? && q1.Next? {
        ReplayWhile(e, take, r1.rest, r1.scopes, q1.scopes, n, stores);
        MatchesThen(c, d, r1.scopes, q1.scopes, Exec(e, take, false, r1.rest, r1.scopes), Exec(e, take, false, r1.rest, q1.scopes), n, stores);
      }
    }
  }

  lemma {:induction false} ReplayStmts(st: Stmts, take: bool, choices: seq<nat>, c: seq<Scope<bool>>, d: seq<Scope<bool>>, n: nat, stores: set<Local>)
    requires Harder(c, d, n, stores) && n < |c| && c != [] && d != [] && EffectStmts(st, take).assigns <= stores
    ensures Matches(ExecStmts(st, take, false, choices, c), ExecStmts(st, take, false, choices, d), c, d, n, stores)
    decreases |choices|, st
  {
    hide Harder, Persists;
    match st
    case Tail(tail) => Replay(tail, take, choices, c, d, n, stores);
    case Let(binds, copy, value, rest) =>
      Replay(value, !copy, choices, c, d, n, stores);
      var r, q := Exec(value, !copy, false, choices, c), Exec(value, !copy, false, choices, d);
      if r.Next? && q.Next? {
        HarderDefine(binds, r.scopes, q.scopes, n, stores);
        var c1, d1 := Define(r.scopes, binds, false), Define(q.scopes, binds, false);
        PersistsThen(c, d, r.scopes, q.scopes, c1, d1, n);
        ReplayStmts(rest, take, r.rest, c1, d1, n, stores);
        MatchesThen(c, d, c1, d1, ExecStmts(rest, take, false, r.rest, c1), ExecStmts(rest, take, false, r.rest, d1), n, stores);
      }
    case Do(e, copy, rest) =>
      Replay(e, !copy, choices, c, d, n, stores);
      var r, q := Exec(e, !copy, false, choices, c), Exec(e, !copy, false, choices, d);
      if r.Next? && q.Next? {
        ReplayStmts(rest, take, r.rest, r.scopes, q.scopes, n, stores);
        MatchesThen(c, d, r.scopes, q.scopes, ExecStmts(rest, take, false, r.rest, r.scopes), ExecStmts(rest, take, false, r.rest, q.scopes), n, stores);
      }
  }

  lemma {:induction false} ReplayArgs(args: Args, choices: seq<nat>, c: seq<Scope<bool>>, d: seq<Scope<bool>>, n: nat, stores: set<Local>)
    requires Harder(c, d, n, stores) && EffectArgs(args).assigns <= stores
    ensures Matches(ExecArgs(args, false, choices, c), ExecArgs(args, false, choices, d), c, d, n, stores)
    decreases |choices|, args
  {
    PersistsSelf(c, d, n, stores);
    hide Harder, Persists;
    match args
    case NoArgs =>
    case Arg(e, taken, rest) =>
      Replay(e, taken, choices, c, d, n, stores);
      var r, q := Exec(e, taken, false, choices, c), Exec(e, taken, false, choices, d);
      if r.Next? && q.Next? {
        ReplayArgs(rest, r.rest, r.scopes, q.scopes, n, stores);
        MatchesThen(c, d, r.scopes, q.scopes, ExecArgs(rest, false, r.rest, r.scopes), ExecArgs(rest, false, r.rest, q.scopes), n, stores);
      }
  }

  lemma HarderEnter(binds: seq<Local>, c: seq<Scope<bool>>, d: seq<Scope<bool>>, n: nat, stores: set<Local>)
    requires Harder(c, d, n, stores)
    ensures Harder(Enter(c, binds), Enter(d, binds), n, stores)
    ensures Persists(c + [Scope(map[], [])], d + [Scope(map[], [])], Enter(c, binds), Enter(d, binds), n)
  {
    HarderPush(c, d, n, stores);
    HarderDefine(binds, c + [Scope(map[], [])], d + [Scope(map[], [])], n, stores);
  }

  lemma {:induction false} ReplayArms(arms: Arms, take: bool, choices: seq<nat>, c: seq<Scope<bool>>, d: seq<Scope<bool>>, n: nat, stores: set<Local>)
    requires Harder(c, d, n, stores) && EffectArms(arms, take).assigns <= stores
    ensures Matches(ExecArms(arms, take, false, choices, c), ExecArms(arms, take, false, choices, d), c, d, n, stores)
    decreases |choices|, arms, 1
  {
    hide Harder, Persists;
    if arms.Arm? && choices != [] {
      if choices[0] == 0 {
        ReplayArms(arms.rest, take, choices[1..], c, d, n, stores);
      } else {
        ReplayArm(arms, take, choices, c, d, n, stores);
      }
    }
  }

  lemma {:induction false} ReplayArm(arms: Arms, take: bool, choices: seq<nat>, c: seq<Scope<bool>>, d: seq<Scope<bool>>, n: nat, stores: set<Local>)
    requires arms.Arm? && choices != [] && choices[0] != 0
    requires Harder(c, d, n, stores) && EffectArms(arms, take).assigns <= stores
    ensures Matches(ExecArms(arms, take, false, choices, c), ExecArms(arms, take, false, choices, d), c, d, n, stores)
    decreases |choices|, arms, 0
  {
    hide Persists, Enter;
    var Arm(binds, guard, body, rest) := arms;
    HarderLength(c, d, n, stores);
    HarderEnter(binds, c, d, n, stores);
    hide Harder;
    var start, start' := c + [Scope(map[], [])], d + [Scope(map[], [])];
    Replay(guard, false, choices[1..], Enter(c, binds), Enter(d, binds), n, stores);
    var r, q := Exec(guard, false, false, choices[1..], Enter(c, binds)), Exec(guard, false, false, choices[1..], Enter(d, binds));
    MatchesThen(start, start', Enter(c, binds), Enter(d, binds), r, q, n, stores);
    if r.Next? && q.Next? && r.rest != [] {
      if r.rest[0] == 0 {
        MatchesPop(c, d, r, q, n, stores);
        var c1, d1 := r.scopes[..|c|], q.scopes[..|c|];
        ReplayArms(rest, take, r.rest[1..], c1, d1, n, stores);
        MatchesThen(c, d, c1, d1, ExecArms(rest, take, false, r.rest[1..], c1), ExecArms(rest, take, false, r.rest[1..], d1), n, stores);
      } else {
        Replay(body, take, r.rest[1..], r.scopes, q.scopes, n, stores);
        var r1, q1 := Exec(body, take, false, r.rest[1..], r.scopes), Exec(body, take, false, r.rest[1..], q.scopes);
        MatchesThen(start, start', r.scopes, q.scopes, r1, q1, n, stores);
        if r1.Next? && q1.Next? {
          MatchesPop(c, d, r1, q1, n, stores);
        }
      }
    }
  }

  // ---------------------------------------------------------------
  // a run that gets through
  // ---------------------------------------------------------------

  /** No `loop`, which never ends here, and no match without arms. */
  predicate Ends(e: Expr) {
    match e
    case Lit => true
    case Var(_) => true
    case Block(body, _) => EndsStmts(body)
    case If(cond, thn, els) => Ends(cond) && Ends(thn) && Ends(els)
    case Match(scrutinee, _, arms) => Ends(scrutinee) && arms.Arm? && EndsArms(arms)
    case Loop(_) => false
    case While(cond, body) => Ends(cond) && Ends(body)
    case Return(value, _) => Ends(value)
    case Assign(_, value) => Ends(value)
    case Apply(args, _) => EndsArgs(args)
  }

  predicate EndsStmts(st: Stmts) {
    match st
    case Tail(tail) => Ends(tail)
    case Let(_, _, value, rest) => Ends(value) && EndsStmts(rest)
    case Do(e, _, rest) => Ends(e) && EndsStmts(rest)
  }

  predicate EndsArgs(args: Args) {
    match args
    case NoArgs => true
    case Arg(e, _, rest) => Ends(e) && EndsArgs(rest)
  }

  predicate EndsArms(arms: Arms) {
    match arms
    case NoArms => true
    case Arm(_, guard, body, rest) => Ends(guard) && Ends(body) && EndsArms(rest)
  }

  /** Where the analysis says an expression can be passed, some run passes it, and
      the analysis says exactly what it leaves. */
  lemma {:induction false} Passable(e: Expr, take: bool, c: seq<Scope<bool>>, s: State) returns (way: seq<nat>, c': seq<Scope<bool>>)
    requires s.reachable && Covers(true, c, s.scopes) && Visit(e, take, s).ok
    requires Ends(e) && Visit(e, take, s).state.reachable
    ensures Passes(Whole(Visit(e, take, s).node, take), false, c, way, c') && Covers(true, c', Visit(e, take, s).state.scopes)
    decreases e, 1
  {
    hide Covers, Use, Fill, Mention, Passes;
    match e
    case Lit =>
      way, c' := [], c;
      PassesLit(take, false, c);
    case Var(x) => way, c' := PassVar(x, take, c, s);
    case Block(_, _) => way, c' := PassBlock(e, take, c, s);
    case If(_, _, _) => way, c' := PassIf(e, take, c, s);
    case Match(_, _, _) => way, c' := PassMatch(e, take, c, s);
    case While(_, _) => way, c' := PassWhile(e, take, c, s);
    case Assign(x, value) =>
      var v := Visit(value, true, s);
      ReviveReach(x, v.state);
      var c1;
      way, c1 := Passable(value, true, c, s);
      c' := Fill(x, c1);
      SoundRevive(x, true, c1, v.state);
      PassesAssign(Assign(x, v.node), take, false, c, way, c1);
    case Apply(args, panics) =>
      way, c' := PassableArgs(args, c, s);
      PassesApply(Apply(VisitArgs(args, s).node, panics), take, false, c, way, c');
  }

  lemma PassVar(x: Local, take: bool, c: seq<Scope<bool>>, s: State) returns (way: seq<nat>, c': seq<Scope<bool>>)
    requires s.reachable && Covers(true, c, s.scopes) && Mention(x, take, s).ok
    ensures Mention(x, take, s).node == Var(x)
    ensures Passes(Whole(Var(x), take), false, c, way, c') && Covers(true, c', Mention(x, take, s).state.scopes)
  {
    SoundMention(x, take, true, [], c, s);
    way := [];
    UseGoesOn(x, take, [], c);
    c' := Use(x, take, [], c).scopes;
    PassesVar(x, take, false, c, c');
  }

  lemma UseGoesOn(x: Local, take: bool, choices: seq<nat>, c: seq<Scope<bool>>)
    ensures var r := Use(x, take, choices, c); r.UsedMoved? || (r.Next? && r.rest == choices)
  {
  }

  lemma {:induction false} PassBlock(e: Expr, take: bool, c: seq<Scope<bool>>, s: State) returns (way: seq<nat>, c': seq<Scope<bool>>)
    requires e.Block? && s.reachable && Covers(true, c, s.scopes) && Visit(e, take, s).ok
    requires Ends(e) && Visit(e, take, s).state.reachable
    ensures Passes(Whole(Visit(e, take, s).node, take), false, c, way, c') && Covers(true, c', Visit(e, take, s).state.scopes)
    decreases e, 0
  {
    CoversLength(true, c, s.scopes);
    SoundPush(true, c, s);
    hide Covers;
    var c1 := c + [Scope(map[], [])];
    var c2;
    var a := VisitStmts(e.body, take, Push(s));
    way, c2 := PassableStmts(e.body, take, c1, Push(s));
    CoversLength(true, c2, a.state.scopes);
    c' := c2[..|c|];
    SoundPop(true, c2, a.state);
    hide Passes;
    PassesBlock(Visit(e, take, s).node, take, false, c, way, c2);
  }

  lemma {:induction false} PassIf(e: Expr, take: bool, c: seq<Scope<bool>>, s: State) returns (way: seq<nat>, c': seq<Scope<bool>>)
    requires e.If? && s.reachable && Covers(true, c, s.scopes) && Visit(e, take, s).ok
    requires Ends(e) && Visit(e, take, s).state.reachable
    ensures Passes(Whole(Visit(e, take, s).node, take), false, c, way, c') && Covers(true, c', Visit(e, take, s).state.scopes)
    decreases e, 0
  {
    hide Covers, Passes;
    var k := Visit(e.cond, false, s);
    var a, b := Visit(e.thn, take, k.state), Visit(e.els, take, k.state);
    Evolved(e.thn, take, k.state);
    Evolved(e.els, take, k.state);
    assert AnyReachable([a.state, b.state]);
    assert a.state.reachable || b.state.reachable;
    var way1, c1 := Passable(e.cond, false, c, s);
    var yes := a.state.reachable;
    var chosen := if yes then e.thn else e.els;
    var way2;
    way2, c' := Passable(chosen, take, c1, k.state);
    var digit := if yes then 1 else 0;
    way := way1 + [digit] + way2;
    hide Merge, Agree, AnyReachable, AllEvolve;
    var node := If(k.node, a.node, b.node);
    hide Leads;
    LeadIf(node, yes, take, false, c, way1, c1);
    PassesThen(Whole(node, take), false, c, way1 + [digit], Whole(if yes then a.node else b.node, take), c1, way2, c');
    SoundMerge(true, c', k.state, [a.state, b.state], Visit(chosen, take, k.state).state, Effect(chosen, take));
  }

  lemma {:induction false} PassMatch(e: Expr, take: bool, c: seq<Scope<bool>>, s: State) returns (way: seq<nat>, c': seq<Scope<bool>>)
    requires e.Match? && s.reachable && Covers(true, c, s.scopes) && Visit(e, take, s).ok
    requires Ends(e) && Visit(e, take, s).state.reachable
    ensures Passes(Whole(Visit(e, take, s).node, take), false, c, way, c') && Covers(true, c', Visit(e, take, s).state.scopes)
    decreases e, 0
  {
    hide Covers, Passes;
    var k := Visit(e.scrutinee, !e.copy, s);
    var arms := VisitArms(e.arms, take, k.state);
    EvolvedArms(e.arms, take, k.state);
    assert AnyReachable(arms.1);
    var way1, c1 := Passable(e.scrutinee, !e.copy, c, s);
    var way2, b;
    way2, c', b := PassableArms(e.arms, take, c1, k.state);
    way := way1 + way2;
    hide Merge, Agree, AnyReachable, AllEvolve;
    var node := Match(k.node, e.copy, arms.0);
    hide Leads;
    LeadMatch(node, take, false, c, way1, c1);
    PassesThen(Whole(node, take), false, c, way1, Cases(arms.0, take), c1, way2, c');
    SoundMerge(true, c', k.state, arms.1, b, EffectArms(e.arms, take));
  }

  /** A `while` loop is passed by leaving it at once. */
  lemma {:induction false} PassWhile(e: Expr, take: bool, c: seq<Scope<bool>>, s: State) returns (way: seq<nat>, c': seq<Scope<bool>>)
    requires e.While? && s.reachable && Covers(true, c, s.scopes) && Visit(e, take, s).ok
    requires Ends(e) && Visit(e, take, s).state.reachable
    ensures Passes(Whole(Visit(e, take, s).node, take), false, c, way, c') && Covers(true, c', Visit(e, take, s).state.scopes)
    decreases e, 0
  {
    hide Covers, LoopOk, Returns, Kept, Passes;
    var k := Visit(e.cond, false, s);
    var way1;
    way1, c' := Passable(e.cond, false, c, s);
    way := way1 + [0];
    PassesWhile(Visit(e, take, s).node, take, false, c, way1, c');
  }

  lemma {:induction false} PassableStmts(st: Stmts, take: bool, c: seq<Scope<bool>>, s: State) returns (way: seq<nat>, c': seq<Scope<bool>>)
    requires s.scopes != [] && s.reachable && Covers(true, c, s.scopes) && VisitStmts(st, take, s).ok
    requires EndsStmts(st) && VisitStmts(st, take, s).state.reachable
    ensures c != [] && Passes(Rest(VisitStmts(st, take, s).node, take), false, c, way, c') && Covers(true, c', VisitStmts(st, take, s).state.scopes)
    decreases st
  {
    CoversLength(true, c, s.scopes);
    hide Covers, Passes, Leads;
    match st
    case Tail(tail) =>
      var node, way1 := Tail(Visit(tail, take, s).node), [];
      way1, c' := Passable(tail, take, c, s);
      way := [] + way1;
      LeadTail(node, take, false, c);
      PassesThen(Rest(node, take), false, c, [], Whole(node.tail, take), c, way1, c');
    case Let(binds, copy, value, more) =>
      var v := Visit(value, !copy, s);
      var s1 := v.state.(scopes := Define(v.state.scopes, binds, Fresh));
      EvolvedStmts(more, take, s1);
      var way1, c1 := Passable(value, !copy, c, s);
      CoversLength(true, c1, v.state.scopes);
      SoundDefine(binds, true, c1, v.state.scopes);
      var c2 := Define(c1, binds, false);
      var way2;
      way2, c' := PassableStmts(more, take, c2, s1);
      way := way1 + way2;
      var node := Let(binds, copy, v.node, VisitStmts(more, take, s1).node);
      LeadLet(node, take, false, c, way1, c1);
      PassesThen(Rest(node, take), false, c, way1, Rest(node.rest, take), c2, way2, c');
    case Do(e, copy, more) =>
      var v := Visit(e, !copy, s);
      EvolvedStmts(more, take, v.state);
      var way1, c1 := Passable(e, !copy, c, s);
      var way2;
      way2, c' := PassableStmts(more, take, c1, v.state);
      way := way1 + way2;
      CoversLength(true, c1, v.state.scopes);
      var node := Do(v.node, copy, VisitStmts(more, take, v.state).node);
      LeadDo(node, take, false, c, way1, c1);
      PassesThen(Rest(node, take), false, c, way1, Rest(node.rest, take), c1, way2, c');
  }

  lemma {:induction false} PassableArgs(args: Args, c: seq<Scope<bool>>, s: State) returns (way: seq<nat>, c': seq<Scope<bool>>)
    requires s.reachable && Covers(true, c, s.scopes) && VisitArgs(args, s).ok
    requires EndsArgs(args) && VisitArgs(args, s).state.reachable
    ensures Passes(Operands(VisitArgs(args, s).node), false, c, way, c') && Covers(true, c', VisitArgs(args, s).state.scopes)
    decreases args
  {
    hide Covers, Passes;
    match args
    case NoArgs =>
      way, c' := [], c;
      PassesNoArgs(false, c);
    case Arg(e, taken, more) =>
      var v := Visit(e, taken, s);
      EvolvedArgs(more, v.state);
      var way1, c1 := Passable(e, taken, c, s);
      var way2;
      way2, c' := PassableArgs(more, c1, v.state);
      way := way1 + way2;
      var node := Arg(v.node, taken, VisitArgs(more, v.state).node);
      hide Leads;
      LeadArg(node, false, c, way1, c1);
      PassesThen(Operands(node), false, c, way1, Operands(node.rest), c1, way2, c');
  }

  /** Arms are passed through the first one whose end can be reached. */
  lemma {:induction false} PassableArms(arms: Arms, take: bool, c: seq<Scope<bool>>, s: State)
    returns (way: seq<nat>, c': seq<Scope<bool>>, end: State)
    requires s.reachable && Covers(true, c, s.scopes) && VisitArms(arms, take, s).2
    requires EndsArms(arms) && AnyReachable(VisitArms(arms, take, s).1)
    ensures Passes(Cases(VisitArms(arms, take, s).0, take), false, c, way, c')
    ensures end in VisitArms(arms, take, s).1 && end.reachable && Covers(true, c', end.scopes)
    decreases arms
  {
    hide Covers, Bound, Enter, Returns, Kept, Passes;
    var Arm(binds, guard, body, more) := arms;
    var start := Bound(s, binds);
    var g := Visit(guard, false, start);
    var b := Visit(body, take, g.state);
    if b.state.reachable {
      Evolved(body, take, g.state);
      SoundBound(binds, true, c, s);
      var way1, c1 := Passable(guard, false, Enter(c, binds), start);
      var way2, c2 := Passable(body, take, c1, g.state);
      CoversLength(true, c, s.scopes);
      CoversLength(true, c2, b.state.scopes);
      c', end := c2[..|c|], Pop(b.state);
      SoundPop(true, c2, b.state);
      way := [1] + (way1 + ([1] + way2));
      CoversLength(true, c1, g.state.scopes);
      PassesArm(VisitArms(arms, take, s).0, take, false, c, way1, c1, way2, c2);
    } else {
      var rest' := VisitArms(more, take, s);
      assert AnyReachable(rest'.1);
      var way1;
      way1, c', end := PassableArms(more, take, c, s);
      way := [0] + way1;
      var node := VisitArms(arms, take, s).0;
      hide Leads;
      LeadSkip(node, take, false, c);
      PassesThen(Cases(node, take), false, c, [0], Cases(rest'.0, take), c, way1, c');
    }
  }

  // ---------------------------------------------------------------
  // the exact condition
  // ---------------------------------------------------------------

  /** The analysis only fills in drops. */
  lemma {:induction false} SameEffect(e: Expr, take: bool, s: State)
    ensures Effect(Visit(e, take, s).node, take) == Effect(e, take)
    decreases e
  {
    hide Merge, Agree, LoopOk, Live, LiveAll, Mention, Revive;
    match e
    case Lit =>
    case Var(x) => MentionNode(x, take, s);
    case Block(body, _) => SameEffectStmts(body, take, Push(s));
    case If(cond, thn, els) =>
      var c := Visit(cond, false, s).state;
      SameEffect(cond, false, s);
      SameEffect(thn, take, c);
      SameEffect(els, take, c);
    case Match(scrutinee, copy, arms) =>
      SameEffect(scrutinee, !copy, s);
      SameEffectArms(arms, take, Visit(scrutinee, !copy, s).state);
    case Loop(body) => SameEffect(body, false, s);
    case While(cond, body) =>
      SameEffect(cond, false, s);
      SameEffect(body, false, Visit(cond, false, s).state);
    case Return(value, _) => SameEffect(value, true, s);
    case Assign(_, value) => SameEffect(value, true, s);
    case Apply(args, _) => SameEffectArgs(args, s);
  }

  lemma {:induction false} SameEffectStmts(st: Stmts, take: bool, s: State)
    requires s.scopes != []
    ensures EffectStmts(VisitStmts(st, take, s).node, take) == EffectStmts(st, take)
    decreases st
  {
    if s.reachable {
      match st
      case Tail(tail) => SameEffect(tail, take, s);
      case Let(binds, copy, value, rest) =>
        var v := Visit(value, !copy, s).state;
        SameEffect(value, !copy, s);
        SameEffectStmts(rest, take, v.(scopes := Define(v.scopes, binds, Fresh)));
      case Do(e, copy, rest) =>
        SameEffect(e, !copy, s);
        SameEffectStmts(rest, take, Visit(e, !copy, s).state);
    }
  }

  lemma {:induction false} SameEffectArgs(args: Args, s: State)
    ensures EffectArgs(VisitArgs(args, s).node) == EffectArgs(args)
    decreases args
  {
    match args
    case NoArgs =>
    case Arg(e, taken, rest) =>
      SameEffect(e, taken, s);
      SameEffectArgs(rest, Visit(e, taken, s).state);
  }

  lemma {:induction false} SameEffectArms(arms: Arms, take: bool, s: State)
    ensures EffectArms(VisitArms(arms, take, s).0, take) == EffectArms(arms, take)
    decreases arms
  {
    match arms
    case NoArms =>
    case Arm(binds, guard, body, rest) =>
      var g := Visit(guard, false, Bound(s, binds)).state;
      SameEffect(guard, false, Bound(s, binds));
      SameEffect(body, take, g);
      SameEffectArms(rest, take, s);
  }

  lemma SameShape(a: seq<Scope<Binding>>, b: seq<Scope<Binding>>, c: seq<Scope<Binding>>, f: Effects, g: Effects)
    requires AllEvolve(a, b, f) && AllEvolve(b, c, g)
    ensures |a| == |c| && forall i :: 0 <= i < |a| ==> a[i].order == c[i].order && a[i].vars.Keys == c[i].vars.Keys
  {
    forall i | 0 <= i < |a| ensures a[i].order == c[i].order && a[i].vars.Keys == c[i].vars.Keys {
      assert Evolves(a[i], b[i], f) && Evolves(b[i], c[i], g);
    }
  }

  /** Gone in both. */
  function Meet(c: seq<Scope<bool>>, d: seq<Scope<bool>>): seq<Scope<bool>>
    requires |c| == |d|
  {
    seq(|c|, i requires 0 <= i < |c| => c[i].(vars := map x | x in c[i].vars :: c[i].vars[x] && x in d[i].vars && d[i].vars[x]))
  }

  /** Both times the condition is evaluated with at least these locals gone, and
      where the two times differ it does not assign. */
  lemma BothTimes(s: State, b: State, c0: seq<Scope<bool>>, c2: seq<Scope<bool>>, stores: set<Local>)
    requires Covers(true, c0, s.scopes) && Covers(true, c2, b.scopes) && |s.scopes| == |b.scopes|
    requires forall i, x :: 0 <= i < |s.scopes| && x in s.scopes[i].vars ==> x !in stores
    requires forall i :: 0 <= i < |s.scopes| ==> s.scopes[i].order == b.scopes[i].order && s.scopes[i].vars.Keys == b.scopes[i].vars.Keys
    ensures |c0| == |c2| && Harder(Meet(c0, c2), c0, |c0|, stores) && Harder(Meet(c0, c2), c2, |c0|, stores)
  {
    var m := Meet(c0, c2);
    forall i | 0 <= i < |c0| ensures HarderScope(m[i], c0[i], stores) && HarderScope(m[i], c2[i], stores) {
      assert CoversScope(true, c0[i], s.scopes[i]) && CoversScope(true, c2[i], b.scopes[i]);
      assert m[i].vars.Keys == c0[i].vars.Keys;
    }
  }

  /** It was the condition that moved it. */
  lemma ConditionMovedIt(c: State, b: State, g: Effects, i: nat, x: Local)
    requires AllEvolve(c.scopes, b.scopes, g) && LoopOk(c, b) && i < |c.scopes| && x in c.scopes[i].vars && MovedIn(b, i, x)
    ensures c.scopes[i].vars[x].moved
  {
    assert Evolves(c.scopes[i], b.scopes[i], g);
    assert Shifts(x, c.scopes[i].vars[x], b.scopes[i].vars[x], g);
    assert CountIn(b, i, x) == b.scopes[i].vars[x].count;
  }

  lemma WhileParts(e: Expr, take: bool, s: State)
    requires e.While? && Visit(e, take, s).ok && Ends(e)
    ensures var k := Visit(e.cond, false, s); var l := Visit(e.body_, false, k.state);
      && k.ok && l.ok && LoopOk(k.state, l.state) && Ends(e.cond) && Ends(e.body_)
      && Visit(e, take, s).node == While(k.node, l.node) && Visit(e, take, s).state == k.state
  {
    hide LoopOk;
  }

  /** If a condition moves a local that the body does not give back, some run
      evaluates the condition a second time and meets the local gone. */
  lemma MeetsIt(e: Expr, take: bool, c0: seq<Scope<bool>>, s: State) returns (choices: seq<nat>)
    requires e.While? && s.reachable && Covers(true, c0, s.scopes) && Visit(e, take, s).ok && Ends(e)
    requires !Returns(s, Visit(e.body_, false, Visit(e.cond, false, s).state).state)
    requires forall i, x :: 0 <= i < |s.scopes| && x in s.scopes[i].vars ==> x !in Effect(e.cond, false).assigns
    ensures Exec(Visit(e, take, s).node, take, false, choices, c0) == UsedMoved
  {
    hide Visit, Exec, Covers, AllEvolve, Regular, Kept, LoopOk, Passes, Leads, Harder, MovedIn, Effect, Ends, Meet;
    WhileParts(e, take, s);
    var k := Visit(e.cond, false, s);
    var l := Visit(e.body_, false, k.state);
    var node := While(k.node, l.node);
    var f, g := Effect(e.cond, false), Effect(e.body_, false);
    var i, x :| 0 <= i < |s.scopes| && x in s.scopes[i].vars && MovedIn(l.state, i, x) && !s.scopes[i].vars[x].moved;
    hide Returns;
    Evolved(e.cond, false, s);
    Evolved(e.body_, false, k.state);
    SameShape(s.scopes, k.state.scopes, l.state.scopes, f, g);
    var way1, c1 := Passable(e.cond, false, c0, s);
    var way2, c2 := Passable(e.body_, false, c1, k.state);
    BothTimes(s, l.state, c0, c2, f.assigns);
    SameEffect(e.cond, false, s);
    GoneInstead(s, k.state, l.state, c0, c1, c2, f, g, i, x);
    SecondEvaluation(k.node, c0, way1, c1, c2, f.assigns, i, x);
    LeadWhile(node, take, false, c0, way1, c1, way2, c2);
    choices := way1 + ([1] + way2) + way1;
    LeadsOn(Whole(node, take), false, c0, way1 + ([1] + way2), Whole(node, take), c2, way1);
    WhileStops(node, take, way1, c2);
  }

  lemma WhileStops(node: Expr, take: bool, choices: seq<nat>, c: seq<Scope<bool>>)
    requires node.While? && Exec(node.cond, false, false, choices, c) == UsedMoved
    ensures Exec(node, take, false, choices, c) == UsedMoved
  {
  }

  lemma SecondEvaluation(cond: Expr, c0: seq<Scope<bool>>, way: seq<nat>, c1: seq<Scope<bool>>, c2: seq<Scope<bool>>, stores: set<Local>, i: nat, x: Local)
    requires |c0| == |c2| && Passes(Whole(cond, false), false, c0, way, c1) && Effect(cond, false).assigns <= stores
    requires Harder(Meet(c0, c2), c0, |c0|, stores) && Harder(Meet(c0, c2), c2, |c0|, stores)
    requires i < |c0| && i < |c1| && x in c0[i].vars && x in c1[i].vars && x in c2[i].vars
    requires c2[i].vars[x] && !c0[i].vars[x] && c1[i].vars[x]
    ensures Exec(cond, false, false, way, c2) == UsedMoved
  {
    var m := Meet(c0, c2);
    assert x in m[i].vars && !m[i].vars[x];
    PassesOn(Whole(cond, false), false, c0, way, c1, []);
    assert way + [] == way;
    hide Passes, Harder, Meet;
    Replay(cond, false, way, m, c0, |c0|, stores);
    Replay(cond, false, way, m, c2, |c0|, stores);
    var r := Exec(cond, false, false, way, m);
    assert !Differ(m, c0, i, x) && Differ(m, c2, i, x);
    assert r.Next? && x in r.scopes[i].vars && r.scopes[i].vars[x];
  }

  lemma GoneInstead(s: State, c: State, b: State, c0: seq<Scope<bool>>, c1: seq<Scope<bool>>, c2: seq<Scope<bool>>, f: Effects, g: Effects, i: nat, x: Local)
    requires Covers(true, c0, s.scopes) && Covers(true, c1, c.scopes) && Covers(true, c2, b.scopes)
    requires AllEvolve(s.scopes, c.scopes, f) && AllEvolve(c.scopes, b.scopes, g) && LoopOk(c, b)
    requires i < |s.scopes| && x in s.scopes[i].vars && MovedIn(b, i, x) && !s.scopes[i].vars[x].moved
    ensures i < |c0| && i < |c1| && i < |c2| && x in c0[i].vars && x in c1[i].vars && x in c2[i].vars
    ensures c2[i].vars[x] && !c0[i].vars[x] && c1[i].vars[x]
  {
    assert Evolves(s.scopes[i], c.scopes[i], f);
    ConditionMovedIt(c, b, g, i, x);
    assert CoversScope(true, c0[i], s.scopes[i]) && CoversScope(true, c1[i], c.scopes[i]) && CoversScope(true, c2[i], b.scopes[i]);
  }

  lemma CoversLess(c: seq<Scope<bool>>, a: seq<Scope<Binding>>)
    requires Covers(true, c, a)
    ensures Covers(false, c, a)
  {
    forall i | 0 <= i < |a| ensures CoversScope(false, c[i], a[i]) {
      assert CoversScope(true, c[i], a[i]);
    }
  }

  /** For an accepted `while` loop whose parts are regular, whose condition assigns
      no outer local and in which no inner `loop` keeps the end of a part from being
      reached: no run uses a moved local if and only if the body
      gives back whatever the condition moved. The checker compares the end of the
      body with the state after the condition; it should be the one before. */
  lemma WhileIsExact(e: Expr, take: bool, c0: seq<Scope<bool>>, s: State)
    requires e.While? && s.reachable && Covers(true, c0, s.scopes) && Visit(e, take, s).ok && Ends(e)
    requires var c := Visit(e.cond, false, s).state; Regular(e.cond, false, s, false) && Regular(e.body_, false, c, false)
    requires forall i, x :: 0 <= i < |s.scopes| && x in s.scopes[i].vars ==> x !in Effect(e.cond, false).assigns
    ensures (forall choices: seq<nat> :: !Exec(Visit(e, take, s).node, take, false, choices, c0).UsedMoved?)
      <==> Returns(s, Visit(e.body_, false, Visit(e.cond, false, s).state).state)
  {
    hide Covers, Returns, Kept, Ends;
    if Returns(s, Visit(e.body_, false, Visit(e.cond, false, s).state).state) {
      assert Regular(e, take, s, false);
      CoversLess(c0, s.scopes);
      forall choices: seq<nat> ensures !Exec(Visit(e, take, s).node, take, false, choices, c0).UsedMoved? {
        hide Regular;
        Sound(e, take, false, false, choices, c0, s);
      }
    } else {
      var choices := MeetsIt(e, take, c0, s);
    }
  }

  // ---------------------------------------------------------------
  // what loops give back
  // ---------------------------------------------------------------

  /** What is moved before a condition and live after the body is there again. */
  lemma EasierNext(s: State, b: State, c0: seq<Scope<bool>>, c2: seq<Scope<bool>>, stores: set<Local>)
    requires Covers(true, c0, s.scopes) && Covers(true, c2, b.scopes) && b.reachable && Returns(s, b) && |s.scopes| == |b.scopes|
    requires forall i, x :: 0 <= i < |s.scopes| && x in s.scopes[i].vars ==> x !in stores
    requires forall i :: 0 <= i < |s.scopes| ==> s.scopes[i].order == b.scopes[i].order && s.scopes[i].vars.Keys == b.scopes[i].vars.Keys
    ensures Harder(c2, c0, |c0|, stores)
  {
    forall i | 0 <= i < |c0| ensures HarderScope(c2[i], c0[i], stores) {
      assert CoversScope(true, c0[i], s.scopes[i]) && CoversScope(true, c2[i], b.scopes[i]);
      forall x | x in c2[i].vars ensures (c2[i].vars[x] ==> c0[i].vars[x]) && (c0[i].vars[x] && !c2[i].vars[x] ==> !x.copy && x !in stores) {
        assert MovedIn(b, i, x) == b.scopes[i].vars[x].moved;
      }
    }
  }

  /** Evaluated again after the body, the condition leaves live what it left gone. */
  lemma StillLive(cond: Expr, c0: seq<Scope<bool>>, way: seq<nat>, c1: seq<Scope<bool>>, c2: seq<Scope<bool>>, stores: set<Local>, i: nat, x: Local)
    returns (c3: seq<Scope<bool>>)
    requires Passes(Whole(cond, false), false, c0, way, c1) && Harder(c2, c0, |c0|, stores) && Effect(cond, false).assigns <= stores
    requires i < |c0| && i < |c2| && x in c0[i].vars && x in c2[i].vars && c0[i].vars[x] && !c2[i].vars[x]
    ensures Exec(cond, false, false, way + [0], c2) == Next(c3, [0])
    ensures i < |c1| && i < |c3| && x in c1[i].vars && x in c3[i].vars && c1[i].vars[x] && !c3[i].vars[x]
  {
    PassesOn(Whole(cond, false), false, c0, way, c1, [0]);
    hide Passes, Harder;
    Replay(cond, false, way + [0], c2, c0, |c0|, stores);
    c3 := Exec(cond, false, false, way + [0], c2).scopes;
  }

  lemma TwiceThenOut(node: Expr, take: bool, c0: seq<Scope<bool>>, way1: seq<nat>, c1: seq<Scope<bool>>, way2: seq<nat>, c2: seq<Scope<bool>>, c3: seq<Scope<bool>>)
    requires node.While? && Passes(Whole(node.cond, false), false, c0, way1, c1) && Passes(Whole(node.body_, false), false, c1, way2, c2)
    requires Exec(node.cond, false, false, way1 + [0], c2) == Next(c3, [0])
    ensures Exec(node, take, false, way1 + ([1] + way2) + (way1 + [0]), c0) == Next(c3, [])
  {
    hide Passes, Leads;
    LeadWhile(node, take, false, c0, way1, c1, way2, c2);
    LeadsOn(Whole(node, take), false, c0, way1 + ([1] + way2), Whole(node, take), c2, way1 + [0]);
    Front(0, []);
    assert Exec(node, take, false, way1 + [0], c2) == Next(c3, []);
  }

  /** If the body gives back what was moved before the loop, some run leaves the
      loop with it live although the checker has it moved. */
  lemma GivesBack(e: Expr, take: bool, c0: seq<Scope<bool>>, s: State) returns (choices: seq<nat>)
    requires e.While? && s.reachable && Covers(true, c0, s.scopes) && Visit(e, take, s).ok && Ends(e)
    requires var b := Visit(e.body_, false, Visit(e.cond, false, s).state).state; Returns(s, b) && !Kept(s, b)
    requires forall i, x :: 0 <= i < |s.scopes| && x in s.scopes[i].vars ==> x !in Effect(e.cond, false).assigns
    ensures var r := Exec(Visit(e, take, s).node, take, false, choices, c0); r.Next? && !Covers(true, r.scopes, Visit(e, take, s).state.scopes)
  {
    hide Visit, Exec, AllEvolve, Regular, Returns, LoopOk, Passes, Harder, Effect, Ends, Covers, MovedIn;
    WhileParts(e, take, s);
    var k := Visit(e.cond, false, s);
    var l := Visit(e.body_, false, k.state);
    var node := While(k.node, l.node);
    var f, g := Effect(e.cond, false), Effect(e.body_, false);
    var i, x :| 0 <= i < |s.scopes| && x in s.scopes[i].vars && s.scopes[i].vars[x].moved && !MovedIn(l.state, i, x);
    hide Kept;
    Evolved(e.cond, false, s);
    Evolved(e.body_, false, k.state);
    SameShape(s.scopes, k.state.scopes, l.state.scopes, f, g);
    var way1, c1 := Passable(e.cond, false, c0, s);
    var way2, c2 := Passable(e.body_, false, c1, k.state);
    EasierNext(s, l.state, c0, c2, f.assigns);
    SameEffect(e.cond, false, s);
    LiveInstead(s, l.state, c0, c2, i, x);
    var c3 := StillLive(k.node, c0, way1, c1, c2, f.assigns, i, x);
    choices := way1 + ([1] + way2) + (way1 + [0]);
    TwiceThenOut(node, take, c0, way1, c1, way2, c2, c3);
    NotExact(k.state, c1, c3, i, x);
  }

  lemma LiveInstead(s: State, b: State, c0: seq<Scope<bool>>, c2: seq<Scope<bool>>, i: nat, x: Local)
    requires Covers(true, c0, s.scopes) && Covers(true, c2, b.scopes) && i < |s.scopes| == |b.scopes|
    requires x in s.scopes[i].vars && x in b.scopes[i].vars && s.scopes[i].vars[x].moved && !MovedIn(b, i, x)
    ensures i < |c0| && i < |c2| && x in c0[i].vars && x in c2[i].vars && c0[i].vars[x] && !c2[i].vars[x]
  {
    assert CoversScope(true, c0[i], s.scopes[i]) && CoversScope(true, c2[i], b.scopes[i]);
  }

  lemma NotExact(s: State, c1: seq<Scope<bool>>, c3: seq<Scope<bool>>, i: nat, x: Local)
    requires Covers(true, c1, s.scopes) && i < |c1| && i < |c3| && x in c1[i].vars && x in c3[i].vars && c1[i].vars[x] && !c3[i].vars[x]
    ensures !Covers(true, c3, s.scopes)
  {
    assert CoversScope(true, c1[i], s.scopes[i]);
    assert !CoversScope(true, c3[i], s.scopes[i]);
  }

  /** For an accepted `while` loop with regular parts whose condition assigns no
      outer local and moves nothing that the body does not give back, and in which
      no inner `loop` keeps the end of a part from being reached: every run that
      passes it leaves exactly what the checker has marked if and only if the body
      gives back nothing that was moved before. */
  lemma WhileKeeps(e: Expr, take: bool, c0: seq<Scope<bool>>, s: State)
    requires e.While? && s.reachable && Covers(true, c0, s.scopes) && Visit(e, take, s).ok && Ends(e)
    requires var c := Visit(e.cond, false, s).state; var b := Visit(e.body_, false, c).state;
      Regular(e.cond, false, s, true) && Regular(e.body_, false, c, true) && Returns(s, b)
    requires forall i, x :: 0 <= i < |s.scopes| && x in s.scopes[i].vars ==> x !in Effect(e.cond, false).assigns
    ensures (forall choices: seq<nat> ::
              var r := Exec(Visit(e, take, s).node, take, false, choices, c0); r.Next? ==> Covers(true, r.scopes, Visit(e, take, s).state.scopes))
      <==> Kept(s, Visit(e.body_, false, Visit(e.cond, false, s).state).state)
  {
    hide Covers, Returns, Kept, Ends;
    if Kept(s, Visit(e.body_, false, Visit(e.cond, false, s).state).state) {
      assert Regular(e, take, s, true);
      forall choices: seq<nat>
        ensures var r := Exec(Visit(e, take, s).node, take, false, choices, c0); r.Next? ==> Covers(true, r.scopes, Visit(e, take, s).state.scopes)
      {
        hide Regular;
        Sound(e, take, true, false, choices, c0, s);
      }
    } else {
      var choices := GivesBack(e, take, c0, s);
    }
  }

  /** `c` is where a run may be after `n` rounds of a loop. */
  ghost predicate Comes(body: Expr, c0: seq<Scope<bool>>, n: nat, c: seq<Scope<bool>>)
    decreases n
  {
    if n == 0 then c == c0
    else exists d, way: seq<nat> :: Comes(body, c0, n - 1, d) && Exec(body, false, false, way, d) == Next(c, [])
  }

  lemma {:induction false} RoundsCovered(e: Expr, c0: seq<Scope<bool>>, s: State, n: nat, c: seq<Scope<bool>>)
    requires e.Loop? && s.reachable && Covers(true, c0, s.scopes) && Visit(e, false, s).ok && Regular(e, false, s, true)
    requires Comes(Visit(e, false, s).node.body_, c0, n, c)
    ensures Covers(true, c, s.scopes)
    decreases n
  {
    var k := Visit(e.body_, false, s);
    assert Visit(e, false, s).node.body_ == k.node && LoopOk(s, k.state) && Kept(s, k.state) && k.ok && Regular(e.body_, false, s, true);
    hide Covers, LoopOk, Kept, AllEvolve;
    if n > 0 {
      var p := n - 1;
      var d, way: seq<nat> :| Comes(k.node, c0, p, d) && Exec(k.node, false, false, way, d) == Next(c, []);
      RoundsCovered(e, c0, s, p, d);
      hide Regular, Comes;
      Sound(e.body_, false, true, false, way, d, s);
      Evolved(e.body_, false, s);
      Back(true, d, c, s, k.state, Effect(e.body_, false));
    }
  }

  /** For an accepted `loop` with a regular body whose end no inner `loop` keeps from
      being reached: every round starts with exactly what the checker has marked if
      and only if the body gives back nothing that was moved before. */
  lemma LoopKeeps(e: Expr, c0: seq<Scope<bool>>, s: State)
    requires e.Loop? && s.reachable && Covers(true, c0, s.scopes) && Visit(e, false, s).ok && Regular(e.body_, false, s, true) && Ends(e.body_)
    ensures (forall n: nat, c :: Comes(Visit(e, false, s).node.body_, c0, n, c) ==> Covers(true, c, s.scopes))
      <==> Kept(s, Visit(e.body_, false, s).state)
  {
    var k := Visit(e.body_, false, s);
    assert Visit(e, false, s).node.body_ == k.node && k.ok;
    if Kept(s, k.state) {
      assert Regular(e, false, s, true);
      hide Kept, Covers, Ends, Comes;
      forall n: nat, c | Comes(k.node, c0, n, c) ensures Covers(true, c, s.scopes) {
        hide Regular;
        RoundsCovered(e, c0, s, n, c);
      }
    } else {
      assert k.state.reachable;
      var i, x :| 0 <= i < |s.scopes| && x in s.scopes[i].vars && s.scopes[i].vars[x].moved && !MovedIn(k.state, i, x);
      hide Covers, Regular, Ends, Kept, Passes, AllEvolve;
      var way, c := Passable(e.body_, false, c0, s);
      PassesOn(Whole(k.node, false), false, c0, way, c, []);
      assert Comes(k.node, c0, 0, c0);
      assert Comes(k.node, c0, 1, c);
      Evolved(e.body_, false, s);
      Same(s.scopes, Nothing);
      SameShape(s.scopes, s.scopes, k.state.scopes, Nothing, Effect(e.body_, false));
      LiveInstead(s, k.state, c0, c, i, x);
      NotExact(s, c0, c, i, x);
    }
  }
}
