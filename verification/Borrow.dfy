/** The move analysis and the drop plan: a core of the surface language, the
    abstract interpretation of its bodies, and what running a body does. */
module Borrow {

  datatype Option<+T> = None | Some(value: T)

  /** A local: the resolver gives every declaration an identity of its own, and
      its type says whether it is Copy. */
  datatype Local = Local(id: nat, copy: bool)

  /** Bodies. A missing `else`, tail, initialiser, guard or returned value is
      `Lit`. `drops` is where the drop plan for a block end or a `return` goes. */
  datatype Expr =
    | Lit
    | Var(x: Local)
    | Block(body: Stmts, drops: seq<Local>)
    | If(cond: Expr, thn: Expr, els: Expr)
    | Match(scrutinee: Expr, copy: bool, arms: Arms)
    | Loop(body_: Expr)
    | While(cond: Expr, body_: Expr)
    | Return(value: Expr, drops: seq<Local>)
    | Assign(x: Local, value: Expr)
    | Apply(args: Args, panics: bool)

  datatype Stmts =
    | Tail(tail: Expr)
    | Let(binds: seq<Local>, copy: bool, value: Expr, rest: Stmts)
    | Do(e: Expr, copy: bool, rest: Stmts)

  /** Operands of an operator, a call or an aggregate: a taken one is consumed,
      the others are only read. */
  datatype Args = NoArgs | Arg(e: Expr, taken: bool, rest: Args)

  datatype Arms = NoArms | Arm(binds: seq<Local>, guard: Expr, body: Expr, rest: Arms)

  /** Bindings of one scope, with the order they were declared in. */
  datatype Scope<T> = Scope(vars: map<Local, T>, order: seq<Local>)

  // ---------------------------------------------------------------
  // scopes
  // ---------------------------------------------------------------

  /** The innermost scope that binds `x`. */
  function Find<T>(scopes: seq<Scope<T>>, x: Local): (r: Option<nat>)
    ensures r.Some? ==> r.value < |scopes| && x in scopes[r.value].vars
  {
    if scopes == [] then None
    else
      var n := |scopes| - 1;
      if x in scopes[n].vars then Some(n) else Find(scopes[..n], x)
  }

  function Put<T>(scopes: seq<Scope<T>>, i: nat, x: Local, v: T): seq<Scope<T>>
    requires i < |scopes|
  {
    scopes[i := scopes[i].(vars := scopes[i].vars[x := v])]
  }

  function Define<T>(scopes: seq<Scope<T>>, binds: seq<Local>, v: T): (r: seq<Scope<T>>)
    requires scopes != []
    ensures |r| == |scopes| && r[..|r| - 1] == scopes[..|r| - 1]
    decreases |binds|
  {
    if binds == [] then scopes
    else
      var n := |scopes| - 1;
      var top := scopes[n];
      Define(scopes[n := Scope(top.vars[binds[0] := v], top.order + [binds[0]])], binds[1..], v)
  }

  function Names(binds: seq<Local>): set<Local> {
    set x | x in binds
  }

  /** The members of `live` in the reverse of the order they were declared. */
  function Due(order: seq<Local>, live: set<Local>): seq<Local> {
    if order == [] then []
    else
      var n := |order| - 1;
      (if order[n] in live then [order[n]] else []) + Due(order[..n], live)
  }

  // ---------------------------------------------------------------
  // the analysis
  // ---------------------------------------------------------------

  datatype Binding = Binding(moved: bool, count: nat)

  datatype State = State(scopes: seq<Scope<Binding>>, reachable: bool)

  /** The node with its drops filled in, the state after it, and whether no
      move diagnostic was reported. */
  datatype Out<N> = Out(node: N, state: State, ok: bool)

  const Fresh := Binding(false, 0)

  function Live(scope: Scope<Binding>): set<Local> {
    set x | x in scope.vars && !x.copy && !scope.vars[x].moved
  }

  /** What has to be dropped when every scope is left, innermost first. */
  function LiveAll(scopes: seq<Scope<Binding>>): seq<Local> {
    if scopes == [] then []
    else
      var n := |scopes| - 1;
      Due(scopes[n].order, Live(scopes[n])) + LiveAll(scopes[..n])
  }

  function Push(s: State): State {
    s.(scopes := s.scopes + [Scope(map[], [])])
  }

  function Pop(s: State): State
    requires s.scopes != []
  {
    s.(scopes := s.scopes[..|s.scopes| - 1])
  }

  /** The state an arm starts in. */
  function Bound(before: State, binds: seq<Local>): (r: State)
    ensures |r.scopes| == |before.scopes| + 1 && r.scopes[..|before.scopes|] == before.scopes && r.reachable == before.reachable
  {
    var start := Push(before);
    start.(scopes := Define(start.scopes, binds, Fresh))
  }

  /** A mention of `x`, which moves it out when it is taken. */
  function Mention(x: Local, take: bool, s: State): Out<Expr> {
    match Find(s.scopes, x)
    case None => Out(Var(x), s, true)
    case Some(i) =>
      var b := s.scopes[i].vars[x];
      var s' := if take && !x.copy then s.(scopes := Put(s.scopes, i, x, Binding(true, b.count + 1))) else s;
      Out(Var(x), s', !b.moved)
  }

  function Revive(x: Local, s: State): State {
    match Find(s.scopes, x)
    case None => s
    case Some(i) => s.(scopes := Put(s.scopes, i, x, s.scopes[i].vars[x].(moved := false)))
  }

  predicate MovedIn(s: State, i: nat, x: Local) {
    i < |s.scopes| && x in s.scopes[i].vars && s.scopes[i].vars[x].moved
  }

  function CountIn(s: State, i: nat, x: Local): nat {
    if i < |s.scopes| && x in s.scopes[i].vars then s.scopes[i].vars[x].count else 0
  }

  function MaxCount(branches: seq<State>, i: nat, x: Local): nat {
    if branches == [] then 0
    else
      var m := MaxCount(branches[1..], i, x);
      if CountIn(branches[0], i, x) > m then CountIn(branches[0], i, x) else m
  }

  predicate AnyReachable(branches: seq<State>) {
    exists b :: b in branches && b.reachable
  }

  predicate AllMoved(branches: seq<State>, i: nat, x: Local) {
    forall b :: b in branches && b.reachable ==> MovedIn(b, i, x)
  }

  predicate NoneMoved(branches: seq<State>, i: nat, x: Local) {
    forall b :: b in branches && b.reachable ==> !MovedIn(b, i, x)
  }

  function MergedBinding(before: Binding, branches: seq<State>, i: nat, x: Local): Binding {
    Binding(
      if !AnyReachable(branches) then before.moved
      else if AllMoved(branches, i, x) then true
      else if NoneMoved(branches, i, x) then false
      else before.moved,
      MaxCount(branches, i, x))
  }

  function MergedScope(before: Scope<Binding>, branches: seq<State>, i: nat): Scope<Binding> {
    before.(vars := map x | x in before.vars :: MergedBinding(before.vars[x], branches, i, x))
  }

  /** The state after branches that all started from `before`. */
  function Merge(before: State, branches: seq<State>): State {
    if branches == [] then before
    else State(seq(|before.scopes|, i requires 0 <= i < |before.scopes| => MergedScope(before.scopes[i], branches, i)), AnyReachable(branches))
  }

  /** Reachable branches agree on what is moved. */
  predicate Agree(before: State, branches: seq<State>) {
    AnyReachable(branches) ==>
      forall i, x :: 0 <= i < |before.scopes| && x in before.scopes[i].vars ==> AllMoved(branches, i, x) || NoneMoved(branches, i, x)
  }

  /** Nothing that was bound before the loop is moved in it and left moved. */
  predicate LoopOk(before: State, after: State) {
    forall i, x :: 0 <= i < |before.scopes| && x in before.scopes[i].vars ==>
      !(CountIn(after, i, x) > before.scopes[i].vars[x].count && MovedIn(after, i, x))
  }

  /** The analysis of an expression whose value is taken or only read. */
  function Visit(e: Expr, take: bool, s: State): (r: Out<Expr>)
    ensures |r.state.scopes| == |s.scopes|
    decreases e
  {
    match e
    case Lit => Out(e, s, true)
    case Var(x) => Mention(x, take, s)
    case Block(body, _) =>
      var b := VisitStmts(body, take, Push(s));
      var top := b.state.scopes[|s.scopes|];
      Out(Block(b.node, if b.state.reachable then Due(top.order, Live(top)) else []), Pop(b.state), b.ok)
    case If(cond, thn, els) =>
      var c := Visit(cond, false, s);
      var t := Visit(thn, take, c.state);
      var f := Visit(els, take, c.state);
      var branches := [t.state, f.state];
      Out(If(c.node, t.node, f.node), Merge(c.state, branches), c.ok && t.ok && f.ok && Agree(c.state, branches))
    case Match(scrutinee, copy, arms) =>
      var c := Visit(scrutinee, !copy, s);
      var (arms', branches, ok) := VisitArms(arms, take, c.state);
      Out(Match(c.node, copy, arms'), Merge(c.state, branches), c.ok && ok && Agree(c.state, branches))
    case Loop(body) =>
      var b := Visit(body, false, s);
      Out(Loop(b.node), s, b.ok && LoopOk(s, b.state))
    case While(cond, body) =>
      var c := Visit(cond, false, s);
      var b := Visit(body, false, c.state);
      Out(While(c.node, b.node), c.state, c.ok && b.ok && LoopOk(c.state, b.state))
    case Return(value, _) =>
      var v := Visit(value, true, s);
      Out(Return(v.node, LiveAll(v.state.scopes)), v.state.(reachable := false), v.ok)
    case Assign(x, value) =>
      var v := Visit(value, true, s);
      Out(Assign(x, v.node), Revive(x, v.state), v.ok)
    case Apply(args, panics) =>
      var a := VisitArgs(args, s);
      Out(Apply(a.node, panics), a.state.(reachable := a.state.reachable && !panics), a.ok)
  }

  /** Statements are skipped once the code before them cannot be passed. */
  function VisitStmts(st: Stmts, take: bool, s: State): (r: Out<Stmts>)
    requires s.scopes != []
    ensures |r.state.scopes| == |s.scopes|
    decreases st
  {
    if !s.reachable then Out(st, s, true)
    else match st
      case Tail(tail) =>
        var t := Visit(tail, take, s);
        Out(Tail(t.node), t.state, t.ok)
      case Let(binds, copy, value, rest) =>
        var v := Visit(value, !copy, s);
        var r := VisitStmts(rest, take, v.state.(scopes := Define(v.state.scopes, binds, Fresh)));
        Out(Let(binds, copy, v.node, r.node), r.state, v.ok && r.ok)
      case Do(e, copy, rest) =>
        var v := Visit(e, !copy, s);
        var r := VisitStmts(rest, take, v.state);
        Out(Do(v.node, copy, r.node), r.state, v.ok && r.ok)
  }

  function VisitArgs(args: Args, s: State): (r: Out<Args>)
    ensures |r.state.scopes| == |s.scopes|
    decreases args
  {
    match args
    case NoArgs => Out(args, s, true)
    case Arg(e, taken, rest) =>
      var a := Visit(e, taken, s);
      var r := VisitArgs(rest, a.state);
      Out(Arg(a.node, taken, r.node), r.state, a.ok && r.ok)
  }


  /** Every arm starts from the state after the scrutinee. */
  function VisitArms(arms: Arms, take: bool, before: State): (r: (Arms, seq<State>, bool))
    ensures forall b :: b in r.1 ==> |b.scopes| == |before.scopes|
    decreases arms
  {
    match arms
    case NoArms => (arms, [], true)
    case Arm(binds, guard, body, rest) =>
      var g := Visit(guard, false, Bound(before, binds));
      var b := Visit(body, take, g.state);
      var (rest', branches, ok) := VisitArms(rest, take, before);
      (Arm(binds, g.node, b.node, rest'), [Pop(b.state)] + branches, g.ok && b.ok && ok)
  }

  // ---------------------------------------------------------------
  // running a body
  // ---------------------------------------------------------------

  /** What a run comes to: it goes on, leaves the function, stops in a panic, is
      cut off where its choices end, reads or moves a local that is gone, or
      leaves a scope with drops that are not exactly those due. */
  datatype Result = Next(scopes: seq<Scope<bool>>, rest: seq<nat>) | Left | Halted | Cut | UsedMoved | WrongDrops

  function Owned(scope: Scope<bool>): set<Local> {
    set x | x in scope.vars && !x.copy && !scope.vars[x]
  }

  function OwnedAll(scopes: seq<Scope<bool>>): seq<Local> {
    if scopes == [] then []
    else
      var n := |scopes| - 1;
      Due(scopes[n].order, Owned(scopes[n])) + OwnedAll(scopes[..n])
  }

  function Use(x: Local, take: bool, choices: seq<nat>, c: seq<Scope<bool>>): Result {
    match Find(c, x)
    case None => Next(c, choices)
    case Some(i) =>
      if c[i].vars[x] then UsedMoved
      else Next(if take && !x.copy then Put(c, i, x, true) else c, choices)
  }

  function Fill(x: Local, c: seq<Scope<bool>>): seq<Scope<bool>> {
    match Find(c, x)
    case None => c
    case Some(i) => Put(c, i, x, false)
  }

  function Enter(c: seq<Scope<bool>>, binds: seq<Local>): (r: seq<Scope<bool>>)
    ensures |r| == |c| + 1 && r[..|c|] == c
  {
    Define(c + [Scope(map[], [])], binds, false)
  }

  /** Runs `e` with the locals of `c`, of which `true` marks those that are
      gone. The choices decide conditions, patterns, guards and how often loops
      go round, so every finite beginning of every run is covered. With `strict`
      the drops noted at scope exits must be right. */
  function Exec(e: Expr, take: bool, strict: bool, choices: seq<nat>, c: seq<Scope<bool>>): (r: Result)
    ensures r.Next? ==> |r.rest| <= |choices| && |r.scopes| == |c|
    decreases |choices|, e, 1
  {
    match e
    case Lit => Next(c, choices)
    case Var(x) => Use(x, take, choices, c)
    case Block(body, drops) =>
      var b := ExecStmts(body, take, strict, choices, c + [Scope(map[], [])]);
      if !b.Next? then b
      else if strict && drops != Due(b.scopes[|c|].order, Owned(b.scopes[|c|])) then WrongDrops
      else Next(b.scopes[..|c|], b.rest)
    case If(cond, thn, els) =>
      var t := Exec(cond, false, strict, choices, c);
      if !t.Next? then t
      else if t.rest == [] then Cut
      else Exec(if t.rest[0] == 0 then els else thn, take, strict, t.rest[1..], t.scopes)
    case Match(scrutinee, copy, arms) =>
      var t := Exec(scrutinee, !copy, strict, choices, c);
      if !t.Next? then t else ExecArms(arms, take, strict, t.rest, t.scopes)
    case Loop(_) => ExecLoop(e, take, strict, choices, c)
    case While(_, _) => ExecLoop(e, take, strict, choices, c)
    case Return(value, drops) =>
      var v := Exec(value, true, strict, choices, c);
      if !v.Next? then v
      else if strict && drops != OwnedAll(v.scopes) then WrongDrops
      else Left
    case Assign(x, value) =>
      var v := Exec(value, true, strict, choices, c);
      if !v.Next? then v else Next(Fill(x, v.scopes), v.rest)
    case Apply(args, panics) =>
      var a := ExecArgs(args, strict, choices, c);
      if a.Next? && panics then Halted else a
  }

  /** A loop goes round as often as the choices say. */
  function ExecLoop(e: Expr, take: bool, strict: bool, choices: seq<nat>, c: seq<Scope<bool>>): (r: Result)
    requires e.Loop? || e.While?
    ensures r.Next? ==> |r.rest| <= |choices| && |r.scopes| == |c|
    decreases |choices|, e, 0
  {
    match e
    case Loop(body) =>
      if choices == [] then Cut
      else
        var b := Exec(body, false, strict, choices[1..], c);
        if !b.Next? then b else Exec(e, take, strict, b.rest, b.scopes)
    case While(cond, body) =>
      var t := Exec(cond, false, strict, choices, c);
      if !t.Next? then t
      else if t.rest == [] then Cut
      else if t.rest[0] == 0 then Next(t.scopes, t.rest[1..])
      else
        var b := Exec(body, false, strict, t.rest[1..], t.scopes);
        if !b.Next? then b else Exec(e, take, strict, b.rest, b.scopes)
  }

  function ExecStmts(st: Stmts, take: bool, strict: bool, choices: seq<nat>, c: seq<Scope<bool>>): (r: Result)
    requires c != []
    ensures r.Next? ==> |r.rest| <= |choices| && |r.scopes| == |c|
    decreases |choices|, st
  {
    match st
    case Tail(tail) => Exec(tail, take, strict, choices, c)
    case Let(binds, copy, value, rest) =>
      var v := Exec(value, !copy, strict, choices, c);
      if !v.Next? then v else ExecStmts(rest, take, strict, v.rest, Define(v.scopes, binds, false))
    case Do(e, copy, rest) =>
      var v := Exec(e, !copy, strict, choices, c);
      if !v.Next? then v else ExecStmts(rest, take, strict, v.rest, v.scopes)
  }

  function ExecArgs(args: Args, strict: bool, choices: seq<nat>, c: seq<Scope<bool>>): (r: Result)
    ensures r.Next? ==> |r.rest| <= |choices| && |r.scopes| == |c|
    decreases |choices|, args
  {
    match args
    case NoArgs => Next(c, choices)
    case Arg(e, taken, rest) =>
      var a := Exec(e, taken, strict, choices, c);
      if !a.Next? then a else ExecArgs(rest, strict, a.rest, a.scopes)
  }

  /** Arms are tried in order: a pattern may not fit and a guard may fail. */
  function ExecArms(arms: Arms, take: bool, strict: bool, choices: seq<nat>, c: seq<Scope<bool>>): (r: Result)
    ensures r.Next? ==> |r.rest| <= |choices| && |r.scopes| == |c|
    decreases |choices|, arms
  {
    match arms
    case NoArms => Halted
    case Arm(binds, guard, body, rest) =>
      if choices == [] then Cut
      else if choices[0] == 0 then ExecArms(rest, take, strict, choices[1..], c)
      else
        var g := Exec(guard, false, strict, choices[1..], Enter(c, binds));
        if !g.Next? then g
        else if g.rest == [] then Cut
        else if g.rest[0] == 0 then ExecArms(rest, take, strict, g.rest[1..], g.scopes[..|c|])
        else
          var b := Exec(body, take, strict, g.rest[1..], g.scopes);
          if !b.Next? then b else Next(b.scopes[..|c|], b.rest)
  }
}
